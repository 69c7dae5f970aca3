/** The staging, live and trash roots. They share one filesystem, so moving a
    transfer between them is a single rename. */
module FileLayout {
  import opened Outcomes
  import opened Protocol
  import opened Storage

  class Layout {
    var staging: Dirs
    var live: Dirs
    var trash: Dirs

    constructor ()
      ensures staging == map[] && live == map[] && trash == map[]
    {
      staging, live, trash := map[], map[], map[];
    }

    method PrepareStaging(id: string)
      modifies this`staging
      ensures staging == old(staging)[id := EMPTY_DIR]
    {
      staging := staging[id := EMPTY_DIR];
    }

    method PutStaging(id: string, dir: Dir)
      modifies this`staging
      ensures staging == old(staging)[id := dir]
    {
      staging := staging[id := dir];
    }

    method WriteManifest(id: string, m: Manifest)
      requires id in staging
      modifies this`staging
      ensures staging == old(staging)[id := old(staging)[id].(manifest := Some(m))]
    {
      staging := staging[id := staging[id].(manifest := Some(m))];
    }

    /** An existing live directory means an earlier attempt already published. */
    method PublishDir(id: string) returns (ok: bool)
      modifies this`staging, this`live
      ensures ok <==> id in old(live) || id in old(staging)
      ensures if id in old(live) || id !in old(staging) then staging == old(staging) && live == old(live)
              else staging == old(staging) - {id} && live == old(live)[id := old(staging)[id]]
    {
      if id in live {
        return true;
      }
      if id !in staging {
        return false;
      }
      live := live[id := staging[id]];
      staging := staging - {id};
      ok := true;
    }

    /** Deletes whatever occupies the trash slot. */
    method FreeSlot(id: string)
      modifies this`trash
      ensures trash == old(trash) - {id}
    {
      trash := trash - {id};
    }

    method MoveLive(id: string)
      modifies this`live, this`trash
      ensures live == old(live) - {id}
      ensures trash == if id in old(live) then old(trash)[id := old(live)[id]] else old(trash)
    {
      if id in live {
        trash := trash[id := live[id]];
        live := live - {id};
      }
    }

    method MoveStaging(id: string)
      modifies this`staging, this`trash
      ensures staging == old(staging) - {id}
      ensures trash == if id in old(staging) then old(trash)[id := old(staging)[id]] else old(trash)
    {
      if id in staging {
        trash := trash[id := staging[id]];
        staging := staging - {id};
      }
    }

    method EmptyTrash() returns (removed: nat)
      modifies this`trash
      ensures trash == map[] && removed == |old(trash)|
    {
      removed := 0;
      ghost var all := trash;
      while trash != map[]
        invariant removed + |trash| == |all|
        decreases |trash|
      {
        var id :| id in trash;
        ghost var before := trash.Keys;
        trash := trash - {id};
        assert trash.Keys == before - {id};
        removed := removed + 1;
      }
    }

    method RemoveStaging(id: string)
      modifies this`staging
      ensures staging == old(staging) - {id}
    {
      staging := staging - {id};
    }
  }
}
