/** The metadata repository: every method is one transaction. */
module MetadataStore {
  import opened Outcomes
  import opened Protocol
  import opened Storage

  const MAX_CODE_DRAWS := 16

  /** A draw whose predecessors are all taken is the first free one. */
  lemma {:induction false} FirstFreeAt(rows: Rows, codes: seq<string>, k: nat)
    requires k <= |codes|
    requires forall i | 0 <= i < k :: CodeTaken(rows, codes[i])
    ensures k == |codes| ==> FirstFree(rows, codes) == None
    ensures k < |codes| && !CodeTaken(rows, codes[k]) ==> FirstFree(rows, codes) == Some(codes[k])
  {
    hide CodeTaken;
    if k > 0 {
      assert CodeTaken(rows, codes[0]);
      forall i | 0 <= i < k - 1
        ensures CodeTaken(rows, codes[1..][i])
      {
        assert codes[1..][i] == codes[i + 1];
      }
      FirstFreeAt(rows, codes[1..], k - 1);
    }
  }

  class Store {
    var rows: Rows
    var claims: Claims

    constructor ()
      ensures rows == map[] && claims == map[]
    {
      rows, claims := map[], map[];
    }

    method CreateTransfer(id: string, row: Row)
      modifies this`rows
      ensures rows == old(rows)[id := row]
    {
      rows := rows[id := row];
    }

    method GetTransfer(id: string) returns (r: Option<Row>)
      ensures r == if id in rows then Some(rows[id]) else None
    {
      r := if id in rows then Some(rows[id]) else None;
    }

    method GetTransferByCode(code: string) returns (r: Option<(string, Row)>)
      ensures r.None? <==> !CodeTaken(rows, code)
      ensures r.Some? ==> r.value.0 in rows && rows[r.value.0] == r.value.1 && r.value.1.code == Some(code)
    {
      if id :| id in rows && rows[id].code == Some(code) {
        r := Some((id, rows[id]));
      } else {
        r := None;
      }
    }

    method SetState(id: string, state: State)
      modifies this`rows
      ensures rows == WithState(old(rows), id, state)
    {
      if id in rows {
        rows := rows[id := rows[id].(state := state)];
      }
    }

    method Fail(id: string, error: ErrorCode)
      modifies this`rows
      ensures rows == WithFailure(old(rows), id, error)
    {
      if id in rows {
        rows := rows[id := rows[id].(state := Failed, lastError := Some(error))];
      }
    }

    method SetNoteAndTTL(id: string, note: string, ttl: int)
      modifies this`rows
      ensures rows == WithNoteAndTTL(old(rows), id, note, ttl)
    {
      if id in rows {
        rows := rows[id := rows[id].(note := note, ttl := ttl)];
      }
    }

    /** Allocates a code no other row carries and marks the transfer committed. A
        committed transfer keeps its code. `codes` are the random draws. */
    method PublishTransfer(id: string, now: int, ttl: int, m: Manifest, bytes: int, codes: seq<string>)
      returns (p: Publication)
      requires |codes| == 16
      modifies this`rows
      ensures p == Publish(old(rows), id, Unix(now), ttl, m, bytes, codes)
      ensures rows == AfterPublish(old(rows), id, p)
      ensures p.Published? ==> id in old(rows) && rows == old(rows)[id := p.row]
      ensures p.Refused? ==> rows == old(rows)
      ensures p.Refused? <==>
                || id !in old(rows)
                || (old(rows)[id].state == Committed && old(rows)[id].code.None?)
                || old(rows)[id].state !in {Created, Uploading, Verifying, Committed}
                || (old(rows)[id].state != Committed &&
                    (old(rows)[id].code.Some? || forall i | 0 <= i < |codes| :: exists j | j in old(rows) :: old(rows)[j].code == Some(codes[i])))
      ensures p.Published? && !(old(rows)[id].state == Committed && old(rows)[id].code.Some?) ==>
                && NewlyPublished(old(rows)[id], p.row, now, ttl, m, bytes, codes)
                && forall j | j in old(rows) :: old(rows)[j].code != p.row.code
    {
      if id !in rows {
        return Refused(TransferNotFound);
      }
      var t := rows[id];
      if t.state.Committed? && t.code.Some? {
        return Published(t);
      }
      if !t.state.Created? && !t.state.Uploading? && !t.state.Verifying? {
        return Refused(StateConflict);
      }
      if t.code.Some? {
        return Refused(StateConflict);
      }
      var committedAt := Unix(now);
      for attempt := 0 to MAX_CODE_DRAWS
        invariant rows == old(rows)
        invariant forall i | 0 <= i < attempt :: CodeTaken(rows, codes[i])
      {
        FirstFreeAt(rows, codes, attempt);
        if !CodeTaken(rows, codes[attempt]) {
          t := t.(code := Some(codes[attempt]), state := Committed, committedAt := Some(committedAt),
                  expiresAt := Some(committedAt + ttl * 60), manifestDigest := Some(m),
                  materializedBytes := bytes, reservedBytes := 0);
          rows := rows[id := t];
          return Published(t);
        }
      }
      FirstFreeAt(rows, codes, MAX_CODE_DRAWS);
      p := Refused(InternalError);
    }

    /** Marks every committed transfer whose expiry has passed. */
    method ExpireAllDue(now: int) returns (n: nat)
      modifies this`rows
      ensures rows == ExpireDue(old(rows), now)
      ensures n == |set id | id in old(rows) && Due(old(rows)[id], now)|
      ensures rows.Keys == old(rows).Keys
      ensures forall id | id in rows ::
                var r := old(rows)[id];
                rows[id] == if r.state == Committed && r.expiresAt.Some? && now >= 1_000_000_000 * r.expiresAt.value then r.(state := Expired) else r
    {
      var due := set id | id in rows && Due(rows[id], now);
      n := |due|;
      rows := map id | id in rows :: if id in due then rows[id].(state := Expired) else rows[id];
    }

    /** Expired, failed and abandoned transfers that no running lease pins. */
    method UnpinnedExpired(now: int) returns (ids: set<string>)
      ensures ids == set id | id in rows && Terminal(rows[id].state) && !Pinned(claims, id, now)
      ensures forall id :: id in ids <==>
                && id in rows && rows[id].state in {Expired, Failed, Abandoned}
                && forall cid | cid in claims && claims[cid].transferId == id ::
                     claims[cid].completedAt.Some? || now >= 1_000_000_000 * claims[cid].leaseUntil
    {
      ids := set id | id in rows && Terminal(rows[id].state) && !Pinned(claims, id, now);
    }

    method StaleStaging(before: int) returns (ids: set<string>)
      ensures ids == set id | id in rows && Stale(rows[id], before)
      ensures forall id :: id in ids <==> id in rows && rows[id].state in {Created, Uploading, Verifying} && rows[id].createdAt < before
    {
      ids := set id | id in rows && Stale(rows[id], before);
    }

    method PurgeTransfer(id: string)
      modifies this`rows, this`claims
      ensures rows == old(rows) - {id} && claims == WithoutClaims(old(claims), id)
    {
      claims := map cid | cid in claims && claims[cid].transferId != id :: claims[cid];
      rows := rows - {id};
    }

    method AllTransferIDs() returns (known: map<string, State>)
      ensures known == map id | id in rows :: rows[id].state
    {
      known := map id | id in rows :: rows[id].state;
    }

    method CreateClaim(cid: string, claim: Claim)
      modifies this`claims
      ensures claims == old(claims)[cid := claim]
    {
      claims := claims[cid := claim];
    }

    method SetLease(cid: string, until: int)
      modifies this`claims
      ensures claims == if cid in old(claims) && old(claims)[cid].completedAt.None?
                        then old(claims)[cid := old(claims)[cid].(leaseUntil := until)] else old(claims)
    {
      if cid in claims && claims[cid].completedAt.None? {
        claims := claims[cid := claims[cid].(leaseUntil := until)];
      }
    }

    method FinishClaim(cid: string, at: int)
      modifies this`claims
      ensures claims == if cid in old(claims) then old(claims)[cid := old(claims)[cid].(completedAt := Some(at))]
                        else old(claims)
    {
      if cid in claims {
        claims := claims[cid := claims[cid].(completedAt := Some(at))];
      }
    }
  }
}
