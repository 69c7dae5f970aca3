/** One cleanup pass: expire, abandon, delete, empty the trash. */
module Cleaning {
  import opened Outcomes
  import opened Protocol
  import opened Storage
  import opened Lifecycle
  import opened Safety
  import opened MetadataStore
  import opened FileLayout
  import opened Caching
  import opened Serving
  import opened Sweeping

  datatype CleanupResult = CleanupResult(expired: nat, stagingCleaned: nat, deleted: nat, trashEmptied: nat)

  // Single steps

  method StepExpire(svc: Service) returns (n: nat)
    requires svc.Valid() && svc.ready
    modifies svc, svc.store, svc.layout, svc.manifests
    ensures svc.Valid() && svc.history == old(svc.history) + [svc.Current()]
    ensures svc.Current() == OnRows(old(svc.Current()), ExpireDue(old(svc.store.rows), old(svc.now)))
    ensures n == |set id | id in old(svc.store.rows) && Due(old(svc.store.rows)[id], old(svc.now))|
  {
    hide IsRun, Coherent;
    ghost var before := svc.Current();
    n := svc.store.ExpireAllDue(svc.now);
    svc.Record(before, ExpireAll);
  }

  method StepAbandon(svc: Service, id: string)
    requires svc.Valid() && svc.ready && EnabledServe(svc.cfg, svc.Current(), id, Abandon)
    modifies svc, svc.store, svc.layout, svc.manifests
    ensures svc.Valid() && svc.history == old(svc.history) + [svc.Current()]
    ensures svc.Current() == OnRows(old(svc.Current()), WithState(old(svc.store.rows), id, Abandoned))
  {
    hide IsRun, Coherent;
    ghost var before := svc.Current();
    svc.store.SetState(id, Abandoned);
    svc.Record(before, Serve(id, Abandon));
  }

  method StepMarkDeleting(svc: Service, id: string, seen: int)
    requires svc.Valid() && svc.ready && EnabledServe(svc.cfg, svc.Current(), id, MarkDeleting(seen))
    modifies svc, svc.store, svc.layout, svc.manifests
    ensures svc.Valid() && svc.history == old(svc.history) + [svc.Current()]
    ensures svc.Current() == Enter(OnRows(old(svc.Current()), WithState(old(svc.store.rows), id, Deleting)), id, Removing(1))
  {
    hide IsRun, Coherent;
    ghost var before := svc.Current();
    svc.store.SetState(id, Deleting);
    svc.phases := svc.phases[id := Removing(1)];
    svc.Record(before, Serve(id, MarkDeleting(seen)));
  }

  method StepDropManifest(svc: Service, id: string)
    requires svc.Valid() && svc.ready && PhaseOf(svc.Current(), id) == Removing(1)
    modifies svc, svc.store, svc.layout, svc.manifests
    ensures svc.Valid() && svc.history == old(svc.history) + [svc.Current()]
    ensures svc.Current() == Enter(old(svc.Current()).(cache := old(svc.manifests.items) - {id}), id, Removing(2))
  {
    hide IsRun;
    ghost var before := svc.Current();
    svc.manifests.Drop(id);
    svc.phases := svc.phases[id := Removing(2)];
    svc.Record(before, Serve(id, DropManifest));
  }

  method StepTrashLive(svc: Service, id: string)
    requires svc.Valid() && svc.ready && PhaseOf(svc.Current(), id) == Removing(2)
    modifies svc, svc.store, svc.layout, svc.manifests
    ensures svc.Valid() && svc.history == old(svc.history) + [svc.Current()]
    ensures svc.Current() == Enter(OnDisk(old(svc.Current()), LiveToTrash(old(svc.DiskNow()), id)), id, Removing(3))
  {
    hide IsRun, Coherent;
    ghost var before := svc.Current();
    svc.layout.MoveLive(id);
    svc.phases := svc.phases[id := Removing(3)];
    svc.Record(before, Serve(id, TrashLive));
  }

  method StepTrashStaging(svc: Service, id: string)
    requires svc.Valid() && svc.ready && PhaseOf(svc.Current(), id) == Removing(3)
    modifies svc, svc.store, svc.layout, svc.manifests
    ensures svc.Valid() && svc.history == old(svc.history) + [svc.Current()]
    ensures svc.Current() == Enter(OnDisk(old(svc.Current()), StagingToTrash(old(svc.DiskNow()), id)), id, Removing(4))
  {
    hide IsRun, Coherent;
    ghost var before := svc.Current();
    svc.layout.MoveStaging(id);
    svc.phases := svc.phases[id := Removing(4)];
    svc.Record(before, Serve(id, TrashStaging));
  }

  method StepPurge(svc: Service, id: string)
    requires svc.Valid() && svc.ready && PhaseOf(svc.Current(), id) == Removing(4)
    modifies svc, svc.store, svc.layout, svc.manifests
    ensures svc.Valid() && svc.history == old(svc.history) + [svc.Current()]
    ensures svc.Current() == Enter(OnDisk(old(svc.Current()), Storage.Purge(old(svc.DiskNow()), id)), id, Idle)
  {
    hide IsRun, Coherent;
    ghost var before := svc.Current();
    svc.store.PurgeTransfer(id);
    svc.phases := svc.phases[id := Idle];
    svc.Record(before, Serve(id, PurgeRow));
  }

  // One transfer

  /** All that remains once the transfers in `gone` are deleted, the trash apart. */
  predicate Without(d: Disk, now: Disk, gone: set<string>) {
    now == Disk(d.rows - gone, ClaimsWithout(d.claims, gone), d.staging - gone, d.live - gone, now.trash)
  }

  lemma WithoutOne(d: Disk, mid: Disk, now: Disk, gone: set<string>, id: string)
    requires Without(d, mid, gone) && Without(mid, now, {id})
    ensures Without(d, now, gone + {id})
  {
    assert d.rows - gone - {id} == d.rows - (gone + {id});
    assert d.staging - gone - {id} == d.staging - (gone + {id});
    assert d.live - gone - {id} == d.live - (gone + {id});
    assert ClaimsWithout(ClaimsWithout(d.claims, gone), {id}) == ClaimsWithout(d.claims, gone + {id});
  }

  lemma WithoutNone(d: Disk)
    ensures Without(d, d, {})
  {
    assert d.rows - {} == d.rows && d.staging - {} == d.staging && d.live - {} == d.live;
    assert ClaimsWithout(d.claims, {}) == d.claims;
  }

  /** Moves the live directory into the trash, whose slot is freed first. */
  method MoveLiveAway(svc: Service, id: string)
    requires svc.Valid() && svc.ready && PhaseOf(svc.Current(), id) == Removing(2)
    modifies svc, svc.store, svc.layout, svc.manifests
    ensures svc.Valid() && old(svc.history) <= svc.history
    ensures svc.Current() == Enter(OnDisk(old(svc.Current()), svc.DiskNow()), id, Removing(3))
    ensures svc.DiskNow() == old(svc.DiskNow()).(live := old(svc.layout.live) - {id}, trash := svc.layout.trash)
  {
    hide IsRun, Coherent;
    if id in svc.layout.live && id in svc.layout.trash {
      StepClearSlot(svc, id);
    }
    StepTrashLive(svc, id);
  }

  method MoveStagingAway(svc: Service, id: string)
    requires svc.Valid() && svc.ready && PhaseOf(svc.Current(), id) == Removing(3)
    modifies svc, svc.store, svc.layout, svc.manifests
    ensures svc.Valid() && old(svc.history) <= svc.history
    ensures svc.Current() == Enter(OnDisk(old(svc.Current()), svc.DiskNow()), id, Removing(4))
    ensures svc.DiskNow() == old(svc.DiskNow()).(staging := old(svc.layout.staging) - {id}, trash := svc.layout.trash)
  {
    hide IsRun, Coherent;
    if id in svc.layout.staging && id in svc.layout.trash {
      StepClearSlot(svc, id);
    }
    StepTrashStaging(svc, id);
  }

  /** The transfers in `gone`, and nothing else, have been deleted since `s`. */
  ghost predicate DeletedSince(s: Sys, s': Sys, gone: set<string>) {
    && s' == s.(disk := s'.disk, phases := s'.phases, cache := s.cache - gone)
    && Without(s.disk, s'.disk, gone)
    && forall j :: PhaseOf(s', j) == if j in gone then Idle else PhaseOf(s, j)
  }

  lemma DeletedMore(s: Sys, mid: Sys, s': Sys, gone: set<string>, id: string)
    requires DeletedSince(s, mid, gone) && DeletedSince(mid, s', {id})
    ensures DeletedSince(s, s', gone + {id})
  {
    hide Without;
    WithoutOne(s.disk, mid.disk, s'.disk, gone, id);
    assert s.cache - gone - {id} == s.cache - (gone + {id});
  }

  lemma NothingDeleted(s: Sys)
    ensures DeletedSince(s, s, {})
  {
    hide Without;
    WithoutNone(s.disk);
    assert s.cache - {} == s.cache;
  }

  /** Marks, uncaches, trashes and purges one terminal, unpinned transfer. */
  method DeleteOne(svc: Service, id: string, seen: int)
    requires svc.Valid() && svc.ready && EnabledServe(svc.cfg, svc.Current(), id, MarkDeleting(seen))
    modifies svc, svc.store, svc.layout, svc.manifests
    ensures svc.Valid() && old(svc.history) <= svc.history
    ensures DeletedSince(old(svc.Current()), svc.Current(), {id})
  {
    hide IsRun, Coherent, EnabledServe, Without;
    ghost var d := svc.DiskNow();
    StepMarkDeleting(svc, id, seen);
    StepDropManifest(svc, id);
    MoveLiveAway(svc, id);
    MoveStagingAway(svc, id);
    StepPurge(svc, id);
    PurgedIsWithout(d, svc.DiskNow(), id);
  }

  lemma PurgedIsWithout(d: Disk, now: Disk, id: string)
    requires now.rows == WithState(d.rows, id, Deleting) - {id}
    requires now.claims == WithoutClaims(d.claims, id)
    requires now.live == d.live - {id} && now.staging == d.staging - {id}
    ensures Without(d, now, {id})
  {
    assert now.rows == d.rows - {id};
    assert now.claims == ClaimsWithout(d.claims, {id});
  }

  // Lists

  function AbandonedRows(rows: Rows, done: set<string>): Rows {
    map id | id in rows :: if id in done then rows[id].(state := Abandoned) else rows[id]
  }

  lemma AbandonOne(rows: Rows, done: set<string>, id: string)
    ensures WithState(AbandonedRows(rows, done), id, Abandoned) == AbandonedRows(rows, done + {id})
  {
  }

  function StaleRows(c: Config, rows: Rows, now: int): set<string> {
    set id | id in rows && Stale(rows[id], StagingDeadline(c, now))
  }

  lemma MarkedInTwo(c: Config, rows: Rows, now: int)
    ensures StaleRows(c, ExpireDue(rows, now), now) == StaleRows(c, rows, now)
    ensures AbandonedRows(ExpireDue(rows, now), StaleRows(c, rows, now)) == MarkedRows(c, rows, now)
    ensures AbandonedRows(ExpireDue(rows, now), {}) == ExpireDue(rows, now)
  {
  }

  /** No operation is in progress on a transfer the pass will touch. */
  ghost predicate SweepAlone(c: Config, s: Sys) {
    forall id | id in StaleRows(c, s.disk.rows, s.now) || id in Doomed(c, s.disk, s.now) :: PhaseOf(s, id).Idle?
  }

  method AbandonStale(svc: Service) returns (n: nat)
    requires svc.Valid() && svc.ready
    requires forall id | id in StaleRows(svc.cfg, svc.store.rows, svc.now) :: PhaseOf(svc.Current(), id).Idle?
    modifies svc, svc.store, svc.layout, svc.manifests
    ensures svc.Valid() && old(svc.history) <= svc.history
    ensures var stale := StaleRows(svc.cfg, old(svc.store.rows), old(svc.now));
            svc.Current() == OnRows(old(svc.Current()), AbandonedRows(old(svc.store.rows), stale)) && n == |stale|
  {
    hide IsRun, Coherent, AbandonedRows, Stale, EnabledServe;
    ghost var s0 := svc.Current();
    var todo := svc.store.StaleStaging(Unix(svc.now - svc.cfg.stagingTTLMinutes * MINUTE));
    ghost var stale, done := todo, {};
    assert stale == StaleRows(svc.cfg, s0.disk.rows, s0.now);
    n := 0;
    AbandonNone(svc.store.rows);
    while todo != {}
      invariant svc.Valid() && old(svc.history) <= svc.history
      invariant done <= stale && todo == stale - done && n == |done|
      invariant svc.Current() == OnRows(s0, AbandonedRows(s0.disk.rows, done))
      decreases |todo|
    {
      var id :| id in todo;
      StaleCanGo(svc.cfg, s0, done, id);
      StepAbandon(svc, id);
      AbandonOne(s0.disk.rows, done, id);
      assert stale - (done + {id}) == todo - {id};
      done := done + {id};
      todo := todo - {id};
      n := n + 1;
    }
    assert done == stale;
  }

  lemma AbandonNone(rows: Rows)
    ensures AbandonedRows(rows, {}) == rows
  {
  }

  lemma StaleCanGo(c: Config, s: Sys, done: set<string>, id: string)
    requires id in StaleRows(c, s.disk.rows, s.now) && id !in done && PhaseOf(s, id).Idle?
    ensures EnabledServe(c, OnRows(s, AbandonedRows(s.disk.rows, done)), id, Abandon)
  {
  }

  /** The terminal transfers no lease pins. */
  function Deletables(d: Disk, now: int): set<string> {
    set id | id in d.rows && Terminal(d.rows[id].state) && !Pinned(d.claims, id, now)
  }

  lemma DeletableLater(c: Config, s: Sys, s': Sys, gone: set<string>, id: string)
    requires id in Deletables(s.disk, s.now) && id !in gone && DeletedSince(s, s', gone) && PhaseOf(s, id).Idle?
    ensures EnabledServe(c, s', id, MarkDeleting(s.now))
  {
    hide Active;
    StillPinned(s.disk.claims, gone, id, s.now);
  }

  method DeleteUnpinned(svc: Service) returns (n: nat)
    requires svc.Valid() && svc.ready
    requires forall id | id in Deletables(svc.DiskNow(), svc.now) :: PhaseOf(svc.Current(), id).Idle?
    modifies svc, svc.store, svc.layout, svc.manifests
    ensures svc.Valid() && old(svc.history) <= svc.history
    ensures DeletedSince(old(svc.Current()), svc.Current(), Deletables(old(svc.DiskNow()), old(svc.now)))
    ensures n == |Deletables(old(svc.DiskNow()), old(svc.now))|
  {
    hide IsRun, Coherent, DeletedSince, EnabledServe, Terminal, Pinned;
    ghost var s0 := svc.Current();
    var seen := svc.now;
    var todo := svc.store.UnpinnedExpired(seen);
    ghost var all, gone := todo, {};
    assert all == Deletables(s0.disk, s0.now);
    n := 0;
    NothingDeleted(s0);
    while todo != {}
      invariant svc.Valid() && old(svc.history) <= svc.history && svc.ready
      invariant gone <= all && todo == all - gone && n == |gone|
      invariant DeletedSince(s0, svc.Current(), gone)
      decreases |todo|
    {
      var id :| id in todo;
      ghost var mid := svc.Current();
      DeletableLater(svc.cfg, s0, mid, gone, id);
      DeleteOne(svc, id, seen);
      DeletedMore(s0, mid, svc.Current(), gone, id);
      StillUp(mid, svc.Current(), {id});
      assert all - (gone + {id}) == todo - {id};
      gone := gone + {id};
      todo := todo - {id};
      n := n + 1;
    }
    assert gone == all;
  }

  lemma StillUp(s: Sys, s': Sys, gone: set<string>)
    requires DeletedSince(s, s', gone)
    ensures s'.up == s.up
  {
  }

  lemma DoomedAreDeletable(c: Config, d: Disk, now: int)
    ensures Deletables(d.(rows := MarkedRows(c, d.rows, now)), now) == Doomed(c, d, now)
  {
  }

  lemma SweptInSteps(c: Config, d: Disk, end: Disk, now: int)
    requires Without(d.(rows := MarkedRows(c, d.rows, now)), end, Doomed(c, d, now))
    ensures end.(trash := map[]) == Swept(c, d, now)
  {
  }

  /** One pass, at one reading of the clock. */
  method Sweep(svc: Service) returns (r: CleanupResult)
    requires svc.Valid() && svc.ready && SweepAlone(svc.cfg, svc.Current())
    modifies svc, svc.store, svc.layout, svc.manifests
    ensures svc.Valid() && old(svc.history) <= svc.history && svc.ready && svc.now == old(svc.now)
    ensures svc.DiskNow() == Swept(svc.cfg, old(svc.DiskNow()), svc.now)
    ensures forall id :: AfterSweep(svc.cfg, old(svc.DiskNow()), svc.DiskNow(), id, svc.now)
    ensures svc.manifests.items == old(svc.manifests.items) - Doomed(svc.cfg, old(svc.DiskNow()), svc.now)
    ensures r.expired == |set id | id in old(svc.store.rows) && Due(old(svc.store.rows)[id], svc.now)|
    ensures r.stagingCleaned == |StaleRows(svc.cfg, old(svc.store.rows), svc.now)|
    ensures r.deleted == |Doomed(svc.cfg, old(svc.DiskNow()), svc.now)|
  {
    hide IsRun, Coherent, Without, ExpireDue, AbandonedRows, MarkedRows, StaleRows, Deletables, Doomed, Swept, Due, AfterSweep;
    ghost var d := svc.DiskNow();
    MarkedInTwo(svc.cfg, svc.store.rows, svc.now);
    DoomedAreDeletable(svc.cfg, d, svc.now);
    var expired := StepExpire(svc);
    var stagingCleaned := AbandonStale(svc);
    var deleted := DeleteUnpinned(svc);
    SweptInSteps(svc.cfg, d, svc.DiskNow(), svc.now);
    var emptied := StepEmptyTrash(svc);
    SweptInNumbers(svc.cfg, d, svc.now);
    r := CleanupResult(expired, stagingCleaned, deleted, emptied);
  }
}
