/** The startup pass over rows and directories. */
module Reconciling {
  import opened Outcomes
  import opened Protocol
  import opened Validation
  import opened Storage
  import opened Lifecycle
  import opened Safety
  import opened MetadataStore
  import opened FileLayout
  import opened Caching
  import opened Serving
  import opened Recovery
  import opened Allocation

  datatype Report = Report(completedCommits: nat, failedTransfers: nat, orphanLive: nat, orphanStaging: nat,
                           finishedDeletes: nat)

  predicate CanRecover(c: Config, s: Sys, id: string, a: RecoverAction) {
    Enabled(c, s, Recover(id, a))
  }

  // Single steps

  method StepComplete(svc: Service, id: string, codes: seq<string>) returns (p: Publication)
    requires svc.Valid() && CanRecover(svc.cfg, svc.Current(), id, RecoverComplete(codes)) && |codes| == MAX_CODE_DRAWS
    modifies svc, svc.store, svc.layout, svc.manifests
    ensures svc.Valid() && svc.history == old(svc.history) + [svc.Current()]
    ensures SameMemory(old(svc.Current()), svc.Current())
    ensures id in old(svc.store.rows) && id in svc.layout.live && svc.layout.live[id].manifest.Some?
    ensures var m := svc.layout.live[id].manifest.value;
            p == Publish(old(svc.store.rows), id, Unix(old(svc.now)), EffectiveTTL(svc.cfg, old(svc.store.rows)[id].ttl),
                         m, TotalBytes(m.entries), codes)
    ensures svc.DiskNow() == old(svc.DiskNow()).(rows := AfterPublish(old(svc.store.rows), id, p))
  {
    hide IsRun, LivePayloadValid, Publish, TotalBytes, Coherent;
    ghost var before := svc.Current();
    var t := svc.store.GetTransfer(id);
    LiveManifest(before, id);
    var m := svc.layout.live[id].manifest.value;
    var ttl := t.value.ttl;
    if ttl == 0 {
      ttl := svc.cfg.defaultTTL;
    }
    var bytes := CountBytes(m);
    p := svc.store.PublishTransfer(id, svc.now, ttl, m, bytes, codes);
    svc.Record(before, Recover(id, RecoverComplete(codes)));
  }

  lemma LiveManifest(s: Sys, id: string)
    requires LooksLive(s, id)
    ensures s.disk.live[id].manifest.Some?
  {
  }

  method StepFail(svc: Service, id: string)
    requires svc.Valid() && CanRecover(svc.cfg, svc.Current(), id, RecoverFail)
    modifies svc, svc.store, svc.layout, svc.manifests
    ensures svc.Valid() && svc.history == old(svc.history) + [svc.Current()]
    ensures SameMemory(old(svc.Current()), svc.Current())
    ensures svc.DiskNow() == old(svc.DiskNow()).(rows := WithFailure(old(svc.store.rows), id, InternalError))
  {
    hide IsRun, LivePayloadValid, Coherent;
    ghost var before := svc.Current();
    svc.store.Fail(id, InternalError);
    svc.Record(before, Recover(id, RecoverFail));
  }

  method StepTrashLive(svc: Service, id: string)
    requires svc.Valid() && CanRecover(svc.cfg, svc.Current(), id, RecoverTrashLive)
    modifies svc, svc.store, svc.layout, svc.manifests
    ensures svc.Valid() && svc.history == old(svc.history) + [svc.Current()]
    ensures SameMemory(old(svc.Current()), svc.Current())
    ensures svc.DiskNow() == LiveToTrash(old(svc.DiskNow()), id)
  {
    hide IsRun, LivePayloadValid, Coherent;
    ghost var before := svc.Current();
    svc.layout.MoveLive(id);
    svc.Record(before, Recover(id, RecoverTrashLive));
  }

  method StepTrashStaging(svc: Service, id: string)
    requires svc.Valid() && CanRecover(svc.cfg, svc.Current(), id, RecoverTrashStaging)
    modifies svc, svc.store, svc.layout, svc.manifests
    ensures svc.Valid() && svc.history == old(svc.history) + [svc.Current()]
    ensures SameMemory(old(svc.Current()), svc.Current())
    ensures svc.DiskNow() == StagingToTrash(old(svc.DiskNow()), id)
  {
    hide IsRun, LivePayloadValid, Coherent;
    ghost var before := svc.Current();
    svc.layout.MoveStaging(id);
    svc.Record(before, Recover(id, RecoverTrashStaging));
  }

  method StepPurge(svc: Service, id: string)
    requires svc.Valid() && CanRecover(svc.cfg, svc.Current(), id, RecoverPurge)
    modifies svc, svc.store, svc.layout, svc.manifests
    ensures svc.Valid() && svc.history == old(svc.history) + [svc.Current()]
    ensures SameMemory(old(svc.Current()), svc.Current())
    ensures svc.DiskNow() == Storage.Purge(old(svc.DiskNow()), id)
  {
    hide IsRun, LivePayloadValid, Coherent;
    ghost var before := svc.Current();
    svc.store.PurgeTransfer(id);
    svc.Record(before, Recover(id, RecoverPurge));
  }

  method StepRemoveStaging(svc: Service, id: string)
    requires svc.Valid() && CanRecover(svc.cfg, svc.Current(), id, RecoverRemoveStaging)
    modifies svc, svc.store, svc.layout, svc.manifests
    ensures svc.Valid() && svc.history == old(svc.history) + [svc.Current()]
    ensures SameMemory(old(svc.Current()), svc.Current())
    ensures svc.DiskNow() == old(svc.DiskNow()).(staging := old(svc.layout.staging) - {id})
  {
    hide IsRun, LivePayloadValid, Coherent;
    ghost var before := svc.Current();
    svc.layout.RemoveStaging(id);
    svc.Record(before, Recover(id, RecoverRemoveStaging));
  }

  // One transfer

  /** Only this transfer's rows, claims and directories changed, the trash apart. */
  ghost predicate OnlySlice(d: Disk, d': Disk, id: string) {
    forall j | j != id :: SliceOf(d', j) == SliceOf(d, j)
  }

  /** Moves both directories of a transfer into the trash. */
  method ToTrash(svc: Service, id: string)
    requires svc.Valid() && !svc.ready && Discardable(svc.Current(), id)
    modifies svc, svc.store, svc.layout, svc.manifests
    ensures svc.Valid() && old(svc.history) <= svc.history
    ensures SameMemory(old(svc.Current()), svc.Current())
    ensures svc.DiskNow() == old(svc.DiskNow()).(live := old(svc.layout.live) - {id}, staging := old(svc.layout.staging) - {id},
                                                 trash := svc.layout.trash)
    ensures Discardable(svc.Current(), id)
  {
    hide IsRun, LivePayloadValid, Coherent;
    if id in svc.layout.live {
      if id in svc.layout.trash {
        StepClearSlot(svc, id);
      }
      StepTrashLive(svc, id);
    }
    if id in svc.layout.staging {
      if id in svc.layout.trash {
        StepClearSlot(svc, id);
      }
      StepTrashStaging(svc, id);
    }
  }

  /** Reads the live manifest back, revalidates it and stats every entry. */
  method CheckLive(layout: Layout, id: string) returns (ok: bool)
    ensures ok <==> LiveOK(Get(layout.live, id))
  {
    hide Valid;
    if id !in layout.live || layout.live[id].manifest.None? {
      return false;
    }
    var m := layout.live[id].manifest.value;
    var payload := layout.live[id].payload;
    var err := Validate(m);
    if err.Some? {
      return false;
    }
    for i := 0 to |m.entries|
      invariant forall j | 0 <= j < i :: LooksPresent(payload, m.entries[j])
    {
      if !LooksPresent(payload, m.entries[i]) {
        return false;
      }
    }
    ok := true;
  }

  datatype Outcome = Untouched | Completed | Refusal | FailedTransfer | FinishedDelete

  /** What one visit did, read off the slice it found. */
  predicate OutcomeOf(x: Slice, o: Outcome) {
    && (o.Completed? || o.Refusal? <==> Interrupted(x))
    && (o.FinishedDelete? <==> x.row.Some? && x.row.value.state.Deleting?)
    && (o.FailedTransfer? <==> Fails(x))
  }

  /** The pass counts this transfer as failed. */
  predicate Fails(x: Slice) {
    && x.row.Some? && !Interrupted(x)
    && (x.row.value.state.Verifying? || (PreCommit(x.row.value.state) && x.staging.None?)
        || (x.row.value.state.Committed? && !LiveOK(x.live)))
  }

  /** A committed row without usable bytes, or a deletion cut short, goes entirely. */
  method Discard(svc: Service, id: string)
    requires svc.Valid() && !svc.ready && id in svc.store.rows && Purged(SliceOf(svc.DiskNow(), id))
    modifies svc, svc.store, svc.layout, svc.manifests
    ensures svc.Valid() && old(svc.history) <= svc.history && SameMemory(old(svc.Current()), svc.Current())
    ensures OnlySlice(old(svc.DiskNow()), svc.DiskNow(), id)
    ensures SliceOf(svc.DiskNow(), id) == GONE
    ensures svc.store.claims == WithoutClaims(old(svc.store.claims), id) && svc.store.rows == old(svc.store.rows) - {id}
  {
    hide IsRun, LivePayloadValid, Coherent;
    ToTrash(svc, id);
    StepPurge(svc, id);
  }

  /** Materialization was interrupted: its staged segments are already consumed. */
  method FailVerifying(svc: Service, id: string)
    requires svc.Valid() && !svc.ready && RowIn(svc.Current(), id, Verifying) && !LooksLive(svc.Current(), id)
    modifies svc, svc.store, svc.layout, svc.manifests
    ensures svc.Valid() && old(svc.history) <= svc.history && SameMemory(old(svc.Current()), svc.Current())
    ensures OnlySlice(old(svc.DiskNow()), svc.DiskNow(), id)
    ensures SliceOf(svc.DiskNow(), id) == Slice(Some(FailedRow(old(svc.store.rows)[id])), None, None)
    ensures svc.store.claims == old(svc.store.claims)
    ensures svc.store.rows == old(svc.store.rows)[id := FailedRow(old(svc.store.rows)[id])]
  {
    hide IsRun, LivePayloadValid, Coherent;
    StepFail(svc, id);
    ToTrash(svc, id);
  }

  method RecoverOne(svc: Service, id: string, state: State, codes: seq<string>) returns (o: Outcome)
    requires svc.Valid() && !svc.ready && |codes| == MAX_CODE_DRAWS
    requires RowIn(svc.Current(), id, state)
    modifies svc, svc.store, svc.layout, svc.manifests
    ensures svc.Valid() && old(svc.history) <= svc.history && SameMemory(old(svc.Current()), svc.Current())
    ensures OnlySlice(old(svc.DiskNow()), svc.DiskNow(), id)
    ensures Settles(svc.cfg, SliceOf(old(svc.DiskNow()), id), SliceOf(svc.DiskNow(), id), Unix(svc.now), o.Refusal?)
    ensures AfterLoss(old(svc.DiskNow()), svc.DiskNow(), id)
    ensures FinishedInTime(svc.cfg, old(svc.DiskNow()), svc.DiskNow(), id, svc.now / 1_000_000_000)
    ensures OutcomeOf(SliceOf(old(svc.DiskNow()), id), o)
    ensures o.Refusal? ==> Interrupted(SliceOf(old(svc.DiskNow()), id))
    ensures svc.store.claims == if Purged(SliceOf(old(svc.DiskNow()), id)) then WithoutClaims(old(svc.store.claims), id)
                                else old(svc.store.claims)
    ensures svc.store.rows == VisitedRow(svc.cfg, old(svc.store.rows), SliceOf(old(svc.DiskNow()), id), id, codes, Unix(svc.now))
    ensures o.Refusal? <==> RefusedAt(svc.cfg, old(svc.store.rows), SliceOf(old(svc.DiskNow()), id), id, codes, Unix(svc.now))
    ensures o.Refusal? ==> svc.store.rows == old(svc.store.rows)
                           && (svc.store.rows[id].code.Some? || forall k | 0 <= k < |codes| :: CodeTaken(svc.store.rows, codes[k]))
  {
    hide IsRun, LivePayloadValid, Coherent, TotalBytes, FirstFree, CodeTaken, AfterLoss, FinishedInTime;
    ghost var d := svc.DiskNow();
    o := Untouched;
    var liveOK := CheckLive(svc.layout, id);
    if state.Committed? {
      if !liveOK {
        Discard(svc, id);
        o := FailedTransfer;
      }
    } else if PreCommit(state) {
      if liveOK {
        var p := StepComplete(svc, id, codes);
        o := if p.Published? then Completed else Refusal;
      } else if state.Verifying? {
        FailVerifying(svc, id);
        o := FailedTransfer;
      } else if id !in svc.layout.staging {
        StepFail(svc, id);
        o := FailedTransfer;
      }
    } else if state.Deleting? {
      Discard(svc, id);
      o := FinishedDelete;
    }
    LossIsNoticed(svc.cfg, d, svc.DiskNow(), id, Unix(svc.now), o.Refusal?);
    FinishKeepsTime(svc.cfg, d, svc.DiskNow(), id, Unix(svc.now), o.Refusal?);
  }

  // All transfers

  /** Where the pass stands with `todo` still to visit: visited rows are settled,
      everything else is as it was. */
  ghost predicate Visited(c: Config, d: Disk, now: Disk, todo: set<string>, at: int, refused: set<string>) {
    && todo <= d.rows.Keys && refused <= d.rows.Keys - todo
    && (forall id | id in d.rows.Keys - todo :: Settles(c, SliceOf(d, id), SliceOf(now, id), at, id in refused))
    && (forall id | id !in d.rows.Keys - todo :: SliceOf(now, id) == SliceOf(d, id))
    && (forall id | id in refused :: Interrupted(SliceOf(d, id)))
    && now.claims == KeptClaims(d, d.rows.Keys - todo)
  }

  /** Every code drawn for a refused commit was carried by some row of the database. */
  ghost predicate NoFreeDraw(d: Disk, now: Disk, done: set<string>, draws: seq<string>) {
    forall k | 0 <= k < |draws| ::
      CodeTaken(d.rows, draws[k]) || exists id | id in done :: id in now.rows && now.rows[id].code == Some(draws[k])
  }

  ghost predicate RefusalsExplained(d: Disk, now: Disk, done: set<string>, refused: set<string>, draws: string -> seq<string>) {
    forall id | id in refused :: id in d.rows && (d.rows[id].code.Some? || NoFreeDraw(d, now, done, draws(id)))
  }

  lemma VisitOne(c: Config, d: Disk, mid: Disk, now: Disk, todo: set<string>, id: string, at: int, refused: set<string>, refusal: bool)
    requires Visited(c, d, mid, todo, at, refused) && id in todo
    requires OnlySlice(mid, now, id) && Settles(c, SliceOf(mid, id), SliceOf(now, id), at, refusal)
    requires refusal ==> Interrupted(SliceOf(mid, id))
    requires now.claims == if Purged(SliceOf(mid, id)) then WithoutClaims(mid.claims, id) else mid.claims
    ensures Visited(c, d, now, todo - {id}, at, if refusal then refused + {id} else refused)
  {
    hide Settles, SliceOf, Interrupted, Purged;
    var done := d.rows.Keys - todo;
    assert d.rows.Keys - (todo - {id}) == done + {id};
    assert KeptClaims(d, done + {id}) == if Purged(SliceOf(d, id)) then WithoutClaims(KeptClaims(d, done), id) else KeptClaims(d, done);
  }

  lemma ExplainOne(d: Disk, mid: Disk, now: Disk, done: set<string>, id: string, refused: set<string>, draws: string -> seq<string>)
    requires RefusalsExplained(d, mid, done, refused, draws) && id !in done && OnlySlice(mid, now, id)
    ensures RefusalsExplained(d, now, done + {id}, refused, draws)
  {
    hide CodeTaken;
    forall k | k in refused && d.rows[k].code.None?
      ensures NoFreeDraw(d, now, done + {id}, draws(k))
    {
      forall n | 0 <= n < |draws(k)| && !CodeTaken(d.rows, draws(k)[n])
        ensures exists j | j in done + {id} :: j in now.rows && now.rows[j].code == Some(draws(k)[n])
      {
        assert NoFreeDraw(d, mid, done, draws(k));
        var j :| j in done && j in mid.rows && mid.rows[j].code == Some(draws(k)[n]);
        assert SliceOf(now, j) == SliceOf(mid, j);
        assert j in done + {id};
      }
    }
  }

  /** A refused commit met only codes of rows already settled or not yet visited. */
  lemma ExplainRefusal(c: Config, d: Disk, mid: Disk, todo: set<string>, id: string, at: int, refused: set<string>, codes: seq<string>)
    requires Visited(c, d, mid, todo, at, refused) && id in todo && id in mid.rows
    requires mid.rows[id].code.Some? || forall k | 0 <= k < |codes| :: CodeTaken(mid.rows, codes[k])
    ensures id in d.rows && (d.rows[id].code.Some? || NoFreeDraw(d, mid, d.rows.Keys - todo, codes))
  {
    hide Settles, Interrupted;
    assert SliceOf(mid, id) == SliceOf(d, id);
    var done := d.rows.Keys - todo;
    if d.rows[id].code.None? {
      forall k | 0 <= k < |codes| && !CodeTaken(d.rows, codes[k])
        ensures exists j | j in done :: j in mid.rows && mid.rows[j].code == Some(codes[k])
      {
        var j :| j in mid.rows && mid.rows[j].code == Some(codes[k]);
        assert j !in done ==> SliceOf(mid, j) == SliceOf(d, j);
      }
    }
  }

  function CountFinished(r: Report, o: Outcome): Report {
    match o
    case Completed => r.(completedCommits := r.completedCommits + 1)
    case FailedTransfer => r.(failedTransfers := r.failedTransfers + 1)
    case FinishedDelete => r.(finishedDeletes := r.finishedDeletes + 1)
    case _ => r
  }

  function CompletedIn(d: Disk, done: set<string>, refused: set<string>): set<string> {
    set id | id in done && Interrupted(SliceOf(d, id)) && id !in refused
  }

  function FailedIn(d: Disk, done: set<string>): set<string> {
    set id | id in done && Fails(SliceOf(d, id))
  }

  function DeletedIn(d: Disk, done: set<string>): set<string> {
    set id | id in done && id in d.rows && d.rows[id].state.Deleting?
  }

  predicate Counted(d: Disk, done: set<string>, refused: set<string>, r: Report) {
    && r.completedCommits == |CompletedIn(d, done, refused)|
    && r.failedTransfers == |FailedIn(d, done)|
    && r.finishedDeletes == |DeletedIn(d, done)|
  }

  lemma CompletedGrows(d: Disk, done: set<string>, refused: set<string>, id: string, o: Outcome)
    requires id !in done && refused <= done && OutcomeOf(SliceOf(d, id), o)
    ensures |CompletedIn(d, done + {id}, if o.Refusal? then refused + {id} else refused)|
            == |CompletedIn(d, done, refused)| + (if o.Completed? then 1 else 0)
  {
    hide Interrupted, Fails, SliceOf;
    assert CompletedIn(d, done + {id}, if o.Refusal? then refused + {id} else refused) ==
           if o.Completed? then CompletedIn(d, done, refused) + {id} else CompletedIn(d, done, refused);
  }

  lemma FailedGrows(d: Disk, done: set<string>, id: string, o: Outcome)
    requires id !in done && OutcomeOf(SliceOf(d, id), o)
    ensures |FailedIn(d, done + {id})| == |FailedIn(d, done)| + (if o.FailedTransfer? then 1 else 0)
  {
    hide Interrupted, Fails, SliceOf;
    assert FailedIn(d, done + {id}) == if o.FailedTransfer? then FailedIn(d, done) + {id} else FailedIn(d, done);
  }

  lemma DeletedGrows(d: Disk, done: set<string>, id: string, o: Outcome)
    requires id !in done && OutcomeOf(SliceOf(d, id), o)
    ensures |DeletedIn(d, done + {id})| == |DeletedIn(d, done)| + (if o.FinishedDelete? then 1 else 0)
  {
    hide Interrupted, Fails;
    assert DeletedIn(d, done + {id}) == if o.FinishedDelete? then DeletedIn(d, done) + {id} else DeletedIn(d, done);
  }

  lemma CountOne(d: Disk, done: set<string>, refused: set<string>, r: Report, id: string, o: Outcome)
    requires Counted(d, done, refused, r) && id !in done && refused <= done && OutcomeOf(SliceOf(d, id), o)
    ensures Counted(d, done + {id}, if o.Refusal? then refused + {id} else refused, CountFinished(r, o))
  {
    hide OutcomeOf, CompletedIn, FailedIn, DeletedIn, SliceOf;
    CompletedGrows(d, done, refused, id, o);
    FailedGrows(d, done, id, o);
    DeletedGrows(d, done, id, o);
  }

  /** Visits every known row, in any order. */
  method VisitRows(svc: Service, known: map<string, State>, draws: string -> seq<string>)
    returns (rep: Report, refused: set<string>, ghost order: seq<string>)
    requires svc.Valid() && !svc.ready && (forall id :: |draws(id)| == MAX_CODE_DRAWS)
    requires known == map id | id in svc.store.rows :: svc.store.rows[id].state
    modifies svc, svc.store, svc.layout, svc.manifests
    ensures svc.Valid() && old(svc.history) <= svc.history && SameMemory(old(svc.Current()), svc.Current())
    ensures Visited(svc.cfg, old(svc.DiskNow()), svc.DiskNow(), {}, Unix(svc.now), refused)
    ensures RefusalsExplained(old(svc.DiskNow()), svc.DiskNow(), known.Keys, refused, draws)
    ensures Counted(old(svc.DiskNow()), known.Keys, refused, rep) && rep.orphanLive == rep.orphanStaging == 0
    ensures VisitsAll(order, known.Keys)
    ensures svc.store.rows == RowsAfter(svc.cfg, old(svc.DiskNow()), order, draws, Unix(svc.now))
    ensures refused == RefusedAfter(svc.cfg, old(svc.DiskNow()), order, draws, Unix(svc.now))
  {
    hide IsRun, Settles, Interrupted, Purged, Coherent, Visited, OnlySlice, Counted, OutcomeOf, RefusalsExplained, SliceOf, Trail, RowsAfter, RefusedAfter;
    hide VisitedRow, RefusedAt, Visits;
    rep, refused, order := Report(0, 0, 0, 0, 0), {}, [];
    var todo := known.Keys;
    ghost var d := svc.DiskNow();
    assert known.Keys == d.rows.Keys && known.Keys - todo == {};
    StartVisit(svc.cfg, d, Unix(svc.now), draws);
    TrailStarts(svc.cfg, d, draws, Unix(svc.now));
    while todo != {}
      invariant svc.Valid() && old(svc.history) <= svc.history && SameMemory(old(svc.Current()), svc.Current())
      invariant todo <= known.Keys && refused <= known.Keys - todo
      invariant Visited(svc.cfg, d, svc.DiskNow(), todo, Unix(svc.now), refused)
      invariant RefusalsExplained(d, svc.DiskNow(), known.Keys - todo, refused, draws)
      invariant Counted(d, known.Keys - todo, refused, rep) && rep.orphanLive == rep.orphanStaging == 0
      invariant Trail(svc.cfg, d, svc.store.rows, known.Keys, todo, order, draws, Unix(svc.now), refused)
    {
      var id :| id in todo;
      ghost var mid := svc.DiskNow();
      ghost var done := known.Keys - todo;
      StillAsFound(svc.cfg, d, mid, todo, id, Unix(svc.now), refused);
      var o := RecoverOne(svc, id, known[id], draws(id));
      VisitOne(svc.cfg, d, mid, svc.DiskNow(), todo, id, Unix(svc.now), refused, o.Refusal?);
      CountOne(d, done, refused, rep, id, o);
      ExplainOne(d, mid, svc.DiskNow(), done, id, refused, draws);
      TrailOn(svc.cfg, d, mid, svc.store.rows, known.Keys, todo, order, draws, Unix(svc.now), refused, id, o.Refusal?);
      order := order + [id];
      if o.Refusal? {
        ExplainRefusal(svc.cfg, d, mid, todo, id, Unix(svc.now), refused, draws(id));
        ExplainMore(d, mid, svc.DiskNow(), done, id, refused, draws);
        refused := refused + {id};
      }
      rep := CountFinished(rep, o);
      todo := todo - {id};
      assert known.Keys - todo == done + {id};
    }
    assert known.Keys - todo == known.Keys;
    TrailEnds(svc.cfg, d, svc.store.rows, known.Keys, order, draws, Unix(svc.now), refused);
  }

  /** The visits so far, in order, explain the rows and the refusals. */
  ghost predicate Trail(c: Config, d: Disk, rows: Rows, known: set<string>, todo: set<string>, order: seq<string>,
                        draws: string -> seq<string>, at: int, refused: set<string>) {
    && Visits(order, known)
    && (forall id | id in known :: id in order <==> id !in todo)
    && rows == RowsAfter(c, d, order, draws, at)
    && refused == RefusedAfter(c, d, order, draws, at)
  }

  lemma TrailOn(c: Config, d: Disk, mid: Disk, rows: Rows, known: set<string>, todo: set<string>, order: seq<string>,
                draws: string -> seq<string>, at: int, refused: set<string>, id: string, refusal: bool)
    requires Trail(c, d, mid.rows, known, todo, order, draws, at, refused) && id in todo && id in known
    requires SliceOf(mid, id) == SliceOf(d, id)
    requires rows == VisitedRow(c, mid.rows, SliceOf(mid, id), id, draws(id), at)
    requires refusal <==> RefusedAt(c, mid.rows, SliceOf(mid, id), id, draws(id), at)
    ensures Trail(c, d, rows, known, todo - {id}, order + [id], draws, at, if refusal then refused + {id} else refused)
  {
    hide VisitedRow, RefusedAt, SliceOf;
    var longer := order + [id];
    assert longer[..|longer| - 1] == order;
  }

  lemma TrailEnds(c: Config, d: Disk, rows: Rows, known: set<string>, order: seq<string>, draws: string -> seq<string>, at: int, refused: set<string>)
    requires Trail(c, d, rows, known, {}, order, draws, at, refused)
    ensures VisitsAll(order, known) && rows == RowsAfter(c, d, order, draws, at) && refused == RefusedAfter(c, d, order, draws, at)
  {
  }

  lemma TrailStarts(c: Config, d: Disk, draws: string -> seq<string>, at: int)
    ensures Trail(c, d, d.rows, d.rows.Keys, d.rows.Keys, [], draws, at, {})
  {
  }

  lemma StartVisit(c: Config, d: Disk, at: int, draws: string -> seq<string>)
    ensures Visited(c, d, d, d.rows.Keys, at, {})
    ensures RefusalsExplained(d, d, {}, {}, draws)
    ensures Counted(d, {}, {}, Report(0, 0, 0, 0, 0))
  {
    hide Settles, Purged;
    assert d.rows.Keys - d.rows.Keys == {};
    assert KeptClaims(d, {}) == d.claims;
    assert CompletedIn(d, {}, {}) == {} && FailedIn(d, {}) == {} && DeletedIn(d, {}) == {};
  }

  lemma StillAsFound(c: Config, d: Disk, mid: Disk, todo: set<string>, id: string, at: int, refused: set<string>)
    requires Visited(c, d, mid, todo, at, refused) && id in todo
    ensures SliceOf(mid, id) == SliceOf(d, id) && id in d.rows && id in mid.rows && mid.rows[id] == d.rows[id]
  {
    hide Settles, Interrupted, Purged;
  }

  lemma ExplainMore(d: Disk, mid: Disk, now: Disk, done: set<string>, id: string, refused: set<string>, draws: string -> seq<string>)
    requires RefusalsExplained(d, now, done + {id}, refused, draws)
    requires now.rows == mid.rows && id in d.rows
    requires d.rows[id].code.Some? || NoFreeDraw(d, mid, done, draws(id))
    ensures RefusalsExplained(d, now, done + {id}, refused + {id}, draws)
  {
    hide CodeTaken;
    if d.rows[id].code.None? {
      forall n | 0 <= n < |draws(id)| && !CodeTaken(d.rows, draws(id)[n])
        ensures exists j | j in done + {id} :: j in now.rows && now.rows[j].code == Some(draws(id)[n])
      {
        var j :| j in done && j in mid.rows && mid.rows[j].code == Some(draws(id)[n]);
        assert j in done + {id};
      }
    }
  }

  // Directories without a row

  /** The directories of `gone` have left live and staging. */
  predicate BothDropped(d: Disk, now: Disk, gone: set<string>) {
    now == d.(live := d.live - gone, staging := d.staging - gone, trash := now.trash)
  }

  predicate StagingDropped(d: Disk, now: Disk, gone: set<string>) {
    now == d.(staging := d.staging - gone)
  }

  lemma DropBoth(d: Disk, mid: Disk, now: Disk, gone: set<string>, id: string)
    requires BothDropped(d, mid, gone)
    requires now == mid.(live := mid.live - {id}, staging := mid.staging - {id}, trash := now.trash)
    ensures BothDropped(d, now, gone + {id})
  {
    assert d.live - gone - {id} == d.live - (gone + {id});
    assert d.staging - gone - {id} == d.staging - (gone + {id});
  }

  lemma DropStaging(d: Disk, mid: Disk, now: Disk, gone: set<string>, id: string)
    requires StagingDropped(d, mid, gone)
    requires now == mid.(staging := mid.staging - {id})
    ensures StagingDropped(d, now, gone + {id})
  {
    assert d.staging - gone - {id} == d.staging - (gone + {id});
  }

  lemma DropNothing(d: Disk)
    ensures BothDropped(d, d, {}) && StagingDropped(d, d, {})
  {
    assert d.live - {} == d.live && d.staging - {} == d.staging;
  }

  method DropOneLive(svc: Service, id: string, ghost s0: Sys, ghost gone: set<string>)
    requires svc.Valid() && !svc.ready && SameMemory(s0, svc.Current()) && BothDropped(s0.disk, svc.DiskNow(), gone)
    requires id !in s0.disk.rows
    modifies svc, svc.store, svc.layout, svc.manifests
    ensures svc.Valid() && !svc.ready && old(svc.history) <= svc.history
    ensures SameMemory(s0, svc.Current()) && BothDropped(s0.disk, svc.DiskNow(), gone + {id})
  {
    hide IsRun, Coherent, Discardable;
    ghost var mid := svc.DiskNow();
    UnknownDiscardable(svc.Current(), id);
    ToTrash(svc, id);
    DropBoth(s0.disk, mid, svc.DiskNow(), gone, id);
  }

  method DropOneStaging(svc: Service, id: string, ghost s0: Sys, ghost gone: set<string>)
    requires svc.Valid() && !svc.ready && SameMemory(s0, svc.Current()) && StagingDropped(s0.disk, svc.DiskNow(), gone)
    requires id !in s0.disk.rows
    modifies svc, svc.store, svc.layout, svc.manifests
    ensures svc.Valid() && !svc.ready && old(svc.history) <= svc.history
    ensures SameMemory(s0, svc.Current()) && StagingDropped(s0.disk, svc.DiskNow(), gone + {id})
  {
    hide IsRun, Coherent, CanRecover, Inv;
    ghost var mid := svc.DiskNow();
    UnknownRemovable(svc.cfg, svc.Current(), id);
    StepRemoveStaging(svc, id);
    DropStaging(s0.disk, mid, svc.DiskNow(), gone, id);
  }

  lemma OneFewer(all: set<string>, gone: set<string>, todo: set<string>, id: string)
    requires gone <= all && todo == all - gone && id in todo
    ensures gone + {id} <= all && todo - {id} == all - (gone + {id}) && |gone + {id}| == |gone| + 1
  {
  }

  /** Live directories nobody knows, in any order; their staging goes with them. */
  method DropOrphanLive(svc: Service, known: set<string>) returns (dropped: nat)
    requires svc.Valid() && !svc.ready && svc.store.rows.Keys <= known
    modifies svc, svc.store, svc.layout, svc.manifests
    ensures svc.Valid() && old(svc.history) <= svc.history && SameMemory(old(svc.Current()), svc.Current())
    ensures BothDropped(old(svc.DiskNow()), svc.DiskNow(), old(svc.layout.live).Keys - known)
    ensures dropped == |old(svc.layout.live).Keys - known|
  {
    hide IsRun, Coherent, BothDropped, SameMemory;
    dropped := 0;
    ghost var s0 := svc.Current();
    var todo := svc.layout.live.Keys - known;
    ghost var orphans, gone := todo, {};
    DropNothing(s0.disk);
    SameAsItself(s0);
    while todo != {}
      invariant svc.Valid() && !svc.ready && old(svc.history) <= svc.history && SameMemory(s0, svc.Current())
      invariant gone <= orphans && todo == orphans - gone && dropped == |gone|
      invariant BothDropped(s0.disk, svc.DiskNow(), gone)
      decreases |todo|
    {
      var id :| id in todo;
      DropOneLive(svc, id, s0, gone);
      OneFewer(orphans, gone, todo, id);
      gone := gone + {id};
      todo := todo - {id};
      dropped := dropped + 1;
    }
    assert gone == orphans;
  }

  lemma SameAsItself(s: Sys)
    ensures SameMemory(s, s)
  {
  }

  lemma UnknownDiscardable(s: Sys, id: string)
    requires id !in s.disk.rows
    ensures Discardable(s, id)
  {
  }

  lemma UnknownRemovable(c: Config, s: Sys, id: string)
    requires id !in s.disk.rows && !s.up
    ensures CanRecover(c, s, id, RecoverRemoveStaging)
  {
  }

  method DropOrphanStaging(svc: Service, known: set<string>) returns (dropped: nat)
    requires svc.Valid() && !svc.ready && svc.store.rows.Keys <= known
    modifies svc, svc.store, svc.layout, svc.manifests
    ensures svc.Valid() && old(svc.history) <= svc.history && SameMemory(old(svc.Current()), svc.Current())
    ensures StagingDropped(old(svc.DiskNow()), svc.DiskNow(), old(svc.layout.staging).Keys - known)
    ensures dropped == |old(svc.layout.staging).Keys - known|
  {
    hide IsRun, Coherent, StagingDropped, SameMemory;
    dropped := 0;
    ghost var s0 := svc.Current();
    var todo := svc.layout.staging.Keys - known;
    ghost var orphans, gone := todo, {};
    DropNothing(s0.disk);
    SameAsItself(s0);
    while todo != {}
      invariant svc.Valid() && !svc.ready && old(svc.history) <= svc.history && SameMemory(s0, svc.Current())
      invariant gone <= orphans && todo == orphans - gone && dropped == |gone|
      invariant StagingDropped(s0.disk, svc.DiskNow(), gone)
      decreases |todo|
    {
      var id :| id in todo;
      DropOneStaging(svc, id, s0, gone);
      OneFewer(orphans, gone, todo, id);
      gone := gone + {id};
      todo := todo - {id};
      dropped := dropped + 1;
    }
    assert gone == orphans;
  }

  lemma VisitedRows(c: Config, d: Disk, now: Disk, at: int, refused: set<string>)
    requires Visited(c, d, now, {}, at, refused)
    ensures now.rows.Keys <= d.rows.Keys
    ensures now.live.Keys - d.rows.Keys == d.live.Keys - d.rows.Keys
    ensures now.staging.Keys - d.rows.Keys == d.staging.Keys - d.rows.Keys
  {
    hide Settles, Interrupted, KeptClaims;
    forall id | id !in d.rows
      ensures id !in now.rows && (id in now.live <==> id in d.live) && (id in now.staging <==> id in d.staging)
    {
      assert id !in d.rows.Keys - {};
      assert SliceOf(now, id) == SliceOf(d, id);
    }
  }

  /** Visited rows and dropped orphans make a finished pass. */
  lemma PassFinished(c: Config, d: Disk, mid: Disk, mid': Disk, mid'': Disk, at: int, refused: set<string>)
    requires Visited(c, d, mid, {}, at, refused)
    requires BothDropped(mid, mid', mid.live.Keys - d.rows.Keys)
    requires StagingDropped(mid', mid'', mid'.staging.Keys - d.rows.Keys)
    ensures Reconciled(c, d, mid''.(trash := map[]), at, refused)
    ensures mid''.rows == mid.rows
    ensures mid'.staging.Keys - d.rows.Keys == d.staging.Keys - d.rows.Keys - (d.live.Keys - d.rows.Keys)
  {
    hide Interrupted, KeptClaims, Settles;
    VisitedRows(c, d, mid, at, refused);
    assert d.rows.Keys - {} == d.rows.Keys;
    var end := mid''.(trash := map[]);
    forall id
      ensures Settles(c, SliceOf(d, id), SliceOf(end, id), at, id in refused)
    {
      if id in d.rows {
        SameSettles(c, SliceOf(d, id), SliceOf(mid, id), SliceOf(end, id), at, id in refused);
      } else {
        assert SliceOf(mid, id) == SliceOf(d, id);
        assert id !in end.rows && id !in end.live && id !in end.staging;
        assert id !in refused;
        NothingSettles(c, SliceOf(d, id), at);
      }
    }
  }

  lemma NothingSettles(c: Config, x: Slice, at: int)
    requires x.row.None?
    ensures Settles(c, x, GONE, at, false)
  {
  }

  lemma SameSettles(c: Config, x: Slice, y: Slice, z: Slice, at: int, refused: bool)
    requires Settles(c, x, y, at, refused) && z == y
    ensures Settles(c, x, z, at, refused)
  {
  }

  /** The whole pass. Any order of rows and directories is possible; `draws` are the
      codes drawn for each commit it finishes. It starts from any disk at all, so it
      may itself be cut short and run again. */
  method Run(svc: Service, draws: string -> seq<string>) returns (rep: Report, refused: set<string>, ghost order: seq<string>)
    requires svc.Valid() && !svc.ready && (forall id :: |draws(id)| == MAX_CODE_DRAWS)
    modifies svc, svc.store, svc.layout, svc.manifests
    ensures svc.Valid() && old(svc.history) <= svc.history && SameMemory(old(svc.Current()), svc.Current())
    ensures Reconciled(svc.cfg, old(svc.DiskNow()), svc.DiskNow(), Unix(svc.now), refused)
    ensures forall id :: AfterLoss(old(svc.DiskNow()), svc.DiskNow(), id)
    ensures forall id :: FinishedInTime(svc.cfg, old(svc.DiskNow()), svc.DiskNow(), id, svc.now / 1_000_000_000)
    ensures RefusalsExplained(old(svc.DiskNow()), svc.DiskNow(), old(svc.store.rows).Keys, refused, draws)
    ensures VisitsAll(order, old(svc.store.rows).Keys)
    ensures svc.store.rows == RowsAfter(svc.cfg, old(svc.DiskNow()), order, draws, Unix(svc.now))
    ensures refused == RefusedAfter(svc.cfg, old(svc.DiskNow()), order, draws, Unix(svc.now))
    ensures FreeDraws(old(svc.DiskNow()), draws) ==> refused == {} && Agrees(svc.DiskNow())
    ensures DrawsApart(old(svc.DiskNow()), draws) ==>
              (Agrees(svc.DiskNow()) <==> forall id | id in old(svc.store.rows) && Hopeless(old(svc.DiskNow()), draws, id) ::
                                            !old(svc.store.rows)[id].state.Verifying? && id in old(svc.layout.staging))
    ensures Counted(old(svc.DiskNow()), old(svc.store.rows).Keys, refused, rep)
    ensures rep.orphanLive == |old(svc.layout.live).Keys - old(svc.store.rows).Keys|
    ensures rep.orphanStaging
            == |old(svc.layout.staging).Keys - old(svc.store.rows).Keys - (old(svc.layout.live).Keys - old(svc.store.rows).Keys)|
  {
    hide IsRun, Coherent, Visited, RefusalsExplained, Counted, Reconciled, BothDropped, StagingDropped, AfterLoss, FinishedInTime;
    hide RowsAfter, RefusedAfter, Agrees, FreeDraws, DrawsApart, Hopeless;
    ghost var d := svc.DiskNow();
    var known := svc.store.AllTransferIDs();
    assert known.Keys == d.rows.Keys;
    rep, refused, order := VisitRows(svc, known, draws);
    ghost var mid := svc.DiskNow();
    VisitedRows(svc.cfg, d, mid, Unix(svc.now), refused);
    var orphanLive := DropOrphanLive(svc, known.Keys);
    ghost var mid' := svc.DiskNow();
    assert mid'.rows == mid.rows by { DroppedKeepsRows(mid, mid', mid.live.Keys - d.rows.Keys); }
    var orphanStaging := DropOrphanStaging(svc, known.Keys);
    PassFinished(svc.cfg, d, mid, mid', svc.DiskNow(), Unix(svc.now), refused);
    var emptied := StepEmptyTrash(svc);
    PassNoticesLoss(svc.cfg, d, svc.DiskNow(), Unix(svc.now), refused);
    PassKeepsTime(svc.cfg, d, svc.DiskNow(), Unix(svc.now), refused);
    CountedApart(d, known.Keys, refused, rep, orphanLive, orphanStaging);
    ExplainedByRows(d, mid, svc.DiskNow(), known.Keys, refused, draws);
    rep := rep.(orphanLive := orphanLive, orphanStaging := orphanStaging);
    if FreeDraws(d, draws) {
      FreeDrawsAgree(svc.cfg, d, svc.DiskNow(), order, draws, Unix(svc.now));
    }
    if DrawsApart(d, draws) {
      AgreementForeseen(svc.cfg, d, svc.DiskNow(), order, draws, Unix(svc.now));
    }
  }

  lemma DroppedKeepsRows(d: Disk, now: Disk, gone: set<string>)
    requires BothDropped(d, now, gone)
    ensures now.rows == d.rows
  {
  }

  lemma CountedApart(d: Disk, done: set<string>, refused: set<string>, r: Report, live: nat, staging: nat)
    requires Counted(d, done, refused, r)
    ensures Counted(d, done, refused, r.(orphanLive := live, orphanStaging := staging))
  {
  }

  lemma ExplainedByRows(d: Disk, mid: Disk, now: Disk, done: set<string>, refused: set<string>, draws: string -> seq<string>)
    requires RefusalsExplained(d, mid, done, refused, draws) && now.rows == mid.rows
    ensures RefusalsExplained(d, now, done, refused, draws)
  {
  }
}
