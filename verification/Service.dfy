/** The running server: a metadata store, the directory layout and the manifest
    cache, with every durable change also entered in a history of states. The
    history is a run of the lifecycle, so whatever a method does between two of its
    statements, a crash there leaves a state that runs are known to tolerate. */
module Serving {
  import opened Outcomes
  import opened Protocol
  import opened Storage
  import opened Lifecycle
  import opened Safety
  import opened MetadataStore
  import opened FileLayout
  import opened Caching

  lemma RunExtends(c: Config, run: seq<Sys>, a: Action)
    requires IsRun(c, run) && Enabled(c, run[|run| - 1], a)
    ensures IsRun(c, run + [Apply(c, run[|run| - 1], a)])
  {
    hide Enabled, Apply;
    var s' := Apply(c, run[|run| - 1], a);
    var longer := run + [s'];
    forall i | 0 <= i < |longer| - 1
      ensures Step(c, longer[i], longer[i + 1])
    {
      if i < |run| - 1 {
        assert Step(c, run[i], run[i + 1]);
      }
    }
  }

  const CACHE_LIMIT := 64

  class Service {
    const cfg: Config
    const store: Store
    const layout: Layout
    const manifests: ManifestCache
    var now: int
    var ready: bool
    ghost var phases: map<string, Phase>
    ghost var asked: map<string, Ask>
    ghost var history: seq<Sys>

    /** A process starting on whatever the disk holds; it answers nothing yet. */
    constructor (cfg: Config, store: Store, layout: Layout, now: int)
      ensures Valid() && fresh(manifests) && !ready && phases == map[] && manifests.items == map[] && asked == map[]
      ensures this.cfg == cfg && this.store == store && this.layout == layout && this.now == now
    {
      this.cfg, this.store, this.layout, this.now := cfg, store, layout, now;
      manifests := new ManifestCache(CACHE_LIMIT);
      ready, phases, asked := false, map[], map[];
      new;
      history := [Current()];
    }

    ghost function DiskNow(): Disk
      reads this, store, layout
    {
      Disk(store.rows, store.claims, layout.staging, layout.live, layout.trash)
    }

    ghost function Current(): Sys
      reads this, store, layout, manifests
    {
      Sys(DiskNow(), phases, manifests.items, asked, now, ready)
    }

    ghost predicate Valid()
      reads this, store, layout, manifests
    {
      manifests.Valid() && manifests.limit == 64 && IsRun(cfg, history) && history[|history| - 1] == Current()
    }

    /** Enters the change just made in the history. */
    ghost method Record(before: Sys, a: Action)
      requires manifests.Valid() && manifests.limit == 64 && IsRun(cfg, history) && history[|history| - 1] == before
      requires Enabled(cfg, before, a) && Current() == Apply(cfg, before, a)
      modifies this`history
      ensures Valid() && history == old(history) + [Current()]
    {
      hide Enabled, Apply;
      RunExtends(cfg, history, a);
      history := history + [Current()];
    }

    // The commit protocol, step by step

    method StepVerifying(id: string, ghost ask: Ask)
      requires Valid() && CanStep(cfg, Current(), id, StartPublish(ask))
      modifies this, store, layout, manifests
      ensures Valid() && history == old(history) + [Current()]
      ensures Current() == After(cfg, old(Current()), id, StartPublish(ask))
    {
      hide IsRun, Matches, EffectiveTTL;
      ghost var before := Current();
      store.SetState(id, Verifying);
      phases := phases[id := Publishing(1, ask)];
      asked := asked[id := ask];
      Record(before, Commit(id, StartPublish(ask)));
    }

    method StepNoteAndTTL(id: string, note: string, ttl: int, ghost ask: Ask)
      requires Valid() && CanStep(cfg, Current(), id, RecordNoteAndTTL)
      requires PhaseOf(Current(), id) == Publishing(1, ask) && ask.note == note && ask.ttl == ttl
      modifies this, store, layout, manifests
      ensures Valid() && history == old(history) + [Current()]
      ensures Current() == After(cfg, old(Current()), id, RecordNoteAndTTL)
    {
      hide IsRun, Matches;
      ghost var before := Current();
      store.SetNoteAndTTL(id, note, ttl);
      phases := phases[id := Publishing(2, ask)];
      Record(before, Commit(id, RecordNoteAndTTL));
    }

    method StepManifest(id: string, m: Manifest, ghost ask: Ask)
      requires Valid() && CanStep(cfg, Current(), id, WriteManifest)
      requires PhaseOf(Current(), id) == Publishing(2, ask) && ask.m == m
      modifies this, store, layout, manifests
      ensures Valid() && history == old(history) + [Current()]
      ensures Current() == After(cfg, old(Current()), id, WriteManifest)
    {
      hide IsRun, Matches;
      ghost var before := Current();
      layout.WriteManifest(id, m);
      phases := phases[id := Publishing(3, ask)];
      Record(before, Commit(id, WriteManifest));
    }

    method StepRename(id: string, ghost ask: Ask) returns (ok: bool)
      requires Valid() && CanStep(cfg, Current(), id, RenameToLive)
      requires PhaseOf(Current(), id) == Publishing(3, ask) && id in layout.staging
      modifies this, store, layout, manifests
      ensures Valid() && history == old(history) + [Current()]
      ensures ok && Current() == After(cfg, old(Current()), id, RenameToLive)
    {
      hide IsRun, Matches;
      ghost var before := Current();
      ok := layout.PublishDir(id);
      phases := phases[id := Publishing(4, ask)];
      Record(before, Commit(id, RenameToLive));
    }

    method StepCommitRow(id: string, m: Manifest, ttl: int, codes: seq<string>, ghost ask: Ask) returns (p: Publication)
      requires Valid() && CanStep(cfg, Current(), id, CommitRow(codes)) && |codes| == MAX_CODE_DRAWS
      requires PhaseOf(Current(), id) == Publishing(4, ask) && ask.m == m && ask.ttl == ttl
      modifies this, store, layout, manifests
      ensures Valid() && history == old(history) + [Current()]
      ensures Current() == After(cfg, old(Current()), id, CommitRow(codes))
      ensures p == RowOutcome(old(Current()), id, ask, codes)
    {
      hide IsRun, Matches, Publish, TotalBytes;
      ghost var before := Current();
      var bytes := CountBytes(m);
      p := store.PublishTransfer(id, now, ttl, m, bytes, codes);
      phases := phases[id := if p.Published? then Idle else Working];
      Record(before, Commit(id, CommitRow(codes)));
    }

    // The manifest cache

    method StepCachePut(id: string, m: Manifest)
      requires Valid() && ready && (RowIn(Current(), id, Committed) || RowIn(Current(), id, Expired))
      requires id in layout.live && layout.live[id].manifest == Some(m)
      modifies this`history, manifests
      ensures Valid() && history == old(history) + [Current()]
      ensures id in manifests.items && manifests.items[id] == m
    {
      hide IsRun;
      ghost var before := Current();
      ghost var evicted := manifests.Put(id, m);
      Record(before, CachePut(id, evicted));
    }

    /** The steps up to the manifest on disk. */
    method PrepareSteps(id: string, m: Manifest, ttl: int, note: string)
      requires Valid() && CommitReady(cfg, Current(), id, Ask(m, ttl, note))
      modifies this, store, layout, manifests
      ensures Valid() && old(history) <= history
      ensures CommitReady(cfg, old(Current()), id, Ask(m, ttl, note)) && id in old(layout.staging)
      ensures Current() == Midway(old(Current()), id, Ask(m, ttl, note), 3)
    {
      hide IsRun, CanStep, After, Midway, CommitReady, PhaseOf, Coherent;
      ghost var s0 := Current();
      ghost var ask := Ask(m, ttl, note);
      MidwayPhases(cfg, s0, id, ask);
      Step1(cfg, s0, id, ask);
      StepVerifying(id, ask);
      Step2(cfg, s0, id, ask);
      StepNoteAndTTL(id, note, ttl, ask);
      Step3(cfg, s0, id, ask);
      StepManifest(id, m, ask);
    }

    /** The five durable steps, in order. */
    method CommitSteps(id: string, m: Manifest, ttl: int, note: string, codes: seq<string>) returns (p: Publication)
      requires Valid() && |codes| == MAX_CODE_DRAWS && CommitReady(cfg, Current(), id, Ask(m, ttl, note))
      modifies this, store, layout, manifests
      ensures Valid() && old(history) <= history
      ensures p == CommitResult(old(Current()), id, Ask(m, ttl, note), codes)
      ensures Current() == CommitOutcome(old(Current()), id, Ask(m, ttl, note), codes)
    {
      hide IsRun, CanStep, After, Midway, CommitReady, CommitOutcome, CommitResult, PhaseOf, RowOutcome, Coherent;
      ghost var s0 := Current();
      ghost var ask := Ask(m, ttl, note);
      MidwayPhases(cfg, s0, id, ask);
      PrepareSteps(id, m, ttl, note);
      Step4(cfg, s0, id, ask, codes);
      var ok := StepRename(id, ask);
      Step5(cfg, s0, id, ask, codes);
      p := StepCommitRow(id, m, ttl, codes, ask);
    }

    /** Publishes a materialized staging directory. On success the row is the one
        the request asked for under a fresh code, the directory has moved to live
        with its manifest, and the manifest is cached; otherwise no draw was free,
        and the renamed directory waits for the startup pass. */
    method PublishTransfer(id: string, m: Manifest, ttl: int, note: string, codes: seq<string>) returns (p: Publication)
      requires Valid() && Inv(cfg, Current()) && |codes| == MAX_CODE_DRAWS
      requires CanStep(cfg, Current(), id, StartPublish(Ask(m, ttl, note)))
      modifies this, store, layout, manifests
      ensures Valid() && old(history) <= history && now == old(now) && ready
      ensures id in old(store.rows) && id in old(layout.staging)
      ensures var asking := old(store.rows)[id].(state := Verifying, note := note, ttl := ttl);
              && p == Publish(old(store.rows)[id := asking], id, Unix(now), ttl, m, TotalBytes(m.entries), codes)
              && store.rows == AfterPublish(old(store.rows)[id := asking], id, p)
      ensures p.Published? ==> IsCommitted(p.row) && RecordsAsk(p.row, Ask(m, ttl, note))
      ensures p.Published? ==> store.rows == old(store.rows)[id := p.row] && DatedAt(p.row, now, ttl) && p.row.code.value in codes
      ensures p.Refused? ==> forall i | 0 <= i < |codes| :: CodeTaken(store.rows, codes[i])
      ensures store.claims == old(store.claims) && layout.trash == old(layout.trash)
      ensures layout.staging == old(layout.staging) - {id}
      ensures layout.live == old(layout.live)[id := old(layout.staging)[id].(manifest := Some(m))]
      ensures asked == old(asked)[id := Ask(m, ttl, note)]
      ensures phases == old(phases)[id := if p.Published? then Idle else Working]
      ensures p.Published? ==> id in manifests.items && manifests.items[id] == m
    {
      hide IsRun, Inv, FirstFree, TotalBytes, CodeTaken, CanStep, Coherent, CommitReady;
      ghost var s0 := Current();
      ghost var ask := Ask(m, ttl, note);
      NothingLiveYet(cfg, s0, id, ask);
      p := CommitSteps(id, m, ttl, note, codes);
      OpenedRowIsDated(cfg, s0, id, ask, codes, now);
      if p.Published? {
        StepCachePut(id, m);
      }
    }
  }

  /** A row that is open to a commit is not committed yet, so its times are this commit's. */
  lemma OpenedRowIsDated(c: Config, s: Sys, id: string, ask: Ask, codes: seq<string>, now: int)
    requires CanStep(c, s, id, StartPublish(ask)) && Inv(c, s)
    ensures id in s.disk.rows
    ensures var rows := s.disk.rows[id := s.disk.rows[id].(state := Verifying, note := ask.note, ttl := ask.ttl)];
            var p := Publish(rows, id, Unix(now), ask.ttl, ask.m, TotalBytes(ask.m.entries), codes);
            p.Published? ==> DatedAt(p.row, now, ask.ttl) && p.row.code.Some? && p.row.code.value in codes
  {
    hide Inv, FirstFree, TotalBytes, CodeTaken, CanStep;
    NothingLiveYet(c, s, id, ask);
    var rows := s.disk.rows[id := s.disk.rows[id].(state := Verifying, note := ask.note, ttl := ask.ttl)];
    PublishesInNumbers(rows, id, now, ask.ttl, ask.m, TotalBytes(ask.m.entries), codes);
  }

  // The trash

  /** Nothing but the disk differs. */
  predicate SameMemory(s: Sys, s': Sys) {
    s' == s.(disk := s'.disk)
  }

  method StepClearSlot(svc: Service, id: string)
    requires svc.Valid()
    modifies svc, svc.store, svc.layout, svc.manifests
    ensures svc.Valid() && svc.history == old(svc.history) + [svc.Current()]
    ensures SameMemory(old(svc.Current()), svc.Current())
    ensures svc.DiskNow() == old(svc.DiskNow()).(trash := old(svc.layout.trash) - {id})
  {
    hide IsRun, Coherent;
    ghost var before := svc.Current();
    svc.layout.FreeSlot(id);
    svc.Record(before, ClearTrash(id));
  }

  method StepEmptyTrash(svc: Service) returns (n: nat)
    requires svc.Valid()
    modifies svc, svc.store, svc.layout, svc.manifests
    ensures svc.Valid() && svc.history == old(svc.history) + [svc.Current()]
    ensures SameMemory(old(svc.Current()), svc.Current())
    ensures svc.DiskNow() == old(svc.DiskNow()).(trash := map[]) && n == |old(svc.layout.trash)|
  {
    hide IsRun, Coherent;
    ghost var before := svc.Current();
    n := svc.layout.EmptyTrash();
    svc.Record(before, EmptyTrash);
  }

  // The commit protocol as states

  /** Before a commit starts, the transfer has no live directory. */
  lemma NothingLiveYet(c: Config, s: Sys, id: string, ask: Ask)
    requires Inv(c, s) && CanStep(c, s, id, StartPublish(ask))
    ensures CommitReady(c, s, id, ask) && s.up && id in s.disk.rows && id in s.disk.staging
    ensures PreCommit(s.disk.rows[id].state) && s.disk.rows[id].code.None?
  {
    hide Matches, Complete, RecordsAsk, EffectiveTTL;
    assert CellOK(c, View(s, id));
  }

  /** The state after the first `k` steps of a commit begun in `s`. */
  function Midway(s: Sys, id: string, ask: Ask, k: int): Sys
    requires id in s.disk.rows && id in s.disk.staging && 1 <= k <= 4
  {
    var r := s.disk.rows[id].(state := Verifying);
    var rows := s.disk.rows[id := if k == 1 then r else r.(note := ask.note, ttl := ask.ttl)];
    var dir := s.disk.staging[id].(manifest := Some(ask.m));
    var disk := s.disk.(rows := rows);
    var disk' := if k <= 2 then disk
                 else if k == 3 then disk.(staging := s.disk.staging[id := dir])
                 else disk.(staging := s.disk.staging - {id}, live := s.disk.live[id := dir]);
    s.(disk := disk', phases := s.phases[id := Publishing(k, ask)], asked := s.asked[id := ask])
  }

  predicate CanStep(c: Config, s: Sys, id: string, a: CommitAction) {
    Enabled(c, s, Commit(id, a))
  }

  function After(c: Config, s: Sys, id: string, a: CommitAction): Sys
    requires CanStep(c, s, id, a)
  {
    Apply(c, s, Commit(id, a))
  }

  predicate CommitReady(c: Config, s: Sys, id: string, ask: Ask) {
    CanStep(c, s, id, StartPublish(ask)) && id in s.disk.rows && id !in s.disk.live
  }

  /** What the commit transaction answers in state `s`. */
  function RowOutcome(s: Sys, id: string, ask: Ask, codes: seq<string>): Publication {
    Publish(s.disk.rows, id, Unix(s.now), ask.ttl, ask.m, TotalBytes(ask.m.entries), codes)
  }

  function CommitResult(s: Sys, id: string, ask: Ask, codes: seq<string>): Publication
    requires id in s.disk.rows
  {
    var asking := s.disk.rows[id].(state := Verifying, note := ask.note, ttl := ask.ttl);
    Publish(s.disk.rows[id := asking], id, Unix(s.now), ask.ttl, ask.m, TotalBytes(ask.m.entries), codes)
  }

  /** The state after a commit begun in `s` has taken all its steps. */
  function CommitOutcome(s: Sys, id: string, ask: Ask, codes: seq<string>): Sys
    requires id in s.disk.rows && id in s.disk.staging
  {
    var asking := s.disk.rows[id].(state := Verifying, note := ask.note, ttl := ask.ttl);
    var p := CommitResult(s, id, ask, codes);
    s.(disk := s.disk.(rows := AfterPublish(s.disk.rows[id := asking], id, p),
                       staging := s.disk.staging - {id},
                       live := s.disk.live[id := s.disk.staging[id].(manifest := Some(ask.m))]),
       phases := s.phases[id := if p.Published? then Idle else Working],
       asked := s.asked[id := ask])
  }

  lemma MidwayPhases(c: Config, s: Sys, id: string, ask: Ask)
    requires CommitReady(c, s, id, ask)
    ensures id in s.disk.staging && id in Midway(s, id, ask, 3).disk.staging
    ensures forall k | 1 <= k <= 4 :: PhaseOf(Midway(s, id, ask, k), id) == Publishing(k, ask)
  {
    hide Matches, EffectiveTTL;
  }

  lemma Step1(c: Config, s: Sys, id: string, ask: Ask)
    requires CommitReady(c, s, id, ask)
    ensures CanStep(c, s, id, StartPublish(ask))
    ensures After(c, s, id, StartPublish(ask)) == Midway(s, id, ask, 1)
  {
    hide Matches, EffectiveTTL;
  }

  lemma Step2(c: Config, s: Sys, id: string, ask: Ask)
    requires CommitReady(c, s, id, ask)
    ensures CanStep(c, Midway(s, id, ask, 1), id, RecordNoteAndTTL)
    ensures After(c, Midway(s, id, ask, 1), id, RecordNoteAndTTL) == Midway(s, id, ask, 2)
  {
    hide Matches, EffectiveTTL;
    assert s.phases[id := Publishing(1, ask)][id := Publishing(2, ask)] == s.phases[id := Publishing(2, ask)];
    var r := s.disk.rows[id].(state := Verifying);
    var r' := r.(note := ask.note, ttl := ask.ttl);
    assert s.disk.rows[id := r][id := r'] == s.disk.rows[id := r'];
  }

  lemma Step3(c: Config, s: Sys, id: string, ask: Ask)
    requires CommitReady(c, s, id, ask)
    ensures CanStep(c, Midway(s, id, ask, 2), id, WriteManifest)
    ensures After(c, Midway(s, id, ask, 2), id, WriteManifest) == Midway(s, id, ask, 3)
  {
    hide Matches, EffectiveTTL;
    assert s.phases[id := Publishing(2, ask)][id := Publishing(3, ask)] == s.phases[id := Publishing(3, ask)];
  }

  lemma Step4(c: Config, s: Sys, id: string, ask: Ask, codes: seq<string>)
    requires CommitReady(c, s, id, ask)
    ensures CanStep(c, Midway(s, id, ask, 3), id, RenameToLive)
    ensures After(c, Midway(s, id, ask, 3), id, RenameToLive) == Midway(s, id, ask, 4)
    ensures CanStep(c, Midway(s, id, ask, 4), id, CommitRow(codes))
  {
    hide Matches, EffectiveTTL;
    var dir := s.disk.staging[id].(manifest := Some(ask.m));
    assert s.phases[id := Publishing(3, ask)][id := Publishing(4, ask)] == s.phases[id := Publishing(4, ask)];
    assert s.disk.staging[id := dir] - {id} == s.disk.staging - {id};
  }

  lemma Step5(c: Config, s: Sys, id: string, ask: Ask, codes: seq<string>)
    requires CommitReady(c, s, id, ask) && CanStep(c, Midway(s, id, ask, 4), id, CommitRow(codes))
    ensures RowOutcome(Midway(s, id, ask, 4), id, ask, codes) == CommitResult(s, id, ask, codes)
    ensures After(c, Midway(s, id, ask, 4), id, CommitRow(codes)) == CommitOutcome(s, id, ask, codes)
  {
    hide Matches, EffectiveTTL, Publish, TotalBytes;
    assert s.phases[id := Publishing(4, ask)][id := Idle] == s.phases[id := Idle];
    assert s.phases[id := Publishing(4, ask)][id := Working] == s.phases[id := Working];
  }
}
