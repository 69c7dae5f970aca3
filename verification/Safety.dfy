/** What every reachable state keeps, whatever the interleaving and wherever the
    crashes fall. The statement is made one transfer at a time: a cell gathers all
    that the system knows about one identifier. */
module Safety {
  import opened Outcomes
  import opened Protocol
  import opened Storage
  import opened Lifecycle

  datatype Cell = Cell(row: Option<Row>, staging: Option<Dir>, live: Option<Dir>, phase: Phase,
                       cached: Option<Manifest>, asked: Option<Ask>, up: bool)

  function Get<V>(m: map<string, V>, id: string): Option<V> {
    if id in m then Some(m[id]) else None
  }

  function View(s: Sys, id: string): Cell {
    Cell(Get(s.disk.rows, id), Get(s.disk.staging, id), Get(s.disk.live, id), PhaseOf(s, id),
         Get(s.cache, id), Get(s.asked, id), s.up)
  }

  // Rows

  /** The columns a commit writes are written together. */
  predicate CommitColumns(r: Row) {
    && (r.code.Some? <==> r.committedAt.Some?)
    && (r.code.Some? <==> r.expiresAt.Some?)
    && (r.code.Some? <==> r.manifestDigest.Some?)
  }

  /** The row says exactly what an uninterrupted commit of `ask` writes; only the
      code and the commit time are free. */
  predicate RecordsAsk(r: Row, ask: Ask) {
    && r.note == ask.note
    && r.ttl == ask.ttl
    && r.manifestDigest == Some(ask.m)
    && r.materializedBytes == TotalBytes(ask.m.entries)
    && r.reservedBytes == 0
    && r.committedAt.Some? && r.expiresAt == Some(r.committedAt.value + ask.ttl * 60)
  }

  predicate Coded(s: State) { s.Committed? || s.Expired? || s.Deleting? }

  /** Live, complete, and what the commit was asked for. */
  predicate LiveAsAsked(live: Option<Dir>, asked: Option<Ask>) {
    live.Some? && asked.Some? && live.value.manifest == Some(asked.value.m)
  }

  predicate RowOK(c: Config, r: Row, staging: Option<Dir>, live: Option<Dir>, asked: Option<Ask>) {
    && CommitColumns(r)
    && (r.code.Some? ==> Coded(r.state) && asked.Some? && RecordsAsk(r, asked.value))
    && (r.state.Committed? || r.state.Expired? ==> r.code.Some? && LiveAsAsked(live, asked))
    && (r.state.Created? || r.state.Uploading? ==> live.None?)
    && (r.state.Verifying? && live.Some? ==>
          && LiveAsAsked(live, asked)
          && r.note == asked.value.note && r.ttl == asked.value.ttl == EffectiveTTL(c, r.ttl)
          && (staging.Some? ==> staging.value.segments == map[]))
  }

  // Operations in progress

  predicate PublishingOK(c: Config, x: Cell, step: int, ask: Ask) {
    && 1 <= step <= 4
    && x.row.Some? && x.row.value.state.Verifying? && x.asked == Some(ask) && ask.ttl == EffectiveTTL(c, ask.ttl)
    && (step >= 2 ==> x.row.value.note == ask.note && x.row.value.ttl == ask.ttl)
    && (step <= 3 ==> x.live.None? && x.staging.Some? && Matches(x.staging.value, ask.m))
    && (step == 3 ==> x.staging.value.manifest == Some(ask.m))
    && (step == 4 ==> x.live.Some?)
  }

  predicate PhaseOK(c: Config, x: Cell) {
    match x.phase
    case Idle => true
    case Creating => x.row.None? && x.live.None? && x.asked.None?
    case Working => x.row.Some? && PreCommit(x.row.value.state)
    case Materializing => x.row.Some? && x.row.value.state.Verifying? && x.live.None?
    case Publishing(step, ask) => PublishingOK(c, x, step, ask)
    case Aborting => x.row.Some? && PreCommit(x.row.value.state)
    case Removing(step) => x.row.Some? && x.row.value.state.Deleting? && (step >= 2 ==> x.cached.None?)
  }

  predicate CellOK(c: Config, x: Cell) {
    && (x.live.Some? ==> Complete(x.live.value))
    && (x.row.Some? ==> RowOK(c, x.row.value, x.staging, x.live, x.asked))
    && PhaseOK(c, x)
    && (x.cached.Some? ==> x.up && x.live.Some? && x.live.value.manifest == x.cached)
    && (!x.up ==> x.phase.Idle?)
  }

  ghost predicate CellsOK(c: Config, s: Sys) {
    forall id :: CellOK(c, View(s, id))
  }

  // Claims and codes

  predicate ClaimOK(s: Sys, claim: Claim) {
    && claim.transferId in s.disk.rows && Coded(s.disk.rows[claim.transferId].state)
    && (claim.token.Some? <==> claim.kind.Remote?)
    && (Active(claim, s.now) ==> RowIn(s, claim.transferId, Committed) || RowIn(s, claim.transferId, Expired))
    && (claim.kind.Remote? ==> claim.leaseUntil <= Unix(s.now + REMOTE_LEASE))
  }

  predicate ClaimsOK(s: Sys) {
    forall cid | cid in s.disk.claims :: ClaimOK(s, s.disk.claims[cid])
  }

  predicate CodesDistinct(rows: Rows) {
    forall i, j | i in rows && j in rows && i != j && rows[i].code.Some? :: rows[i].code != rows[j].code
  }

  ghost predicate Inv(c: Config, s: Sys) {
    CellsOK(c, s) && ClaimsOK(s) && CodesDistinct(s.disk.rows)
  }

  // One step, one cell

  /** Nothing but the one transfer is touched. */
  ghost predicate OnlyCell(s: Sys, s': Sys, id: string) {
    && s'.now == s.now && s'.up == s.up
    && forall j | j != id :: View(s', j) == View(s, j)
  }

  lemma ManifestApart(d: Dir, m: Manifest, n: Option<Manifest>)
    requires Matches(d, m)
    ensures Matches(d.(manifest := n), m)
  {
    hide Valid;
    var d' := d.(manifest := n);
    forall i | 0 <= i < |m.segments|
      ensures Serves(d', m.segments[i])
    {
      assert Serves(d, m.segments[i]);
    }
  }

  lemma SendFrame(s: Sys, id: string, a: SendAction)
    requires EnabledSend(s, id, a)
    ensures OnlyCell(s, ApplySend(s, id, a), id)
  {
  }

  lemma SendKeepsCell(c: Config, s: Sys, id: string, a: SendAction)
    requires s.up && EnabledSend(s, id, a) && CellOK(c, View(s, id))
    ensures CellOK(c, View(ApplySend(s, id, a), id))
  {
    hide Matches, TotalBytes, RecordsAsk;
  }

  lemma CommitFrame(c: Config, s: Sys, id: string, a: CommitAction)
    requires EnabledCommit(c, s, id, a)
    ensures OnlyCell(s, ApplyCommit(c, s, id, a), id)
  {
    hide Matches, Publish, EffectiveTTL;
  }

  lemma CommitRowKeepsCell(c: Config, s: Sys, id: string, codes: seq<string>)
    requires s.up && EnabledCommit(c, s, id, CommitRow(codes)) && CellOK(c, View(s, id))
    ensures CellOK(c, View(ApplyCommit(c, s, id, CommitRow(codes)), id))
  {
    hide Matches, FirstFree, TotalBytes;
  }

  lemma CommitKeepsCell(c: Config, s: Sys, id: string, a: CommitAction)
    requires s.up && EnabledCommit(c, s, id, a) && CellOK(c, View(s, id))
    ensures CellOK(c, View(ApplyCommit(c, s, id, a), id))
  {
    hide Matches, Publish, TotalBytes;
    if a.CommitRow? {
      CommitRowKeepsCell(c, s, id, a.codes);
    } else if a.WriteManifest? {
      ManifestApart(s.disk.staging[id], PhaseOf(s, id).ask.m, Some(PhaseOf(s, id).ask.m));
    }
  }

  lemma ServeFrame(c: Config, s: Sys, id: string, a: ServeAction)
    requires EnabledServe(c, s, id, a)
    ensures OnlyCell(s, ApplyServe(c, s, id, a), id)
  {
  }

  lemma ServeKeepsCell(c: Config, s: Sys, id: string, a: ServeAction)
    requires s.up && EnabledServe(c, s, id, a) && CellOK(c, View(s, id))
    ensures CellOK(c, View(ApplyServe(c, s, id, a), id))
  {
    hide Matches, FirstFree, TotalBytes, LivePayloadValid;
  }

  lemma RecoverFrame(c: Config, s: Sys, id: string, a: RecoverAction)
    requires EnabledRecover(s, id, a)
    ensures OnlyCell(s, ApplyRecover(c, s, id, a), id)
  {
    hide Matches, LivePayloadValid;
  }

  lemma RecoverKeepsCell(c: Config, s: Sys, id: string, a: RecoverAction)
    requires !s.up && EnabledRecover(s, id, a) && CellOK(c, View(s, id))
    ensures CellOK(c, View(ApplyRecover(c, s, id, a), id))
  {
    hide Matches, FirstFree, TotalBytes, LivePayloadValid;
    if id in s.disk.live {
      CompleteLooksValid(s.disk.live[id]);
    }
  }

  // One step, claims and codes

  lemma ClaimsFrame(s: Sys, s': Sys, id: string)
    requires ClaimsOK(s) && OnlyCell(s, s', id)
    requires forall cid | cid in s'.disk.claims :: cid in s.disk.claims && s'.disk.claims[cid] == s.disk.claims[cid]
    requires forall cid | cid in s'.disk.claims && s'.disk.claims[cid].transferId == id ::
               ClaimOK(s', s'.disk.claims[cid])
    ensures ClaimsOK(s')
  {
    hide Active;
    forall cid | cid in s'.disk.claims
      ensures ClaimOK(s', s'.disk.claims[cid])
    {
      var t := s.disk.claims[cid].transferId;
      assert ClaimOK(s, s.disk.claims[cid]);
      if t != id {
        assert View(s', t) == View(s, t);
      }
    }
  }

  lemma CodesFrame(s: Sys, s': Sys, id: string)
    requires CodesDistinct(s.disk.rows) && OnlyCell(s, s', id)
    requires id in s'.disk.rows && s'.disk.rows[id].code.Some? ==>
               || (id in s.disk.rows && s.disk.rows[id].code == s'.disk.rows[id].code)
               || !CodeTaken(s.disk.rows, s'.disk.rows[id].code.value)
    ensures CodesDistinct(s'.disk.rows)
  {
    var rows, rows' := s.disk.rows, s'.disk.rows;
    assert forall j | j != id && j in rows' :: View(s', j) == View(s, j) && j in rows && rows[j] == rows'[j];
  }

  lemma SendKeepsClaims(c: Config, s: Sys, id: string, a: SendAction)
    requires s.up && EnabledSend(s, id, a) && CellOK(c, View(s, id)) && ClaimsOK(s)
    ensures ClaimsOK(ApplySend(s, id, a))
  {
    hide Complete, RowOK, Active;
    var s' := ApplySend(s, id, a);
    SendFrame(s, id, a);
    forall cid | cid in s'.disk.claims && s'.disk.claims[cid].transferId == id
      ensures ClaimOK(s', s'.disk.claims[cid])
    {
      assert ClaimOK(s, s.disk.claims[cid]);
    }
    ClaimsFrame(s, s', id);
  }

  lemma SendKeepsCodes(s: Sys, id: string, a: SendAction)
    requires EnabledSend(s, id, a) && CodesDistinct(s.disk.rows)
    ensures CodesDistinct(ApplySend(s, id, a).disk.rows)
  {
    hide CodeTaken, CodesDistinct;
    SendFrame(s, id, a);
    CodesFrame(s, ApplySend(s, id, a), id);
  }

  /** A transfer that is being committed cannot have been claimed yet. */
  lemma CommittingIsUnclaimed(c: Config, s: Sys, id: string, a: CommitAction, cid: string)
    requires s.up && EnabledCommit(c, s, id, a) && CellOK(c, View(s, id)) && ClaimsOK(s) && cid in s.disk.claims
    ensures s.disk.claims[cid].transferId != id
  {
    hide Matches, FirstFree, TotalBytes, Complete, RowOK, Active, EffectiveTTL;
    assert ClaimOK(s, s.disk.claims[cid]);
  }

  lemma CommitKeepsClaims(c: Config, s: Sys, id: string, a: CommitAction)
    requires s.up && EnabledCommit(c, s, id, a) && CellOK(c, View(s, id)) && ClaimsOK(s)
    ensures ClaimsOK(ApplyCommit(c, s, id, a))
  {
    hide Matches, FirstFree, TotalBytes, Complete, RowOK, Active, EffectiveTTL, ClaimOK;
    var s' := ApplyCommit(c, s, id, a);
    CommitFrame(c, s, id, a);
    forall cid | cid in s.disk.claims
      ensures s.disk.claims[cid].transferId != id
    {
      CommittingIsUnclaimed(c, s, id, a, cid);
    }
    ClaimsFrame(s, s', id);
  }

  lemma CommitKeepsCodes(c: Config, s: Sys, id: string, a: CommitAction)
    requires EnabledCommit(c, s, id, a) && CodesDistinct(s.disk.rows)
    ensures CodesDistinct(ApplyCommit(c, s, id, a).disk.rows)
  {
    hide Matches, FirstFree, TotalBytes, CodeTaken, CodesDistinct, EffectiveTTL;
    CommitFrame(c, s, id, a);
    CodesFrame(s, ApplyCommit(c, s, id, a), id);
  }

  lemma ServeKeepsClaims(c: Config, s: Sys, id: string, a: ServeAction)
    requires s.up && EnabledServe(c, s, id, a) && CellOK(c, View(s, id)) && ClaimsOK(s)
    ensures ClaimsOK(ApplyServe(c, s, id, a))
  {
    hide Matches, Complete, RowOK;
    var s' := ApplyServe(c, s, id, a);
    ServeFrame(c, s, id, a);
    forall cid | cid in s'.disk.claims && s'.disk.claims[cid].transferId == id
      ensures ClaimOK(s', s'.disk.claims[cid])
    {
      assert ClaimOK(s, s.disk.claims[cid]);
      if a.MarkDeleting? {
        UnixMonotone(a.seen, s.now);
      }
    }
    ClaimsFrame(s, s', id);
  }

  lemma ServeKeepsCodes(c: Config, s: Sys, id: string, a: ServeAction)
    requires EnabledServe(c, s, id, a) && CodesDistinct(s.disk.rows)
    ensures CodesDistinct(ApplyServe(c, s, id, a).disk.rows)
  {
    hide CodesDistinct;
    ServeFrame(c, s, id, a);
    CodesFrame(s, ApplyServe(c, s, id, a), id);
  }

  lemma RecoverKeepsClaims(c: Config, s: Sys, id: string, a: RecoverAction)
    requires EnabledRecover(s, id, a) && CellOK(c, View(s, id)) && ClaimsOK(s)
    ensures ClaimsOK(ApplyRecover(c, s, id, a))
  {
    hide Matches, FirstFree, TotalBytes, LivePayloadValid, Active;
    var s' := ApplyRecover(c, s, id, a);
    RecoverFrame(c, s, id, a);
    forall cid | cid in s'.disk.claims && s'.disk.claims[cid].transferId == id
      ensures ClaimOK(s', s'.disk.claims[cid])
    {
      assert ClaimOK(s, s.disk.claims[cid]);
    }
    ClaimsFrame(s, s', id);
  }

  lemma RecoverKeepsCodes(c: Config, s: Sys, id: string, a: RecoverAction)
    requires EnabledRecover(s, id, a) && CodesDistinct(s.disk.rows)
    ensures CodesDistinct(ApplyRecover(c, s, id, a).disk.rows)
  {
    hide Matches, FirstFree, TotalBytes, LivePayloadValid, CodeTaken, CodesDistinct;
    RecoverFrame(c, s, id, a);
    CodesFrame(s, ApplyRecover(c, s, id, a), id);
  }

  lemma ClaimActionKeeps(c: Config, s: Sys, cid: string, a: ClaimAction)
    requires EnabledClaim(c, s, cid, a) && ClaimsOK(s)
    ensures ClaimsOK(ApplyClaim(c, s, cid, a))
    ensures ApplyClaim(c, s, cid, a).disk.rows == s.disk.rows
    ensures forall id :: View(ApplyClaim(c, s, cid, a), id) == View(s, id)
  {
    var s' := ApplyClaim(c, s, cid, a);
    if cid in s.disk.claims {
      assert ClaimOK(s, s.disk.claims[cid]);
    }
    forall k | k in s'.disk.claims
      ensures ClaimOK(s', s'.disk.claims[k])
    {
      assert k != cid ==> ClaimOK(s, s.disk.claims[k]);
    }
  }

  // The steps that touch many transfers or none

  lemma ExpireAllKeeps(c: Config, s: Sys)
    requires s.up && Inv(c, s)
    ensures Inv(c, OnRows(s, ExpireDue(s.disk.rows, s.now)))
  {
    hide Matches, Complete, LivePayloadValid, TotalBytes, Active;
    var s' := OnRows(s, ExpireDue(s.disk.rows, s.now));
    forall id
      ensures CellOK(c, View(s', id))
    {
      assert CellOK(c, View(s, id));
    }
    forall cid | cid in s'.disk.claims
      ensures ClaimOK(s', s'.disk.claims[cid])
    {
      assert ClaimOK(s, s.disk.claims[cid]);
    }
  }

  lemma CachePutKeeps(c: Config, s: Sys, id: string, evicted: set<string>)
    requires Inv(c, s) && Enabled(c, s, CachePut(id, evicted))
    ensures Inv(c, Apply(c, s, CachePut(id, evicted)))
  {
    hide Matches, Complete, LivePayloadValid, TotalBytes, Active, RecordsAsk, RowOK;
    var s' := Apply(c, s, CachePut(id, evicted));
    forall k
      ensures CellOK(c, View(s', k))
    {
      assert CellOK(c, View(s, k));
    }
    forall cid | cid in s'.disk.claims
      ensures ClaimOK(s', s'.disk.claims[cid])
    {
      assert ClaimOK(s, s.disk.claims[cid]);
    }
  }

  /** The trash is never looked at. */
  lemma TrashApart(c: Config, s: Sys, trash: Dirs)
    requires Inv(c, s)
    ensures Inv(c, s.(disk := s.disk.(trash := trash)))
  {
    hide CellOK;
    var s' := s.(disk := s.disk.(trash := trash));
    assert forall id :: View(s', id) == View(s, id);
    forall cid | cid in s'.disk.claims
      ensures ClaimOK(s', s'.disk.claims[cid])
    {
      assert ClaimOK(s, s.disk.claims[cid]);
    }
  }

  lemma TickKeeps(c: Config, s: Sys, t: int)
    requires Inv(c, s) && s.now <= t
    ensures Inv(c, s.(now := t))
  {
    hide CellOK;
    var s' := s.(now := t);
    assert forall id :: View(s', id) == View(s, id);
    forall cid | cid in s'.disk.claims
      ensures ClaimOK(s', s'.disk.claims[cid])
    {
      assert ClaimOK(s, s.disk.claims[cid]);
      UnixMonotone(s.now, t);
      UnixMonotone(s.now + REMOTE_LEASE, t + REMOTE_LEASE);
    }
  }

  /** Whatever was in progress, the cells stay sound without it. */
  lemma CrashKeeps(c: Config, s: Sys)
    requires Inv(c, s)
    ensures Inv(c, s.(phases := map[], cache := map[], up := false))
  {
    hide Matches, Complete, LivePayloadValid, TotalBytes, Active, RecordsAsk;
    var s' := s.(phases := map[], cache := map[], up := false);
    forall id
      ensures CellOK(c, View(s', id))
    {
      assert CellOK(c, View(s, id));
    }
    forall cid | cid in s'.disk.claims
      ensures ClaimOK(s', s'.disk.claims[cid])
    {
      assert ClaimOK(s, s.disk.claims[cid]);
    }
  }

  lemma ReadyKeeps(c: Config, s: Sys)
    requires !s.up && Inv(c, s)
    ensures Inv(c, s.(up := true))
  {
    hide Matches, Complete, LivePayloadValid, TotalBytes, Active, RowOK;
    var s' := s.(up := true);
    forall id
      ensures CellOK(c, View(s', id))
    {
      assert CellOK(c, View(s, id));
    }
    forall cid | cid in s'.disk.claims
      ensures ClaimOK(s', s'.disk.claims[cid])
    {
      assert ClaimOK(s, s.disk.claims[cid]);
    }
  }

  // Runs

  lemma OneCellKeeps(c: Config, s: Sys, s': Sys, id: string)
    requires CellsOK(c, s) && OnlyCell(s, s', id) && CellOK(c, View(s', id))
    ensures CellsOK(c, s')
  {
    hide CellOK, View;
  }

  lemma StepKeepsInv(c: Config, s: Sys, a: Action)
    requires Inv(c, s) && Enabled(c, s, a)
    ensures Inv(c, Apply(c, s, a))
  {
    hide CellOK, ClaimsOK, CodesDistinct, View, EnabledSend, EnabledCommit, EnabledServe, EnabledClaim, EnabledRecover;
    hide ApplySend, ApplyCommit, ApplyServe, ApplyClaim, ApplyRecover;
    match a
    case Send(id, b) =>
      assert CellOK(c, View(s, id));
      SendFrame(s, id, b);
      SendKeepsCell(c, s, id, b);
      SendKeepsClaims(c, s, id, b);
      SendKeepsCodes(s, id, b);
      OneCellKeeps(c, s, ApplySend(s, id, b), id);
    case Commit(id, b) =>
      assert CellOK(c, View(s, id));
      CommitFrame(c, s, id, b);
      CommitKeepsCell(c, s, id, b);
      CommitKeepsClaims(c, s, id, b);
      CommitKeepsCodes(c, s, id, b);
      OneCellKeeps(c, s, ApplyCommit(c, s, id, b), id);
    case Serve(id, b) =>
      assert CellOK(c, View(s, id));
      ServeFrame(c, s, id, b);
      ServeKeepsCell(c, s, id, b);
      ServeKeepsClaims(c, s, id, b);
      ServeKeepsCodes(c, s, id, b);
      OneCellKeeps(c, s, ApplyServe(c, s, id, b), id);
    case OnClaim(cid, b) =>
      ClaimActionKeeps(c, s, cid, b);
    case Recover(id, b) =>
      assert CellOK(c, View(s, id));
      RecoverFrame(c, s, id, b);
      RecoverKeepsCell(c, s, id, b);
      RecoverKeepsClaims(c, s, id, b);
      RecoverKeepsCodes(c, s, id, b);
      OneCellKeeps(c, s, ApplyRecover(c, s, id, b), id);
    case ExpireAll => ExpireAllKeeps(c, s);
    case CachePut(id, evicted) => CachePutKeeps(c, s, id, evicted);
    case ClearTrash(id) => TrashApart(c, s, s.disk.trash - {id});
    case EmptyTrash => TrashApart(c, s, map[]);
    case Tick(t) => TickKeeps(c, s, t);
    case Crash => CrashKeeps(c, s);
    case Ready => ReadyKeeps(c, s);
  }

  /** Every state of every run is sound. */
  lemma {:induction false} RunKeepsInv(c: Config, run: seq<Sys>, i: nat)
    requires IsRun(c, run) && i < |run| && Inv(c, run[0])
    ensures Inv(c, run[i])
  {
    hide Inv, Apply, Enabled;
    if i == 0 {
    } else {
      RunKeepsInv(c, run, i - 1);
      assert Step(c, run[i - 1], run[i - 1 + 1]);
      var a :| Enabled(c, run[i - 1], a) && run[i] == Apply(c, run[i - 1], a);
      StepKeepsInv(c, run[i - 1], a);
    }
  }

  lemma StartSound(c: Config, s: Sys)
    requires Start(s)
    ensures Inv(c, s)
  {
  }
}
