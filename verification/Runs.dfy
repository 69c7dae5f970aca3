/** Statements about whole runs. */
module Runs {
  import opened Outcomes
  import opened Protocol
  import opened Storage
  import opened Lifecycle
  import opened Safety

  /** A run of the server from an empty data directory: any interleaving of the
      actions, with crashes anywhere. */
  ghost predicate ServerRun(c: Config, run: seq<Sys>) {
    IsRun(c, run) && Start(run[0])
  }

  lemma Sound(c: Config, run: seq<Sys>, i: nat)
    requires ServerRun(c, run) && i < |run|
    ensures Inv(c, run[i])
  {
    StartSound(c, run[0]);
    RunKeepsInv(c, run, i);
  }

  // Resolving a code

  datatype Lookup = Found(id: string) | NotFound(error: ErrorCode)

  /** The transfer a code leads to, at the clock's present time. */
  ghost function LookupCommitted(s: Sys, code: string): Lookup {
    if !CodeTaken(s.disk.rows, code) then NotFound(TransferNotFound)
    else
      var id :| id in s.disk.rows && s.disk.rows[id].code == Some(code);
      var r := s.disk.rows[id];
      match r.state
      case Committed => if r.expiresAt.Some? && !Before(s.now, r.expiresAt.value) then NotFound(TransferExpired) else Found(id)
      case Expired | Deleting | Deleted => NotFound(TransferExpired)
      case _ => NotFound(TransferNotFound)
  }

  /** A code never resolves to incomplete data: in every state of every run the
      transfer it leads to is committed and unexpired, and its live directory holds
      a valid manifest, the manifest its commit was given, with every file present
      in its declared size and digest and every segment servable. */
  lemma CodeResolvesToCompleteData(c: Config, run: seq<Sys>, i: nat, code: string)
    requires ServerRun(c, run) && i < |run|
    requires LookupCommitted(run[i], code).Found?
    ensures var id := LookupCommitted(run[i], code).id;
            && RowIn(run[i], id, Committed) && run[i].disk.rows[id].code == Some(code)
            && id in run[i].disk.live && Complete(run[i].disk.live[id])
            && id in run[i].asked && run[i].disk.live[id].manifest == Some(run[i].asked[id].m)
            && RecordsAsk(run[i].disk.rows[id], run[i].asked[id])
            && run[i].disk.rows[id].expiresAt.Some? && Before(run[i].now, run[i].disk.rows[id].expiresAt.value)
            && AllThere(run[i].disk.live[id])
            && run[i].disk.rows[id].state == Committed && run[i].now < 1_000_000_000 * run[i].disk.rows[id].expiresAt.value
  {
    hide Complete, RecordsAsk, AllThere;
    var id := LookupCommitted(run[i], code).id;
    Sound(c, run, i);
    assert CellOK(c, View(run[i], id));
    CompleteIsAllThere(run[i].disk.live[id]);
  }

  /** A code names one transfer, and only a transfer that was committed. */
  lemma CodeNamesOneCommit(c: Config, run: seq<Sys>, i: nat, id: string)
    requires ServerRun(c, run) && i < |run| && id in run[i].disk.rows && run[i].disk.rows[id].code.Some?
    ensures Coded(run[i].disk.rows[id].state) && id in run[i].asked && RecordsAsk(run[i].disk.rows[id], run[i].asked[id])
    ensures forall j | j in run[i].disk.rows && j != id :: run[i].disk.rows[j].code != run[i].disk.rows[id].code
  {
    hide Complete, RecordsAsk;
    Sound(c, run, i);
    assert CellOK(c, View(run[i], id));
  }

  /** An unfinished claim whose lease still runs keeps its transfer: the row is
      committed or expired, and the live directory is there, complete. */
  lemma LeasePins(c: Config, run: seq<Sys>, i: nat, cid: string)
    requires ServerRun(c, run) && i < |run|
    requires cid in run[i].disk.claims && run[i].disk.claims[cid].completedAt.None?
    requires Before(run[i].now, run[i].disk.claims[cid].leaseUntil)
    ensures var id := run[i].disk.claims[cid].transferId;
            && (RowIn(run[i], id, Committed) || RowIn(run[i], id, Expired))
            && id in run[i].disk.live && Complete(run[i].disk.live[id]) && AllThere(run[i].disk.live[id])
  {
    hide Complete, RecordsAsk, AllThere;
    Sound(c, run, i);
    assert ClaimOK(run[i], run[i].disk.claims[cid]);
    SecondsAgree(run[i].now, run[i].disk.claims[cid].leaseUntil);
    assert CellOK(c, View(run[i], run[i].disk.claims[cid].transferId));
    CompleteIsAllThere(run[i].disk.live[run[i].disk.claims[cid].transferId]);
  }

  /** A cached manifest is the manifest of that transfer's live directory. */
  lemma CacheIsCoherent(c: Config, run: seq<Sys>, i: nat, id: string)
    requires ServerRun(c, run) && i < |run| && id in run[i].cache
    ensures id in run[i].disk.live && run[i].disk.live[id].manifest == Some(run[i].cache[id])
  {
    hide Complete, RecordsAsk;
    Sound(c, run, i);
    assert CellOK(c, View(run[i], id));
  }

  // Two states of a run

  /** What a commit wrote is still there. */
  predicate SameCommit(r: Row, r': Row) {
    r.code.Some? ==> r'.code == r.code && r'.committedAt == r.committedAt && r'.expiresAt == r.expiresAt
  }

  /** The commit of this transfer can no longer be asked for again. */
  predicate Settled(x: Cell) {
    x.asked.Some? && (x.live.Some? || x.row.None? || !PreCommit(x.row.value.state))
  }

  /** How one step may change one cell. */
  predicate Moves(x: Cell, x': Cell) {
    && (x.row.Some? && x'.row.Some? ==> SameCommit(x.row.value, x'.row.value))
    && (x.row.Some? && x'.row.Some? && (Terminal(x.row.value.state) || x.row.value.state.Deleting?) ==>
          x'.row.value.state == x.row.value.state || x'.row.value.state.Deleting?)
    && (Settled(x) ==> Settled(x') && x'.asked == x.asked)
  }

  lemma SendMoves(c: Config, s: Sys, id: string, a: SendAction)
    requires s.up && EnabledSend(s, id, a) && CellOK(c, View(s, id))
    ensures Moves(View(s, id), View(ApplySend(s, id, a), id))
  {
    hide Matches, Complete, TotalBytes, EffectiveTTL, RecordsAsk;
  }

  lemma CommitMoves(c: Config, s: Sys, id: string, a: CommitAction)
    requires s.up && EnabledCommit(c, s, id, a) && CellOK(c, View(s, id))
    ensures Moves(View(s, id), View(ApplyCommit(c, s, id, a), id))
  {
    hide Matches, Complete, FirstFree, TotalBytes, EffectiveTTL, RecordsAsk;
  }

  lemma ServeMoves(c: Config, s: Sys, id: string, a: ServeAction)
    requires s.up && EnabledServe(c, s, id, a) && CellOK(c, View(s, id))
    ensures Moves(View(s, id), View(ApplyServe(c, s, id, a), id))
  {
    hide Matches, Complete, TotalBytes, EffectiveTTL, RecordsAsk;
  }

  lemma RecoverMoves(c: Config, s: Sys, id: string, a: RecoverAction)
    requires !s.up && EnabledRecover(s, id, a) && CellOK(c, View(s, id))
    ensures Moves(View(s, id), View(ApplyRecover(c, s, id, a), id))
  {
    hide Matches, LivePayloadValid, FirstFree, TotalBytes, EffectiveTTL, RecordsAsk;
    if id in s.disk.live {
      CompleteLooksValid(s.disk.live[id]);
    }
  }

  lemma StepMoves(c: Config, s: Sys, a: Action, id: string)
    requires Inv(c, s) && Enabled(c, s, a)
    ensures Moves(View(s, id), View(Apply(c, s, a), id))
  {
    hide ClaimsOK, CodesDistinct, EnabledSend, EnabledCommit, EnabledServe, EnabledClaim, EnabledRecover;
    hide ApplySend, ApplyCommit, ApplyServe, ApplyClaim, ApplyRecover, RowOK, PhaseOK, Complete;
    assert CellOK(c, View(s, id));
    match a
    case Send(k, b) =>
      SendFrame(s, k, b);
      if k == id {
        SendMoves(c, s, id, b);
      }
    case Commit(k, b) =>
      CommitFrame(c, s, k, b);
      if k == id {
        CommitMoves(c, s, id, b);
      }
    case Serve(k, b) =>
      ServeFrame(c, s, k, b);
      if k == id {
        ServeMoves(c, s, id, b);
      }
    case OnClaim(cid, b) => ClaimActionKeeps(c, s, cid, b);
    case Recover(k, b) =>
      RecoverFrame(c, s, k, b);
      if k == id {
        RecoverMoves(c, s, id, b);
      }
    case _ =>
  }

  /** The action behind the `i`-th step of a run. */
  lemma ActionAt(c: Config, run: seq<Sys>, i: nat) returns (a: Action)
    requires ServerRun(c, run) && i + 1 < |run|
    ensures Inv(c, run[i]) && Enabled(c, run[i], a) && run[i + 1] == Apply(c, run[i], a)
  {
    hide Inv, Apply, Enabled;
    Sound(c, run, i);
    assert Step(c, run[i], run[i + 1]);
    a :| Enabled(c, run[i], a) && run[i + 1] == Apply(c, run[i], a);
  }

  /** Code, commit time and expiry are written once: they never change while the
      row exists. */
  lemma {:induction false} CommitIsFinal(c: Config, run: seq<Sys>, i: nat, j: nat, id: string)
    requires ServerRun(c, run) && i <= j < |run|
    requires forall k | i <= k <= j :: id in run[k].disk.rows
    ensures SameCommit(run[i].disk.rows[id], run[j].disk.rows[id])
    decreases j
  {
    hide Inv, Apply, Enabled;
    if i < j {
      CommitIsFinal(c, run, i, j - 1, id);
      var a := ActionAt(c, run, j - 1);
      StepMoves(c, run[j - 1], a, id);
      assert View(run[j - 1], id).row == Some(run[j - 1].disk.rows[id]);
      assert View(run[j], id).row == Some(run[j].disk.rows[id]);
    }
  }

  lemma {:induction false} AskIsFixed(c: Config, run: seq<Sys>, i: nat, j: nat, id: string)
    requires ServerRun(c, run) && i <= j < |run| && Settled(View(run[i], id))
    ensures Settled(View(run[j], id)) && View(run[j], id).asked == View(run[i], id).asked
    decreases j
  {
    hide Inv, Apply, Enabled, Settled;
    if i < j {
      AskIsFixed(c, run, i, j - 1, id);
      var a := ActionAt(c, run, j - 1);
      StepMoves(c, run[j - 1], a, id);
    }
  }

  /** A crash after the rename into live costs nothing: once a commit has renamed
      its directory, then however the run goes on, through any number of crashes and
      startup passes, a row that ends up with a code says exactly what the
      uninterrupted commit would have written, the code and the commit time apart,
      and while it is committed the live directory holds the manifest asked for. */
  lemma CrashedCommitRefines(c: Config, run: seq<Sys>, i: nat, j: nat, id: string, ask: Ask)
    requires ServerRun(c, run) && i <= j < |run|
    requires PhaseOf(run[i], id) == Publishing(4, ask)
    requires id in run[j].disk.rows && run[j].disk.rows[id].code.Some?
    ensures RecordsAsk(run[j].disk.rows[id], ask)
    ensures RowIn(run[j], id, Committed) ==>
              id in run[j].disk.live && run[j].disk.live[id].manifest == Some(ask.m) && Complete(run[j].disk.live[id])
  {
    hide Complete, RecordsAsk;
    Sound(c, run, i);
    Sound(c, run, j);
    assert CellOK(c, View(run[i], id));
    assert CellOK(c, View(run[j], id));
    AskIsFixed(c, run, i, j, id);
  }

  // Leases

  predicate LeaseKept(a: Claim, b: Claim) {
    b.transferId == a.transferId && b.kind == a.kind && b.leaseUntil >= a.leaseUntil
  }

  /** Claims are removed at most. */
  predicate ClaimsShrink(claims: Claims, claims': Claims) {
    forall cid | cid in claims' :: cid in claims && claims'[cid] == claims[cid]
  }

  lemma SendShrinks(s: Sys, id: string, a: SendAction)
    requires EnabledSend(s, id, a)
    ensures ClaimsShrink(s.disk.claims, ApplySend(s, id, a).disk.claims)
  {
  }

  lemma CommitShrinks(c: Config, s: Sys, id: string, a: CommitAction)
    requires EnabledCommit(c, s, id, a)
    ensures ClaimsShrink(s.disk.claims, ApplyCommit(c, s, id, a).disk.claims)
  {
    hide Matches, Publish, EffectiveTTL;
  }

  lemma ServeShrinks(c: Config, s: Sys, id: string, a: ServeAction)
    requires EnabledServe(c, s, id, a)
    ensures ClaimsShrink(s.disk.claims, ApplyServe(c, s, id, a).disk.claims)
  {
  }

  lemma RecoverShrinks(c: Config, s: Sys, id: string, a: RecoverAction)
    requires EnabledRecover(s, id, a)
    ensures ClaimsShrink(s.disk.claims, ApplyRecover(c, s, id, a).disk.claims)
  {
    hide LivePayloadValid, Publish, EffectiveTTL;
  }

  lemma OthersShrink(c: Config, s: Sys, a: Action)
    requires Enabled(c, s, a) && !a.OnClaim?
    ensures ClaimsShrink(s.disk.claims, Apply(c, s, a).disk.claims)
  {
    hide ApplySend, ApplyCommit, ApplyServe, ApplyRecover, EnabledSend, EnabledCommit, EnabledServe, EnabledRecover;
    hide ExpireDue;
    match a
    case Send(id, b) => SendShrinks(s, id, b);
    case Commit(id, b) => CommitShrinks(c, s, id, b);
    case Serve(id, b) => ServeShrinks(c, s, id, b);
    case Recover(id, b) => RecoverShrinks(c, s, id, b);
    case _ =>
  }

  lemma ClaimKeepsLease(c: Config, s: Sys, k: string, a: ClaimAction, cid: string)
    requires EnabledClaim(c, s, k, a) && cid in s.disk.claims && ClaimOK(s, s.disk.claims[cid])
    ensures cid in ApplyClaim(c, s, k, a).disk.claims
    ensures LeaseKept(s.disk.claims[cid], ApplyClaim(c, s, k, a).disk.claims[cid])
  {
  }

  lemma StepKeepsLease(c: Config, s: Sys, a: Action, cid: string)
    requires Inv(c, s) && Enabled(c, s, a)
    requires cid in s.disk.claims && cid in Apply(c, s, a).disk.claims
    ensures LeaseKept(s.disk.claims[cid], Apply(c, s, a).disk.claims[cid])
  {
    hide CellsOK, CodesDistinct, EnabledClaim, ApplyClaim, EnabledSend, EnabledCommit, EnabledServe, EnabledRecover;
    hide ApplySend, ApplyCommit, ApplyServe, ApplyRecover, ClaimOK;
    assert ClaimOK(s, s.disk.claims[cid]);
    if a.OnClaim? {
      ClaimKeepsLease(c, s, a.cid, a.onClaim, cid);
    } else {
      OthersShrink(c, s, a);
    }
  }

  /** A lease never shortens while its claim exists. */
  lemma {:induction false} LeaseNeverShortens(c: Config, run: seq<Sys>, i: nat, j: nat, cid: string)
    requires ServerRun(c, run) && i <= j < |run|
    requires forall k | i <= k <= j :: cid in run[k].disk.claims
    ensures LeaseKept(run[i].disk.claims[cid], run[j].disk.claims[cid])
    decreases j
  {
    hide Inv, Apply, Enabled;
    if i < j {
      LeaseNeverShortens(c, run, i, j - 1, cid);
      var a := ActionAt(c, run, j - 1);
      StepKeepsLease(c, run[j - 1], a, cid);
    }
  }

  // Deletion lists

  /** A transfer on the deletion list read at `seen` is still unpinned, or gone. */
  predicate StillDeletable(s: Sys, id: string, seen: int) {
    && seen <= s.now
    && (id in s.disk.rows ==> Terminal(s.disk.rows[id].state) || s.disk.rows[id].state.Deleting?)
    && !Pinned(s.disk.claims, id, seen)
  }

  lemma ClaimLeavesUnpinned(c: Config, s: Sys, k: string, a: ClaimAction, id: string, seen: int)
    requires EnabledClaim(c, s, k, a) && StillDeletable(s, id, seen)
    ensures !Pinned(ApplyClaim(c, s, k, a).disk.claims, id, seen)
  {
    UnixMonotone(seen, s.now);
    if k in s.disk.claims {
      SecondsAgree(s.now, s.disk.claims[k].leaseUntil);
    }
  }

  lemma ShrinkLeavesUnpinned(claims: Claims, claims': Claims, id: string, seen: int)
    requires ClaimsShrink(claims, claims') && !Pinned(claims, id, seen)
    ensures !Pinned(claims', id, seen)
  {
  }

  lemma StepKeepsDeletable(c: Config, s: Sys, a: Action, id: string, seen: int)
    requires Inv(c, s) && Enabled(c, s, a) && StillDeletable(s, id, seen)
    requires id in s.disk.rows && id in Apply(c, s, a).disk.rows
    ensures StillDeletable(Apply(c, s, a), id, seen)
  {
    hide Inv, EnabledClaim, ApplyClaim, EnabledSend, EnabledCommit, EnabledServe, EnabledRecover, Pinned;
    hide ApplySend, ApplyCommit, ApplyServe, ApplyRecover, SameCommit, Settled;
    StepMoves(c, s, a, id);
    assert View(s, id).row == Some(s.disk.rows[id]);
    assert View(Apply(c, s, a), id).row == Some(Apply(c, s, a).disk.rows[id]);
    ClockRuns(c, s, a);
    if a.OnClaim? {
      ClaimLeavesUnpinned(c, s, a.cid, a.onClaim, id, seen);
    } else {
      OthersShrink(c, s, a);
      ShrinkLeavesUnpinned(s.disk.claims, Apply(c, s, a).disk.claims, id, seen);
    }
  }

  lemma ClockRuns(c: Config, s: Sys, a: Action)
    requires Enabled(c, s, a)
    ensures s.now <= Apply(c, s, a).now
  {
    hide ApplySend, ApplyCommit, ApplyServe, ApplyClaim, ApplyRecover, ExpireDue;
    hide EnabledSend, EnabledCommit, EnabledServe, EnabledClaim, EnabledRecover;
    match a
    case Send(id, b) => SendFrame(s, id, b);
    case Commit(id, b) => CommitFrame(c, s, id, b);
    case Serve(id, b) => ServeFrame(c, s, id, b);
    case OnClaim(cid, b) => ClaimTimeless(c, s, cid, b);
    case Recover(id, b) => RecoverFrame(c, s, id, b);
    case _ =>
  }

  lemma ClaimTimeless(c: Config, s: Sys, cid: string, a: ClaimAction)
    requires EnabledClaim(c, s, cid, a)
    ensures ApplyClaim(c, s, cid, a).now == s.now
  {
  }

  /** A deletion list may grow old: a transfer that was terminal and unpinned when
      the list was read stays so while its row exists, whatever claims, renewals
      and crashes come in between. */
  lemma {:induction false} DeletionListStaysTrue(c: Config, run: seq<Sys>, i: nat, j: nat, id: string)
    requires ServerRun(c, run) && i <= j < |run| && Deletable(run[i].disk, id, run[i].now)
    requires forall k | i <= k <= j :: id in run[k].disk.rows
    ensures StillDeletable(run[j], id, run[i].now)
    decreases j
  {
    hide Inv, Apply, Enabled;
    if i < j {
      DeletionListStaysTrue(c, run, i, j - 1, id);
      var a := ActionAt(c, run, j - 1);
      StepKeepsDeletable(c, run[j - 1], a, id, run[i].now);
    }
  }

  // Until the expiry

  /** Committed, and not yet in its expiry second. */
  predicate Unexpired(s: Sys, id: string) {
    && id in s.disk.rows && s.disk.rows[id].state == Committed
    && s.disk.rows[id].expiresAt.Some? && s.now < 1_000_000_000 * s.disk.rows[id].expiresAt.value
  }

  /** Row and live directory are what they were. */
  predicate Spared(x: Cell, x': Cell) {
    x'.row == x.row && x'.live == x.live
  }

  lemma SendSpares(c: Config, s: Sys, id: string, a: SendAction)
    requires s.up && EnabledSend(s, id, a) && CellOK(c, View(s, id)) && RowIn(s, id, Committed)
    ensures Spared(View(s, id), View(ApplySend(s, id, a), id))
  {
    hide Matches, Complete, TotalBytes, EffectiveTTL, RecordsAsk;
  }

  /** A committed transfer has no commit left to make. */
  lemma CommitSpares(c: Config, s: Sys, id: string, a: CommitAction)
    requires CellOK(c, View(s, id)) && RowIn(s, id, Committed)
    ensures !EnabledCommit(c, s, id, a)
  {
    hide Matches, Complete, EffectiveTTL, RecordsAsk;
  }

  lemma ServeSpares(c: Config, s: Sys, id: string, a: ServeAction)
    requires s.up && EnabledServe(c, s, id, a) && CellOK(c, View(s, id)) && Unexpired(s, id)
    ensures Spared(View(s, id), View(ApplyServe(c, s, id, a), id))
  {
    hide Matches, Complete, TotalBytes, EffectiveTTL, RecordsAsk;
  }

  /** Its data is complete, so the startup pass has nothing to repair. */
  lemma RecoverSpares(c: Config, s: Sys, id: string, a: RecoverAction)
    requires CellOK(c, View(s, id)) && RowIn(s, id, Committed)
    ensures !EnabledRecover(s, id, a)
  {
    hide Matches, LivePayloadValid, EffectiveTTL, RecordsAsk;
    if id in s.disk.live {
      CompleteLooksValid(s.disk.live[id]);
    }
  }

  /** No step of the server, of a request or of a startup pass takes an unexpired
      committed transfer away. */
  lemma StepSpares(c: Config, s: Sys, a: Action, id: string)
    requires Inv(c, s) && Enabled(c, s, a) && Unexpired(s, id)
    ensures Spared(View(s, id), View(Apply(c, s, a), id))
  {
    hide ClaimsOK, CodesDistinct, EnabledSend, EnabledCommit, EnabledServe, EnabledClaim, EnabledRecover;
    hide ApplySend, ApplyCommit, ApplyServe, ApplyClaim, ApplyRecover, RowOK, PhaseOK, Complete;
    assert CellOK(c, View(s, id));
    match a
    case Send(k, b) =>
      SendFrame(s, k, b);
      if k == id {
        SendSpares(c, s, id, b);
      }
    case Commit(k, b) =>
      CommitSpares(c, s, id, b);
      CommitFrame(c, s, k, b);
    case Serve(k, b) =>
      ServeFrame(c, s, k, b);
      if k == id {
        ServeSpares(c, s, id, b);
      }
    case OnClaim(cid, b) => ClaimActionKeeps(c, s, cid, b);
    case Recover(k, b) =>
      RecoverSpares(c, s, id, b);
      RecoverFrame(c, s, k, b);
    case _ =>
  }

  lemma {:induction false} SparedUntil(c: Config, run: seq<Sys>, i: nat, j: nat, id: string)
    requires ServerRun(c, run) && i <= j < |run| && id in run[i].disk.rows && run[i].disk.rows[id].state == Committed
    requires run[i].disk.rows[id].expiresAt.Some? && run[j].now < 1_000_000_000 * run[i].disk.rows[id].expiresAt.value
    ensures Unexpired(run[i], id) && Unexpired(run[j], id) && Spared(View(run[i], id), View(run[j], id))
    ensures run[i].now <= run[j].now
    decreases j
  {
    hide Inv, Apply, Enabled;
    if i < j {
      var a := ActionAt(c, run, j - 1);
      ClockRuns(c, run[j - 1], a);
      SparedUntil(c, run, i, j - 1, id);
      StepSpares(c, run[j - 1], a, id);
      SameRow(run[j - 1], run[j], id);
      SameRow(run[i], run[j - 1], id);
    }
  }

  lemma SameRow(s: Sys, s': Sys, id: string)
    requires Spared(View(s, id), View(s', id)) && id in s.disk.rows
    ensures id in s'.disk.rows && s'.disk.rows[id] == s.disk.rows[id]
  {
  }

  /** A code lasts for the requested minutes: once a commit has dated its row at `now`,
      then up to second `now` plus `60 * ttl`, whatever else the server does and however
      often it crashes, the code resolves to this transfer and its data is complete. */
  lemma CodeLastsItsMinutes(c: Config, run: seq<Sys>, i: nat, j: nat, id: string, code: string, now: int, ttl: int)
    requires ServerRun(c, run) && i <= j < |run|
    requires id in run[i].disk.rows && run[i].disk.rows[id].state == Committed && run[i].disk.rows[id].code == Some(code)
    requires DatedAt(run[i].disk.rows[id], now, ttl) && run[j].now < 1_000_000_000 * (now / 1_000_000_000 + 60 * ttl)
    ensures LookupCommitted(run[j], code) == Found(id)
    ensures id in run[j].disk.rows && run[j].disk.rows[id] == run[i].disk.rows[id]
    ensures id in run[j].disk.live && AllThere(run[j].disk.live[id])
  {
    hide Complete, RecordsAsk, Inv, AllThere;
    SparedUntil(c, run, i, j, id);
    SameRow(run[i], run[j], id);
    CodeNamesOneCommit(c, run, j, id);
    assert CodeTaken(run[j].disk.rows, code);
    CodeResolvesToCompleteData(c, run, j, code);
  }

  /** From its expiry second on, it resolves no more. */
  lemma CodeEnds(c: Config, run: seq<Sys>, i: nat, j: nat, id: string, code: string, now: int, ttl: int)
    requires ServerRun(c, run) && i <= j < |run|
    requires id in run[i].disk.rows && run[i].disk.rows[id].code == Some(code)
    requires DatedAt(run[i].disk.rows[id], now, ttl) && run[j].now >= 1_000_000_000 * (now / 1_000_000_000 + 60 * ttl)
    requires forall k | i <= k <= j :: id in run[k].disk.rows
    ensures LookupCommitted(run[j], code).NotFound?
  {
    hide Complete, RecordsAsk, Inv;
    CommitIsFinal(c, run, i, j, id);
    CodeNamesOneCommit(c, run, j, id);
  }

  // Until the lease ends

  /** The claim is still there, for the same transfer, with its token and no shorter lease. */
  predicate ClaimStays(claims: Claims, claims': Claims, cid: string) {
    cid in claims ==>
      && cid in claims' && claims'[cid].transferId == claims[cid].transferId && claims'[cid].token == claims[cid].token
      && claims'[cid].leaseUntil >= claims[cid].leaseUntil
  }

  /** The claim's transfer is committed or expired. */
  predicate Pins(s: Sys, cid: string) {
    cid in s.disk.claims && (RowIn(s, s.disk.claims[cid].transferId, Committed) || RowIn(s, s.disk.claims[cid].transferId, Expired))
  }

  lemma SendKeepsClaim(c: Config, s: Sys, id: string, a: SendAction, cid: string)
    requires EnabledSend(s, id, a) && CellOK(c, View(s, id)) && Pins(s, cid)
    ensures ClaimStays(s.disk.claims, ApplySend(s, id, a).disk.claims, cid)
  {
    hide Matches, Complete, EffectiveTTL, RecordsAsk;
  }

  lemma ServeKeepsClaim(c: Config, s: Sys, id: string, a: ServeAction, cid: string)
    requires EnabledServe(c, s, id, a) && CellOK(c, View(s, id)) && Pins(s, cid)
    ensures ClaimStays(s.disk.claims, ApplyServe(c, s, id, a).disk.claims, cid)
  {
    hide Matches, Complete, EffectiveTTL, RecordsAsk;
  }

  lemma RecoverKeepsClaim(c: Config, s: Sys, id: string, a: RecoverAction, cid: string)
    requires EnabledRecover(s, id, a) && CellOK(c, View(s, id)) && Pins(s, cid)
    ensures ClaimStays(s.disk.claims, ApplyRecover(c, s, id, a).disk.claims, cid)
  {
    hide Matches, LivePayloadValid, EffectiveTTL, RecordsAsk, Publish;
    if id in s.disk.live {
      CompleteLooksValid(s.disk.live[id]);
    }
  }

  lemma CommitKeepsClaims(c: Config, s: Sys, id: string, a: CommitAction)
    requires EnabledCommit(c, s, id, a)
    ensures ApplyCommit(c, s, id, a).disk.claims == s.disk.claims
  {
    hide Matches, Publish, EffectiveTTL;
  }

  lemma ClaimKeepsClaim(c: Config, s: Sys, k: string, a: ClaimAction, cid: string)
    requires EnabledClaim(c, s, k, a) && cid in s.disk.claims && ClaimOK(s, s.disk.claims[cid])
    ensures ClaimStays(s.disk.claims, ApplyClaim(c, s, k, a).disk.claims, cid)
  {
  }

  /** No step takes away an unfinished claim whose lease runs. */
  lemma StepKeepsClaim(c: Config, s: Sys, a: Action, cid: string)
    requires Inv(c, s) && Enabled(c, s, a) && cid in s.disk.claims && s.disk.claims[cid].completedAt.None?
    requires s.now < 1_000_000_000 * s.disk.claims[cid].leaseUntil
    ensures ClaimStays(s.disk.claims, Apply(c, s, a).disk.claims, cid)
  {
    hide CodesDistinct, EnabledSend, EnabledCommit, EnabledServe, EnabledClaim, EnabledRecover, ClaimStays, CellOK;
    hide ApplySend, ApplyCommit, ApplyServe, ApplyClaim, ApplyRecover, ExpireDue;
    assert ClaimOK(s, s.disk.claims[cid]);
    SecondsAgree(s.now, s.disk.claims[cid].leaseUntil);
    assert Pins(s, cid);
    SameClaims(s.disk.claims, cid);
    match a
    case Send(id, b) =>
      assert CellOK(c, View(s, id));
      SendKeepsClaim(c, s, id, b, cid);
    case Commit(id, b) => CommitKeepsClaims(c, s, id, b);
    case Serve(id, b) =>
      assert CellOK(c, View(s, id));
      ServeKeepsClaim(c, s, id, b, cid);
    case OnClaim(k, b) => ClaimKeepsClaim(c, s, k, b, cid);
    case Recover(id, b) =>
      assert CellOK(c, View(s, id));
      RecoverKeepsClaim(c, s, id, b, cid);
    case _ =>
  }

  lemma SameClaims(claims: Claims, cid: string)
    ensures ClaimStays(claims, claims, cid)
  {
  }

  /** A token stays good until the second its claim or its last renewal promised, for as
      long as the claim is not finished, whatever else happens: the claim is still there,
      and the transfer it names still has its complete data. */
  lemma {:induction false} ClaimLasts(c: Config, run: seq<Sys>, i: nat, j: nat, cid: string)
    requires ServerRun(c, run) && i <= j < |run| && cid in run[i].disk.claims
    requires run[j].now < 1_000_000_000 * run[i].disk.claims[cid].leaseUntil
    requires forall k | i <= k <= j && cid in run[k].disk.claims :: run[k].disk.claims[cid].completedAt.None?
    ensures run[i].now <= run[j].now && ClaimStays(run[i].disk.claims, run[j].disk.claims, cid)
    ensures var id := run[j].disk.claims[cid].transferId; id in run[j].disk.live && AllThere(run[j].disk.live[id])
    decreases j
  {
    hide Inv, Apply, Enabled, Complete, AllThere;
    if i < j {
      var a := ActionAt(c, run, j - 1);
      ClockRuns(c, run[j - 1], a);
      ClaimLasts(c, run, i, j - 1, cid);
      StepKeepsClaim(c, run[j - 1], a, cid);
    }
    LeasePins(c, run, j, cid);
  }
}
