/** The transfer lifecycle as a state machine. Every action is one durable step (a
    database transaction or a directory rename) or one in-memory change, and the
    process may die between any two of them. Operations on one transfer do not
    overlap; operations on different transfers interleave freely. */
module Lifecycle {
  import opened Outcomes
  import opened Protocol
  import opened Storage

  const REMOTE_LEASE := 30 * MINUTE

  datatype Config = Config(defaultTTL: nat, stagingTTLMinutes: nat, localGraceMinutes: nat)

  /** What a commit was asked to publish. */
  datatype Ask = Ask(m: Manifest, ttl: int, note: string)

  /** Where the operation that holds a transfer stands. `Publishing` counts the
      steps done: 1 state recorded, 2 note and expiry recorded, 3 manifest written,
      4 renamed into live. `Removing` counts: 1 marked deleting, 2 cached manifest
      dropped, 3 live directory moved, 4 staging directory moved. */
  datatype Phase =
    | Idle
    | Creating
    | Working
    | Materializing
    | Publishing(step: int, ask: Ask)
    | Aborting
    | Removing(step: int)

  /** `phases`, `cache` and `up` are lost in a crash; `asked` only remembers, for
      the statements about runs, what each commit was asked to publish. */
  datatype Sys = Sys(disk: Disk, phases: map<string, Phase>, cache: map<string, Manifest>,
                     asked: map<string, Ask>, now: int, up: bool)

  /** Steps of creating, uploading, materializing and aborting a transfer. */
  datatype SendAction =
    | PrepareStaging
    | InsertRow(at: int, ttl: int, note: string, reserved: int)
    | Begin
    | SetUploading
    | Write(dir: Dir, segments: map<string, SegmentRow>)
    | MakeOutboards
    | SetVerifying
    | Materialize(dir: Dir)
    | FailCommit(error: ErrorCode)
    | Release
    | AbortStaging
    | AbortRow

  /** The commit protocol, in its order. */
  datatype CommitAction =
    | StartPublish(ask: Ask)
    | RecordNoteAndTTL
    | WriteManifest
    | RenameToLive
    | CommitRow(codes: seq<string>)

  /** Steps that expire and delete a transfer. */
  datatype ServeAction =
    | ExpireOne
    | Abandon
    | MarkDeleting(seen: int)
    | DropManifest
    | TrashLive
    | TrashStaging
    | PurgeRow

  datatype ClaimAction =
    | OpenClaim(claim: Claim)
    | RenewClaim
    | CompleteClaim

  /** Steps of the startup pass. */
  datatype RecoverAction =
    | RecoverComplete(codes: seq<string>)
    | RecoverFail
    | RecoverTrashLive
    | RecoverTrashStaging
    | RecoverRemoveStaging
    | RecoverPurge

  datatype Action =
    | Send(id: string, send: SendAction)
    | Commit(id: string, commit: CommitAction)
    | Serve(id: string, serve: ServeAction)
    | OnClaim(cid: string, onClaim: ClaimAction)
    | Recover(id: string, recover: RecoverAction)
    | ExpireAll
    | CachePut(id: string, evicted: set<string>)
    | ClearTrash(id: string)
    | EmptyTrash
    | Tick(now: int)
    | Crash
    | Ready

  // Guards

  function PhaseOf(s: Sys, id: string): Phase {
    if id in s.phases then s.phases[id] else Idle
  }

  predicate RowIn(s: Sys, id: string, st: State) {
    id in s.disk.rows && s.disk.rows[id].state == st
  }

  predicate Open(s: Sys, id: string) {
    id in s.disk.rows && PreCommit(s.disk.rows[id].state)
  }

  predicate AtStep(s: Sys, id: string, step: int) {
    PhaseOf(s, id).Publishing? && PhaseOf(s, id).step == step
  }

  predicate LooksLive(s: Sys, id: string) {
    id in s.disk.live && LivePayloadValid(s.disk.live[id])
  }

  /** The startup pass may throw this transfer's directories away. */
  predicate Discardable(s: Sys, id: string) {
    || id !in s.disk.rows
    || s.disk.rows[id].state.Failed?
    || s.disk.rows[id].state.Deleting?
    || (s.disk.rows[id].state.Committed? && !LooksLive(s, id))
  }

  predicate ClaimHeld(s: Sys, cid: string) {
    cid in s.disk.claims && s.disk.claims[cid].kind.Remote? && Before(s.now, s.disk.claims[cid].leaseUntil)
  }

  /** A requested expiry of zero stands for the default. */
  function EffectiveTTL(c: Config, ttl: int): int {
    if ttl == 0 then c.defaultTTL else ttl
  }

  function LeaseEnd(c: Config, kind: ClaimKind, now: int): int {
    Unix(now + if kind.Remote? then REMOTE_LEASE else c.localGraceMinutes * MINUTE)
  }

  predicate EnabledSend(s: Sys, id: string, a: SendAction) {
    match a
    case PrepareStaging =>
      && PhaseOf(s, id).Idle? && id !in s.disk.rows && id !in s.disk.staging && id !in s.disk.live
      && id !in s.asked && id !in s.cache
    case InsertRow(_, _, _, _) => PhaseOf(s, id).Creating?
    case Begin => PhaseOf(s, id).Idle? && Open(s, id)
    case SetUploading => PhaseOf(s, id).Working? && RowIn(s, id, Created)
    case Write(_, _) => PhaseOf(s, id).Working? && (RowIn(s, id, Created) || RowIn(s, id, Uploading))
    case MakeOutboards => PhaseOf(s, id).Working? && Open(s, id)
    case SetVerifying =>
      PhaseOf(s, id).Working? && Open(s, id) && id in s.disk.staging && s.disk.staging[id].segments != map[]
    case Materialize(_) => PhaseOf(s, id).Materializing?
    case FailCommit(_) => PhaseOf(s, id).Materializing?
    case Release => PhaseOf(s, id).Working?
    case AbortStaging => PhaseOf(s, id).Working?
    case AbortRow => PhaseOf(s, id).Aborting?
  }

  predicate EnabledCommit(c: Config, s: Sys, id: string, a: CommitAction) {
    match a
    case StartPublish(ask) =>
      && (PhaseOf(s, id).Materializing? || (PhaseOf(s, id).Working? && RowIn(s, id, Created)))
      && id in s.disk.staging && Matches(s.disk.staging[id], ask.m) && ask.ttl == EffectiveTTL(c, ask.ttl)
    case RecordNoteAndTTL => AtStep(s, id, 1)
    case WriteManifest => AtStep(s, id, 2) && id in s.disk.staging
    case RenameToLive => AtStep(s, id, 3)
    case CommitRow(_) => AtStep(s, id, 4)
  }

  predicate EnabledServe(c: Config, s: Sys, id: string, a: ServeAction) {
    match a
    case ExpireOne =>
      RowIn(s, id, Committed) && s.disk.rows[id].expiresAt.Some? && !Before(s.now, s.disk.rows[id].expiresAt.value)
    case Abandon =>
      && PhaseOf(s, id).Idle? && id in s.disk.rows
      && Stale(s.disk.rows[id], Unix(s.now - c.stagingTTLMinutes * MINUTE))
    case MarkDeleting(seen) => PhaseOf(s, id).Idle? && seen <= s.now && Deletable(s.disk, id, seen)
    case DropManifest => PhaseOf(s, id) == Removing(1)
    case TrashLive => PhaseOf(s, id) == Removing(2)
    case TrashStaging => PhaseOf(s, id) == Removing(3)
    case PurgeRow => PhaseOf(s, id) == Removing(4)
  }

  predicate EnabledClaim(c: Config, s: Sys, cid: string, a: ClaimAction) {
    match a
    case OpenClaim(claim) =>
      && cid !in s.disk.claims && claim.completedAt.None? && (claim.token.Some? <==> claim.kind.Remote?)
      && RowIn(s, claim.transferId, Committed)
      && (var e := s.disk.rows[claim.transferId].expiresAt; e.Some? ==> Before(s.now, e.value))
      && claim.leaseUntil == LeaseEnd(c, claim.kind, s.now)
    case RenewClaim =>
      && ClaimHeld(s, cid) && s.disk.claims[cid].transferId in s.disk.rows
      && !RowIn(s, s.disk.claims[cid].transferId, Deleting) && !RowIn(s, s.disk.claims[cid].transferId, Deleted)
    case CompleteClaim => ClaimHeld(s, cid)
  }

  predicate EnabledRecover(s: Sys, id: string, a: RecoverAction) {
    match a
    case RecoverComplete(_) => Open(s, id) && LooksLive(s, id)
    case RecoverFail => !LooksLive(s, id) && Open(s, id) && (RowIn(s, id, Verifying) || id !in s.disk.staging)
    case RecoverTrashLive => Discardable(s, id)
    case RecoverTrashStaging => Discardable(s, id)
    case RecoverRemoveStaging => id !in s.disk.rows
    case RecoverPurge => Discardable(s, id) && !RowIn(s, id, Failed)
  }

  predicate Enabled(c: Config, s: Sys, a: Action) {
    match a
    case Send(id, b) => s.up && EnabledSend(s, id, b)
    case Commit(id, b) => s.up && EnabledCommit(c, s, id, b)
    case Serve(id, b) => s.up && EnabledServe(c, s, id, b)
    case OnClaim(cid, b) => s.up && EnabledClaim(c, s, cid, b)
    case Recover(id, b) => !s.up && EnabledRecover(s, id, b)
    case ExpireAll => s.up
    case CachePut(id, _) =>
      && s.up && (RowIn(s, id, Committed) || RowIn(s, id, Expired))
      && id in s.disk.live && s.disk.live[id].manifest.Some?
    case ClearTrash(_) => true
    case EmptyTrash => true
    case Tick(t) => s.now <= t
    case Crash => true
    case Ready => !s.up
  }

  // Effects

  function Enter(s: Sys, id: string, p: Phase): Sys { s.(phases := s.phases[id := p]) }

  function OnDisk(s: Sys, d: Disk): Sys { s.(disk := d) }

  function OnRows(s: Sys, rows: Rows): Sys { s.(disk := s.disk.(rows := rows)) }

  function OnStaging(s: Sys, id: string, dir: Dir): Sys {
    s.(disk := s.disk.(staging := s.disk.staging[id := dir]))
  }

  function ApplySend(s: Sys, id: string, a: SendAction): Sys
    requires EnabledSend(s, id, a)
  {
    var rows := s.disk.rows;
    match a
    case PrepareStaging => Enter(OnStaging(s, id, EMPTY_DIR), id, Creating)
    case InsertRow(at, ttl, note, reserved) =>
      var row := Row(None, Created, at, None, None, ttl, note, None, 0, 0, reserved, None, map[]);
      Enter(OnRows(s, rows[id := row]), id, Working)
    case Begin => Enter(s, id, Working)
    case SetUploading => OnRows(s, WithState(rows, id, Uploading))
    case Write(dir, segments) => OnStaging(OnRows(s, rows[id := rows[id].(segments := segments)]), id, dir)
    case MakeOutboards => if id in s.disk.staging then s else OnStaging(s, id, EMPTY_DIR)
    case SetVerifying => Enter(OnRows(s, WithState(rows, id, Verifying)), id, Materializing)
    case Materialize(dir) => OnStaging(s, id, dir)
    case FailCommit(e) => Enter(OnRows(s, WithFailure(rows, id, e)), id, Idle)
    case Release => Enter(s, id, Idle)
    case AbortStaging =>
      Enter(OnDisk(s, s.disk.(staging := s.disk.staging - {id})), id, Aborting)
    case AbortRow => Enter(OnDisk(s, Purge(s.disk, id)), id, Idle)
  }

  function ApplyCommit(c: Config, s: Sys, id: string, a: CommitAction): Sys
    requires EnabledCommit(c, s, id, a)
  {
    var rows := s.disk.rows;
    match a
    case StartPublish(ask) =>
      Enter(OnRows(s, WithState(rows, id, Verifying)), id, Publishing(1, ask)).(asked := s.asked[id := ask])
    case RecordNoteAndTTL =>
      var ask := PhaseOf(s, id).ask;
      Enter(OnRows(s, WithNoteAndTTL(rows, id, ask.note, ask.ttl)), id, Publishing(2, ask))
    case WriteManifest =>
      var ask := PhaseOf(s, id).ask;
      Enter(OnStaging(s, id, s.disk.staging[id].(manifest := Some(ask.m))), id, Publishing(3, ask))
    case RenameToLive =>
      Enter(OnDisk(s, StagingToLive(s.disk, id)), id, Publishing(4, PhaseOf(s, id).ask))
    case CommitRow(codes) =>
      var ask := PhaseOf(s, id).ask;
      var p := Publish(rows, id, Unix(s.now), ask.ttl, ask.m, TotalBytes(ask.m.entries), codes);
      Enter(OnRows(s, AfterPublish(rows, id, p)), id, if p.Published? then Idle else Working)
  }

  function ApplyServe(c: Config, s: Sys, id: string, a: ServeAction): Sys
    requires EnabledServe(c, s, id, a)
  {
    var rows := s.disk.rows;
    match a
    case ExpireOne => OnRows(s, WithState(rows, id, Expired))
    case Abandon => OnRows(s, WithState(rows, id, Abandoned))
    case MarkDeleting(_) => Enter(OnRows(s, WithState(rows, id, Deleting)), id, Removing(1))
    case DropManifest => Enter(s.(cache := s.cache - {id}), id, Removing(2))
    case TrashLive => Enter(OnDisk(s, LiveToTrash(s.disk, id)), id, Removing(3))
    case TrashStaging => Enter(OnDisk(s, StagingToTrash(s.disk, id)), id, Removing(4))
    case PurgeRow => Enter(OnDisk(s, Purge(s.disk, id)), id, Idle)
  }

  function ApplyClaim(c: Config, s: Sys, cid: string, a: ClaimAction): Sys
    requires EnabledClaim(c, s, cid, a)
  {
    var claims := s.disk.claims;
    var claims' := match a
      case OpenClaim(claim) => claims[cid := claim]
      case RenewClaim =>
        if claims[cid].completedAt.Some? then claims
        else claims[cid := claims[cid].(leaseUntil := LeaseEnd(c, Remote, s.now))]
      case CompleteClaim => claims[cid := claims[cid].(completedAt := Some(Unix(s.now)))];
    OnDisk(s, s.disk.(claims := claims'))
  }

  function ApplyRecover(c: Config, s: Sys, id: string, a: RecoverAction): Sys
    requires EnabledRecover(s, id, a)
  {
    match a
    case RecoverComplete(codes) =>
      var p := Publish(s.disk.rows, id, Unix(s.now), EffectiveTTL(c, s.disk.rows[id].ttl), s.disk.live[id].manifest.value,
                       TotalBytes(s.disk.live[id].manifest.value.entries), codes);
      OnRows(s, AfterPublish(s.disk.rows, id, p))
    case RecoverFail => OnRows(s, WithFailure(s.disk.rows, id, InternalError))
    case RecoverTrashLive => OnDisk(s, LiveToTrash(s.disk, id))
    case RecoverTrashStaging => OnDisk(s, StagingToTrash(s.disk, id))
    case RecoverRemoveStaging => OnDisk(s, s.disk.(staging := s.disk.staging - {id}))
    case RecoverPurge => OnDisk(s, Purge(s.disk, id))
  }

  function Apply(c: Config, s: Sys, a: Action): Sys
    requires Enabled(c, s, a)
  {
    match a
    case Send(id, b) => ApplySend(s, id, b)
    case Commit(id, b) => ApplyCommit(c, s, id, b)
    case Serve(id, b) => ApplyServe(c, s, id, b)
    case OnClaim(cid, b) => ApplyClaim(c, s, cid, b)
    case Recover(id, b) => ApplyRecover(c, s, id, b)
    case ExpireAll => OnRows(s, ExpireDue(s.disk.rows, s.now))
    case CachePut(id, evicted) => s.(cache := (s.cache - evicted)[id := s.disk.live[id].manifest.value])
    case ClearTrash(id) => OnDisk(s, s.disk.(trash := s.disk.trash - {id}))
    case EmptyTrash => OnDisk(s, s.disk.(trash := map[]))
    case Tick(t) => s.(now := t)
    case Crash => s.(phases := map[], cache := map[], up := false)
    case Ready => s.(up := true)
  }

  ghost predicate Step(c: Config, s: Sys, s': Sys) {
    exists a :: Enabled(c, s, a) && s' == Apply(c, s, a)
  }

  /** A run: any interleaving of actions, with crashes anywhere. */
  ghost predicate IsRun(c: Config, run: seq<Sys>) {
    && run != []
    && forall i | 0 <= i < |run| - 1 :: Step(c, run[i], run[i + 1])
  }

  /** An empty data directory and an empty database. */
  predicate Start(s: Sys) {
    s.disk == Disk(map[], map[], map[], map[], map[]) && s.phases == map[] && s.cache == map[] && s.asked == map[]
  }
}
