/** What survives a crash: the rows of the metadata database and the directories
    of the staging, live and trash roots. Times are whole seconds in rows and
    nanoseconds on the clock. */
module Storage {
  import opened Outcomes
  import opened Protocol

  // The file tree

  /** Modes are reduced to the executable bit; times are Unix nanoseconds. */
  datatype Node = File(data: Bytes, exec: bool, mtime: int) | Folder(mtime: int)

  type Tree = map<string, Node>

  /** One transfer directory: its manifest, payload, staged segments and packs. */
  datatype Dir = Dir(manifest: Option<Manifest>, payload: Tree, segments: map<string, Bytes>, packs: map<string, Bytes>)

  const EMPTY_DIR := Dir(None, map[], map[], map[])

  const PAYLOAD_PREFIX := "payload/"
  const PACKS_PREFIX := "packs/"

  /** The bytes behind a storage path, relative to the transfer directory. */
  function Stored(dir: Dir, path: string): Option<Bytes> {
    if PAYLOAD_PREFIX <= path then
      var p := path[|PAYLOAD_PREFIX|..];
      if p in dir.payload && dir.payload[p].File? then Some(dir.payload[p].data) else None
    else if PACKS_PREFIX <= path then
      var p := path[|PACKS_PREFIX|..];
      if p in dir.packs then Some(dir.packs[p]) else None
    else None
  }

  predicate Holds(payload: Tree, e: Entry) {
    && e.path in payload
    && match e.kind
       case FileEntry => payload[e.path].File? && |payload[e.path].data| == e.size && e.digest == Blake3(payload[e.path].data)
       case _ => payload[e.path].Folder?
  }

  /** The segment's storage path leads to bytes of its declared size and digest. */
  predicate Serves(dir: Dir, s: Segment) {
    var b := Stored(dir, s.storagePath);
    b.Some? && |b.value| == s.wireSize && s.digest == Blake3(b.value)
  }

  /** The payload and the served segments are all that the manifest says. */
  predicate Matches(dir: Dir, m: Manifest) {
    && Valid(m)
    && (forall i | 0 <= i < |m.entries| :: Holds(dir.payload, m.entries[i]))
    && (forall i | 0 <= i < |m.segments| :: Serves(dir, m.segments[i]))
  }

  predicate Complete(dir: Dir) {
    dir.manifest.Some? && Matches(dir, dir.manifest.value)
  }

  /** Some bytes of the transfer's directory lie at the segment's storage path, and they
      have its size and digest. */
  predicate ServedWhole(dir: Dir, s: Segment) {
    || (exists p | p in dir.payload ::
          s.storagePath == "payload/" + p && dir.payload[p].File? && |dir.payload[p].data| == s.wireSize && s.digest == Blake3(dir.payload[p].data))
    || (exists p | p in dir.packs ::
          s.storagePath == "packs/" + p && |dir.packs[p]| == s.wireSize && s.digest == Blake3(dir.packs[p]))
  }

  /** Every declared file is there with its size and digest, every declared directory is a
      directory, and every segment is served. */
  predicate AllThere(dir: Dir) {
    && dir.manifest.Some? && Valid(dir.manifest.value)
    && (forall i | 0 <= i < |dir.manifest.value.entries| ::
          var e := dir.manifest.value.entries[i];
          && e.path in dir.payload
          && (e.kind == FileEntry ==>
                dir.payload[e.path].File? && |dir.payload[e.path].data| == e.size && e.digest == Blake3(dir.payload[e.path].data))
          && (e.kind != FileEntry ==> dir.payload[e.path].Folder?))
    && (forall k | 0 <= k < |dir.manifest.value.segments| :: ServedWhole(dir, dir.manifest.value.segments[k]))
  }

  lemma ServesWhole(dir: Dir, s: Segment)
    ensures Serves(dir, s) <==> ServedWhole(dir, s)
  {
    if Serves(dir, s) {
      if PAYLOAD_PREFIX <= s.storagePath {
        var p := s.storagePath[|PAYLOAD_PREFIX|..];
        assert s.storagePath == "payload/" + p;
      } else {
        var p := s.storagePath[|PACKS_PREFIX|..];
        assert s.storagePath == "packs/" + p;
      }
    }
    if p :| p in dir.payload && s.storagePath == "payload/" + p && dir.payload[p].File? && |dir.payload[p].data| == s.wireSize && s.digest == Blake3(dir.payload[p].data) {
      assert s.storagePath[|PAYLOAD_PREFIX|..] == p;
    }
    if p :| p in dir.packs && s.storagePath == "packs/" + p && |dir.packs[p]| == s.wireSize && s.digest == Blake3(dir.packs[p]) {
      assert s.storagePath[|PACKS_PREFIX|..] == p && !(PAYLOAD_PREFIX <= s.storagePath) by {
        assert s.storagePath[1] == 'a' && s.storagePath[2] == 'c';
      }
    }
  }

  /** What a complete directory is, without the helpers of its definition. */
  lemma CompleteIsAllThere(dir: Dir)
    ensures Complete(dir) <==> AllThere(dir)
  {
    hide Valid, Serves, ServedWhole;
    if dir.manifest.Some? {
      var m := dir.manifest.value;
      forall k | 0 <= k < |m.segments|
        ensures Serves(dir, m.segments[k]) <==> ServedWhole(dir, m.segments[k])
      {
        ServesWhole(dir, m.segments[k]);
      }
      forall i | 0 <= i < |m.entries|
        ensures Holds(dir.payload, m.entries[i]) <==>
                  && m.entries[i].path in dir.payload
                  && (m.entries[i].kind == FileEntry ==>
                        && dir.payload[m.entries[i].path].File? && |dir.payload[m.entries[i].path].data| == m.entries[i].size
                        && m.entries[i].digest == Blake3(dir.payload[m.entries[i].path].data))
                  && (m.entries[i].kind != FileEntry ==> dir.payload[m.entries[i].path].Folder?)
      {
      }
    }
  }

  /** A directory's reported size carries no information here. */
  const FOLDER_SIZE := 4096

  function StatSize(n: Node): int {
    if n.File? then |n.data| else FOLDER_SIZE
  }

  predicate LooksPresent(payload: Tree, e: Entry) {
    e.path in payload && (e.kind.FileEntry? ==> StatSize(payload[e.path]) == e.size)
  }

  /** What the server can afford to check of a live directory: the manifest
      parses and validates, and every entry exists with its size. */
  predicate LivePayloadValid(dir: Dir) {
    && dir.manifest.Some?
    && Valid(dir.manifest.value)
    && forall i | 0 <= i < |dir.manifest.value.entries| :: LooksPresent(dir.payload, dir.manifest.value.entries[i])
  }

  lemma CompleteLooksValid(dir: Dir)
    requires Complete(dir)
    ensures LivePayloadValid(dir)
  {
    hide Valid;
    forall i | 0 <= i < |dir.manifest.value.entries|
      ensures LooksPresent(dir.payload, dir.manifest.value.entries[i])
    {
      assert Holds(dir.payload, dir.manifest.value.entries[i]);
    }
  }

  // Rows

  datatype State = Created | Uploading | Verifying | Committed | Expired | Deleting | Deleted | Failed | Abandoned

  datatype SegmentState = Pending | Received

  datatype SegmentRow = SegmentRow(kind: SegmentKind, expected: int, received: int,
                                   expectedDigest: Option<Digest>, state: SegmentState)

  /** A transfer's row with its segment rows. The manifest digest column holds the
      digest of the encoded manifest, which names exactly that manifest. */
  datatype Row = Row(code: Option<string>, state: State, createdAt: int, committedAt: Option<int>, expiresAt: Option<int>,
                     ttl: int, note: string, manifestDigest: Option<Manifest>, wireBytes: int, materializedBytes: int,
                     reservedBytes: int, lastError: Option<ErrorCode>, segments: map<string, SegmentRow>)

  datatype ClaimKind = Remote | Local

  /** Only a remote claim carries a token. */
  datatype Claim = Claim(transferId: string, kind: ClaimKind, createdAt: int, leaseUntil: int,
                         completedAt: Option<int>, token: Option<string>)

  type Rows = map<string, Row>
  type Claims = map<string, Claim>
  type Dirs = map<string, Dir>

  datatype Disk = Disk(rows: Rows, claims: Claims, staging: Dirs, live: Dirs, trash: Dirs)

  predicate PreCommit(s: State) { s.Created? || s.Uploading? || s.Verifying? }

  predicate IsCommitted(r: Row) { r.state.Committed? && r.code.Some? }

  // The clock

  const SECOND := 1_000_000_000
  const MINUTE := 60 * SECOND

  /** The Unix second of a nanosecond instant. */
  function Unix(now: int): int { now / SECOND }

  /** `now` is strictly before the whole second `t`, compared to the nanosecond. */
  predicate Before(now: int, t: int) { now < t * SECOND }

  /** The whole-second comparison a query makes and the nanosecond comparison a
      request makes agree at every instant. */
  lemma SecondsAgree(now: int, t: int)
    ensures t <= Unix(now) <==> !Before(now, t)
    ensures t > Unix(now) <==> Before(now, t)
  {
  }

  lemma UnixMonotone(a: int, b: int)
    requires a <= b
    ensures Unix(a) <= Unix(b)
  {
  }

  // Row updates

  function WithState(rows: Rows, id: string, s: State): Rows {
    if id in rows then rows[id := rows[id].(state := s)] else rows
  }

  function WithFailure(rows: Rows, id: string, e: ErrorCode): Rows {
    if id in rows then rows[id := rows[id].(state := Failed, lastError := Some(e))] else rows
  }

  function WithNoteAndTTL(rows: Rows, id: string, note: string, ttl: int): Rows {
    if id in rows then rows[id := rows[id].(note := note, ttl := ttl)] else rows
  }

  function PublishedRow(r: Row, code: string, at: int, ttl: int, m: Manifest, bytes: int): Row {
    r.(code := Some(code), state := Committed, committedAt := Some(at), expiresAt := Some(at + ttl * 60),
       manifestDigest := Some(m), materializedBytes := bytes, reservedBytes := 0)
  }

  /** Committed in the second of `now`, and expiring `ttl` minutes later. */
  predicate DatedAt(r: Row, now: int, ttl: int) {
    r.committedAt == Some(now / 1_000_000_000) && r.expiresAt == Some(now / 1_000_000_000 + 60 * ttl)
  }

  predicate CodeTaken(rows: Rows, code: string) {
    exists id | id in rows :: rows[id].code == Some(code)
  }

  /** The first drawn code no row carries. */
  function FirstFree(rows: Rows, codes: seq<string>): (r: Option<string>)
    ensures r.Some? ==> !CodeTaken(rows, r.value)
    ensures r.None? ==> forall i | 0 <= i < |codes| :: CodeTaken(rows, codes[i])
  {
    if codes == [] then None
    else if CodeTaken(rows, codes[0]) then FirstFree(rows, codes[1..])
    else Some(codes[0])
  }

  datatype Publication = Published(row: Row) | Refused(error: ErrorCode)

  /** The outcome of the publish transaction at Unix second `at`. */
  function Publish(rows: Rows, id: string, at: int, ttl: int, m: Manifest, bytes: int, codes: seq<string>): Publication {
    if id !in rows then Refused(TransferNotFound)
    else if IsCommitted(rows[id]) then Published(rows[id])
    else if !PreCommit(rows[id].state) || rows[id].code.Some? then Refused(StateConflict)
    else
      var code := FirstFree(rows, codes);
      if code.None? then Refused(InternalError)
      else Published(PublishedRow(rows[id], code.value, at, ttl, m, bytes))
  }

  /** The first commit of a row: its times, one of the draws as its code, the manifest and
      the bytes; every other column stays. */
  predicate NewlyPublished(r: Row, p: Row, now: int, ttl: int, m: Manifest, bytes: int, codes: seq<string>) {
    && p.state == Committed && p.code.Some? && p.code.value in codes && DatedAt(p, now, ttl)
    && p.manifestDigest == Some(m) && p.materializedBytes == bytes && p.reservedBytes == 0
    && p.createdAt == r.createdAt && p.ttl == r.ttl && p.note == r.note && p.wireBytes == r.wireBytes
    && p.lastError == r.lastError && p.segments == r.segments
  }

  lemma {:induction false} FreeIsDrawn(rows: Rows, codes: seq<string>)
    ensures FirstFree(rows, codes).Some? ==> FirstFree(rows, codes).value in codes
  {
    hide CodeTaken;
    if codes != [] {
      FreeIsDrawn(rows, codes[1..]);
    }
  }

  lemma PublishesInNumbers(rows: Rows, id: string, now: int, ttl: int, m: Manifest, bytes: int, codes: seq<string>)
    requires id in rows && !(rows[id].state == Committed && rows[id].code.Some?)
    ensures var p := Publish(rows, id, Unix(now), ttl, m, bytes, codes);
            p.Published? ==> NewlyPublished(rows[id], p.row, now, ttl, m, bytes, codes)
  {
    hide CodeTaken, FirstFree;
    FreeIsDrawn(rows, codes);
  }

  function AfterPublish(rows: Rows, id: string, p: Publication): Rows {
    if p.Published? then rows[id := p.row] else rows
  }

  predicate Due(r: Row, now: int) {
    r.state.Committed? && r.expiresAt.Some? && r.expiresAt.value <= Unix(now)
  }

  function ExpireDue(rows: Rows, now: int): Rows {
    map id | id in rows :: if Due(rows[id], now) then rows[id].(state := Expired) else rows[id]
  }

  /** An unfinished claim whose lease still runs. */
  predicate Active(c: Claim, now: int) {
    c.completedAt.None? && c.leaseUntil > Unix(now)
  }

  predicate Pinned(claims: Claims, id: string, now: int) {
    exists cid | cid in claims :: claims[cid].transferId == id && Active(claims[cid], now)
  }

  predicate Terminal(s: State) { s.Expired? || s.Failed? || s.Abandoned? }

  predicate Deletable(d: Disk, id: string, now: int) {
    id in d.rows && Terminal(d.rows[id].state) && !Pinned(d.claims, id, now)
  }

  predicate Stale(r: Row, before: int) {
    PreCommit(r.state) && r.createdAt < before
  }

  function WithoutClaims(claims: Claims, id: string): Claims {
    map cid | cid in claims && claims[cid].transferId != id :: claims[cid]
  }

  function Purge(d: Disk, id: string): Disk {
    d.(rows := d.rows - {id}, claims := WithoutClaims(d.claims, id))
  }

  // Directory renames

  function LiveToTrash(d: Disk, id: string): Disk {
    if id in d.live then d.(live := d.live - {id}, trash := d.trash[id := d.live[id]]) else d
  }

  function StagingToTrash(d: Disk, id: string): Disk {
    if id in d.staging then d.(staging := d.staging - {id}, trash := d.trash[id := d.staging[id]]) else d
  }

  function ToTrash(d: Disk, id: string): Disk {
    StagingToTrash(LiveToTrash(d, id), id)
  }

  /** An existing live directory counts as published already. */
  function StagingToLive(d: Disk, id: string): Disk {
    if id in d.live || id !in d.staging then d
    else d.(staging := d.staging - {id}, live := d.live[id := d.staging[id]])
  }
}
