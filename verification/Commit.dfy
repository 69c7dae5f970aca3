/** Committing an uploaded transfer: check the manifest against what was declared and
    what was received, materialize, publish. */
module Committing {
  import opened Outcomes
  import opened Protocol
  import opened Validation
  import opened Storage
  import opened Lifecycle
  import opened Safety
  import opened MetadataStore
  import opened FileLayout
  import opened Caching
  import opened Serving
  import P = Payloads
  import X = Extracting
  import W = Placing
  import M = Materializing

  /** Zero means no limit on bytes. */
  datatype Limits = Limits(maxFiles: int, maxNoteBytes: int, maxTransferBytes: int)

  datatype Response = Response(code: string, committedAt: int, expiresAt: int)

  /** `first` tells a first commit from a repeated one. */
  datatype Reply = Done(response: Response, first: bool) | Rejected(error: ErrorCode)

  /** The answer carries the row's code and times. */
  predicate Answers(r: Reply, row: Row, first: bool) {
    && r.Done? && r.first == first
    && row.code == Some(r.response.code) && row.committedAt == Some(r.response.committedAt) && row.expiresAt == Some(r.response.expiresAt)
  }

  function ResponseOf(r: Row): Response
    requires r.code.Some? && r.committedAt.Some? && r.expiresAt.Some?
  {
    Response(r.code.value, r.committedAt.value, r.expiresAt.value)
  }

  // The manifest

  function FileCount(entries: seq<Entry>): nat {
    if entries == [] then 0
    else FileCount(entries[..|entries| - 1]) + (if entries[|entries| - 1].kind.FileEntry? then 1 else 0)
  }

  method CountFiles(entries: seq<Entry>) returns (n: int)
    ensures n == FileCount(entries)
  {
    n := 0;
    for i := 0 to |entries|
      invariant n == FileCount(entries[..i])
    {
      assert entries[..i + 1][..i] == entries[..i];
      if entries[i].kind.FileEntry? {
        n := n + 1;
      }
    }
    assert entries[..|entries|] == entries;
  }

  predicate WithinLimits(l: Limits, m: Manifest) {
    && FileCount(m.entries) <= l.maxFiles
    && ByteLen(m.note) <= l.maxNoteBytes
    && (l.maxTransferBytes > 0 ==> TotalBytes(m.entries) <= l.maxTransferBytes)
  }

  predicate ManifestAccepted(l: Limits, id: string, m: Manifest) {
    m.transferId == id && Valid(m) && WithinLimits(l, m)
  }

  method CheckManifest(l: Limits, id: string, m: Manifest) returns (problem: Option<ErrorCode>)
    ensures problem.None? <==> ManifestAccepted(l, id, m)
    ensures m.transferId != id ==> problem == Some(InvalidRequest)
    ensures m.transferId == id && Valid(m) && problem.Some? ==>
              problem.value == if FileCount(m.entries) > l.maxFiles then TooManyFiles
                               else if ByteLen(m.note) > l.maxNoteBytes then InvalidRequest
                               else PayloadTooLarge
  {
    hide Valid, FileCount, TotalBytes, ByteLen;
    if m.transferId != id {
      return Some(InvalidRequest);
    }
    problem := Validate(m);
    if problem.Some? {
      return;
    }
    var files := CountFiles(m.entries);
    if files > l.maxFiles {
      return Some(TooManyFiles);
    }
    if ByteLen(m.note) > l.maxNoteBytes {
      return Some(InvalidRequest);
    }
    var total := CountBytes(m);
    if l.maxTransferBytes > 0 && total > l.maxTransferBytes {
      return Some(PayloadTooLarge);
    }
  }

  // The segments

  /** A declared segment is the one that was created, and it was received whole. */
  predicate SegmentAgrees(s: Segment, row: SegmentRow, bytes: Bytes) {
    && row.kind == s.kind
    && row.expected == s.wireSize
    && row.received == row.expected
    && |bytes| == s.wireSize
    && Blake3(bytes) == s.digest
    && (row.expectedDigest.Some? ==> row.expectedDigest.value == s.digest)
  }

  predicate AgreesAt(rows: map<string, SegmentRow>, staged: map<string, Bytes>, s: Segment) {
    s.id in rows && s.id in staged && SegmentAgrees(s, rows[s.id], staged[s.id])
  }

  predicate SegmentsAgree(m: Manifest, rows: map<string, SegmentRow>, staged: map<string, Bytes>) {
    |rows| == |m.segments| && forall k | 0 <= k < |m.segments| :: AgreesAt(rows, staged, m.segments[k])
  }

  method CheckSegment(rows: map<string, SegmentRow>, staged: map<string, Bytes>, s: Segment) returns (problem: Option<ErrorCode>)
    ensures problem.None? <==> AgreesAt(rows, staged, s)
    ensures s.id !in rows ==> problem == Some(InvalidRequest)
    ensures s.id in rows && rows[s.id].kind == s.kind && rows[s.id].expected == s.wireSize ==>
              if s.id !in staged || rows[s.id].received != rows[s.id].expected then problem == Some(StateConflict)
              else if |staged[s.id]| != s.wireSize || Blake3(staged[s.id]) != s.digest then problem == Some(HashMismatch)
              else problem != Some(HashMismatch)
  {
    problem := None;
    if s.id !in rows {
      return Some(InvalidRequest);
    }
    var row := rows[s.id];
    if row.kind != s.kind || row.expected != s.wireSize {
      return Some(InvalidRequest);
    }
    if row.received != row.expected || s.id !in staged {
      return Some(StateConflict);
    }
    if |staged[s.id]| != s.wireSize || Blake3(staged[s.id]) != s.digest {
      return Some(HashMismatch);
    }
    if row.expectedDigest.Some? && row.expectedDigest.value != s.digest {
      return Some(InvalidRequest);
    }
  }

  method CheckSegments(m: Manifest, rows: map<string, SegmentRow>, staged: map<string, Bytes>) returns (problem: Option<ErrorCode>)
    requires |rows| == |m.segments|
    ensures problem.None? <==> SegmentsAgree(m, rows, staged)
  {
    hide AgreesAt;
    for k := 0 to |m.segments|
      invariant forall i | 0 <= i < k :: AgreesAt(rows, staged, m.segments[i])
    {
      problem := CheckSegment(rows, staged, m.segments[k]);
      if problem.Some? {
        return;
      }
    }
    problem := None;
  }

  lemma {:induction false} DistinctIdsCount(segments: seq<Segment>)
    requires forall i, j | 0 <= i < j < |segments| :: segments[i].id != segments[j].id
    ensures |P.SegmentIds(segments)| == |segments|
  {
    if segments != [] {
      var n := |segments| - 1;
      DistinctIdsCount(segments[..n]);
      assert segments == segments[..n] + [segments[n]];
      assert P.SegmentIds(segments) == P.SegmentIds(segments[..n]) + {segments[n].id};
      assert segments[n].id !in P.SegmentIds(segments[..n]);
    }
  }

  /** Equal counts, distinct identifiers and a one-way lookup make the declared and
      the stored segments correspond one to one, and every staged byte is vouched
      for by its declared digest. */
  lemma AgreementIsBijection(m: Manifest, rows: map<string, SegmentRow>, staged: map<string, Bytes>)
    requires Valid(m) && SegmentsAgree(m, rows, staged)
    ensures rows.Keys == P.SegmentIds(m.segments)
    ensures W.StagedVerified(m, staged)
    ensures forall k | 0 <= k < |m.segments| ::
              var s, row := m.segments[k], rows[m.segments[k].id];
              && row.kind == s.kind && row.expected == row.received == s.wireSize == |staged[s.id]| && s.digest == Blake3(staged[s.id])
              && (row.expectedDigest.None? || row.expectedDigest == Some(s.digest))
    ensures staged != map[]
  {
    hide ValidHeader, ValidRoots, ValidEntries, AllReferenced, ValidSegment;
    DistinctIdsCount(m.segments);
    assert forall k | 0 <= k < |m.segments| :: AgreesAt(rows, staged, m.segments[k]);
    X.SubsetSize(P.SegmentIds(m.segments), rows.Keys);
    assert AgreesAt(rows, staged, m.segments[0]);
  }

  // Steps

  ghost method StepBegin(svc: Service, id: string)
    requires svc.Valid() && svc.ready && PhaseOf(svc.Current(), id).Idle? && Open(svc.Current(), id)
    modifies svc`phases, svc`history
    ensures svc.Valid() && old(svc.history) <= svc.history
    ensures svc.Current() == Enter(old(svc.Current()), id, Working)
  {
    hide IsRun, Coherent;
    ghost var before := svc.Current();
    svc.phases := svc.phases[id := Working];
    svc.Record(before, Send(id, Begin));
  }

  ghost method StepRelease(svc: Service, id: string)
    requires svc.Valid() && svc.ready && PhaseOf(svc.Current(), id).Working?
    modifies svc`phases, svc`history
    ensures svc.Valid() && old(svc.history) <= svc.history
    ensures svc.Current() == Enter(old(svc.Current()), id, Idle)
  {
    hide IsRun, Coherent;
    ghost var before := svc.Current();
    svc.phases := svc.phases[id := Idle];
    svc.Record(before, Send(id, Release));
  }

  /** Making the folder for verification trees recreates a missing staging directory. */
  method StepMakeOutboards(svc: Service, id: string)
    requires svc.Valid() && svc.ready && PhaseOf(svc.Current(), id).Working? && Open(svc.Current(), id)
    modifies svc, svc.store, svc.layout, svc.manifests
    ensures svc.Valid() && old(svc.history) <= svc.history
    ensures svc.Current() == if id in old(svc.layout.staging) then old(svc.Current()) else OnStaging(old(svc.Current()), id, EMPTY_DIR)
  {
    hide IsRun, Coherent;
    ghost var before := svc.Current();
    if id !in svc.layout.staging {
      svc.layout.PrepareStaging(id);
    }
    svc.Record(before, Send(id, MakeOutboards));
  }

  method StepSetVerifying(svc: Service, id: string)
    requires svc.Valid() && svc.ready && EnabledSend(svc.Current(), id, SetVerifying)
    modifies svc, svc.store, svc.layout, svc.manifests
    ensures svc.Valid() && old(svc.history) <= svc.history
    ensures svc.Current() == Enter(OnRows(old(svc.Current()), WithState(old(svc.store.rows), id, Verifying)), id, Materializing)
  {
    hide IsRun, Coherent;
    ghost var before := svc.Current();
    svc.store.SetState(id, Verifying);
    svc.phases := svc.phases[id := Materializing];
    svc.Record(before, Send(id, SetVerifying));
  }

  /** Replaces the staging directory by what materialization made of it. A crash on
      the way leaves some other directory under a VERIFYING row. */
  method StepMaterialize(svc: Service, id: string, dir: Dir)
    requires svc.Valid() && svc.ready && PhaseOf(svc.Current(), id).Materializing?
    modifies svc, svc.store, svc.layout, svc.manifests
    ensures svc.Valid() && old(svc.history) <= svc.history
    ensures svc.Current() == OnStaging(old(svc.Current()), id, dir)
  {
    hide IsRun, Coherent;
    ghost var before := svc.Current();
    svc.layout.PutStaging(id, dir);
    svc.Record(before, Send(id, Materialize(dir)));
  }

  method StepFail(svc: Service, id: string, error: ErrorCode)
    requires svc.Valid() && svc.ready && PhaseOf(svc.Current(), id).Materializing?
    modifies svc, svc.store, svc.layout, svc.manifests
    ensures svc.Valid() && old(svc.history) <= svc.history
    ensures svc.Current() == Enter(OnRows(old(svc.Current()), WithFailure(old(svc.store.rows), id, error)), id, Idle)
  {
    hide IsRun, Coherent;
    ghost var before := svc.Current();
    svc.store.Fail(id, error);
    svc.phases := svc.phases[id := Idle];
    svc.Record(before, Send(id, FailCommit(error)));
  }

  // Outcomes

  /** The commit went through, or no code was free after the rename: the row, the
      live directory and the answer are the ones the request asked for. */
  predicate Went(id: string, m: Manifest, ttl: int, at: int, codes: seq<string>, rows0: Rows, rows: Rows, live0: Dirs, live: Dirs, r: Reply) {
    && id in rows0 && id in live
    && (var p := PublishedAs(id, m, ttl, at, codes, rows0);
        && rows == AfterPublish(rows0[id := rows0[id].(state := Verifying, note := m.note, ttl := ttl)], id, p)
        && (p.Published? ==> IsCommitted(p.row) && RecordsAsk(p.row, Ask(W.WithPaths(m), ttl, m.note)) && r == Done(ResponseOf(p.row), true))
        && (p.Refused? ==> r == Rejected(p.error)))
    && live == live0[id := live[id]]
    && live[id].manifest == Some(W.WithPaths(m)) && Matches(live[id], W.WithPaths(m)) && P.Built(live[id].payload, m.entries)
  }

  function PublishedAs(id: string, m: Manifest, ttl: int, at: int, codes: seq<string>, rows0: Rows): Publication
    requires id in rows0
  {
    Publish(rows0[id := rows0[id].(state := Verifying, note := m.note, ttl := ttl)], id, at, ttl, W.WithPaths(m), TotalBytes(m.entries), codes)
  }

  /** Materialization refused the transfer, for good. */
  predicate Refuted(id: string, rows0: Rows, rows: Rows, live0: Dirs, live: Dirs, r: Reply) {
    r.Rejected? && live == live0 && id in rows0 && rows == rows0[id := rows0[id].(state := Failed, lastError := Some(r.error))]
  }

  ghost predicate Materializes(codec: P.Codec, m: Manifest, dir: Dir) {
    P.Supplied(codec, m, dir.segments) && P.Treelike(m.entries)
  }

  lemma InvNow(svc: Service)
    requires svc.Valid() && Inv(svc.cfg, svc.history[0])
    ensures Inv(svc.cfg, svc.Current())
  {
    hide Inv, IsRun;
    assert |svc.history| > 0 by { RunNotEmpty(svc.cfg, svc.history); }
    RunKeepsInv(svc.cfg, svc.history, |svc.history| - 1);
  }

  lemma RunNotEmpty(c: Config, run: seq<Sys>)
    requires IsRun(c, run)
    ensures |run| > 0
  {
  }

  lemma MayStartPublish(c: Config, s: Sys, id: string, m: Manifest, ttl: int, note: string)
    requires s.up && PhaseOf(s, id).Materializing? && id in s.disk.staging && Matches(s.disk.staging[id], m)
    requires ttl == EffectiveTTL(c, ttl)
    ensures CanStep(c, s, id, StartPublish(Ask(m, ttl, note)))
  {
    hide Matches;
  }

  lemma VerifyingTwice(rows: Rows, id: string, note: string, ttl: int, error: ErrorCode)
    requires id in rows
    ensures var v := WithState(rows, id, Verifying);
            && id in v
            && v[id := v[id].(state := Verifying, note := note, ttl := ttl)] == rows[id := rows[id].(state := Verifying, note := note, ttl := ttl)]
            && WithFailure(v, id, error) == rows[id := rows[id].(state := Failed, lastError := Some(error))]
  {
  }

  lemma SameStart(svc: Service, earlier: seq<Sys>)
    requires svc.Valid() && earlier <= svc.history && IsRun(svc.cfg, earlier) && Inv(svc.cfg, earlier[0])
    ensures Inv(svc.cfg, svc.Current())
  {
    hide Inv, IsRun;
    RunNotEmpty(svc.cfg, earlier);
    assert svc.history[0] == earlier[0];
    InvNow(svc);
  }

  /** Marks the transfer VERIFYING and materializes it in its staging directory. */
  method Rebuild(svc: Service, codec: P.Codec, id: string, m: Manifest) returns (run: X.Result<M.Output>, dir: Dir)
    requires svc.Valid() && svc.ready
    requires EnabledSend(svc.Current(), id, SetVerifying) && id in svc.layout.staging
    requires Valid(m) && W.StagedVerified(m, svc.layout.staging[id].segments)
    modifies svc, svc.store, svc.layout, svc.manifests
    ensures svc.Valid() && old(svc.history) <= svc.history
    ensures svc.Current() == Rebuilt(old(svc.Current()), id, dir)
    ensures run.Ok? ==> run.value.published == W.WithPaths(m) && Matches(dir, W.WithPaths(m)) && P.Built(dir.payload, m.entries)
    ensures old(svc.layout.staging[id].payload) == map[] ==> (run.Ok? <==> Materializes(codec, m, old(svc.layout.staging[id])))
  {
    hide IsRun, Coherent, Valid, Matches, EnabledSend, P.Supplied, P.Treelike, W.StagedVerified, W.WithPaths;
    StepSetVerifying(svc, id);
    dir, run := M.Run(codec, svc.layout.staging[id], m, svc.now);
    StepMaterialize(svc, id, dir);
  }

  function Rebuilt(s: Sys, id: string, dir: Dir): Sys {
    OnStaging(Enter(OnRows(s, WithState(s.disk.rows, id, Verifying)), id, Materializing), id, dir)
  }

  /** From the VERIFYING mark to the answer. */
  method MaterializeAndPublish(svc: Service, codec: P.Codec, id: string, m: Manifest, ttl: int, codes: seq<string>) returns (r: Reply)
    requires svc.Valid() && svc.ready && Inv(svc.cfg, svc.history[0]) && |codes| == MAX_CODE_DRAWS
    requires EnabledSend(svc.Current(), id, SetVerifying) && id in svc.store.rows && id in svc.layout.staging
    requires Valid(m) && W.StagedVerified(m, svc.layout.staging[id].segments)
    requires ttl == EffectiveTTL(svc.cfg, ttl)
    modifies svc, svc.store, svc.layout, svc.manifests
    ensures svc.Valid() && old(svc.history) <= svc.history && svc.ready && svc.now == old(svc.now)
    ensures || Went(id, m, ttl, Unix(svc.now), codes, old(svc.store.rows), svc.store.rows, old(svc.layout.live), svc.layout.live, r)
            || Refuted(id, old(svc.store.rows), svc.store.rows, old(svc.layout.live), svc.layout.live, r)
    ensures old(svc.layout.staging[id].payload) == map[] ==>
              (Materializes(codec, m, old(svc.layout.staging[id])) ==>
                 Went(id, m, ttl, Unix(svc.now), codes, old(svc.store.rows), svc.store.rows, old(svc.layout.live), svc.layout.live, r))
    ensures old(svc.layout.staging[id].payload) == map[] ==>
              (!Materializes(codec, m, old(svc.layout.staging[id])) ==>
                 Refuted(id, old(svc.store.rows), svc.store.rows, old(svc.layout.live), svc.layout.live, r))
    ensures r.Done? ==> id in svc.store.rows && Answers(r, svc.store.rows[id], true) && DatedAt(svc.store.rows[id], svc.now, ttl)
  {
    hide IsRun, Inv, Coherent, Valid, Matches, EnabledSend, Materializes, W.StagedVerified, CanStep, W.WithPaths, P.Built;
    ghost var rows0, before := svc.store.rows, svc.history;
    var run, dir := Rebuild(svc, codec, id, m);
    if run.Err? {
      VerifyingTwice(rows0, id, m.note, ttl, run.error);
      StepFail(svc, id, run.error);
      return Rejected(run.error);
    }
    SameStart(svc, before);
    MayStartPublish(svc.cfg, svc.Current(), id, run.value.published, ttl, m.note);
    VerifyingTwice(rows0, id, m.note, ttl, InternalError);
    ManifestAside(dir, W.WithPaths(m));
    r := Announce(svc, id, run.value.published, ttl, m.note, codes);
  }

  /** Writing the manifest file leaves what it describes alone. */
  lemma ManifestAside(dir: Dir, m: Manifest)
    requires Matches(dir, m)
    ensures Matches(dir.(manifest := Some(m)), m)
  {
    hide Valid;
    var d := dir.(manifest := Some(m));
    forall k | 0 <= k < |m.segments|
      ensures Serves(d, m.segments[k])
    {
      assert Serves(dir, m.segments[k]);
      assert Stored(d, m.segments[k].storagePath) == Stored(dir, m.segments[k].storagePath);
    }
  }

  /** Publishes and answers. */
  method Announce(svc: Service, id: string, m: Manifest, ttl: int, note: string, codes: seq<string>) returns (r: Reply)
    requires svc.Valid() && Inv(svc.cfg, svc.Current()) && |codes| == MAX_CODE_DRAWS
    requires CanStep(svc.cfg, svc.Current(), id, StartPublish(Ask(m, ttl, note)))
    modifies svc, svc.store, svc.layout, svc.manifests
    ensures svc.Valid() && old(svc.history) <= svc.history && svc.ready && svc.now == old(svc.now)
    ensures id in old(svc.store.rows) && id in old(svc.layout.staging)
    ensures svc.layout.live == old(svc.layout.live)[id := old(svc.layout.staging)[id].(manifest := Some(m))]
    ensures var rows := old(svc.store.rows)[id := old(svc.store.rows)[id].(state := Verifying, note := note, ttl := ttl)];
            var p := Publish(rows, id, Unix(svc.now), ttl, m, TotalBytes(m.entries), codes);
            && svc.store.rows == AfterPublish(rows, id, p)
            && (p.Published? ==> IsCommitted(p.row) && RecordsAsk(p.row, Ask(m, ttl, note)) && r == Done(ResponseOf(p.row), true))
            && (p.Refused? ==> r == Rejected(p.error))
    ensures r.Done? ==> id in svc.store.rows && Answers(r, svc.store.rows[id], true) && DatedAt(svc.store.rows[id], svc.now, ttl)
  {
    hide IsRun, Inv, Coherent, CanStep, TotalBytes;
    var p := svc.PublishTransfer(id, m, ttl, note, codes);
    if p.Published? {
      r := Done(ResponseOf(p.row), true);
    } else {
      r := Rejected(p.error);
    }
  }

  // Commit

  function StagedFor(staging: Dirs, id: string): Dir {
    if id in staging then staging[id] else EMPTY_DIR
  }

  /** Everything the server checks before it materializes. */
  predicate Admissible(l: Limits, id: string, m: Manifest, row: Row, dir: Dir) {
    ManifestAccepted(l, id, m) && SegmentsAgree(m, row.segments, dir.segments)
  }

  lemma CommittedHasColumns(c: Config, s: Sys, id: string)
    requires Inv(c, s) && id in s.disk.rows && IsCommitted(s.disk.rows[id])
    ensures s.disk.rows[id].committedAt.Some? && s.disk.rows[id].expiresAt.Some?
  {
    hide Complete, RecordsAsk;
    assert CellOK(c, View(s, id));
  }

  lemma TTLSettles(c: Config, ttl: int)
    ensures EffectiveTTL(c, EffectiveTTL(c, ttl)) == EffectiveTTL(c, ttl)
  {
  }

  /** Only a request of zero gets the default. */
  lemma AskedOrDefault(c: Config, ttl: int)
    ensures EffectiveTTL(c, ttl) == if ttl != 0 then ttl else c.defaultTTL
  {
  }

  lemma MaySetVerifying(s: Sys, id: string)
    requires PhaseOf(s, id).Working? && Open(s, id) && id in s.disk.staging && s.disk.staging[id].segments != map[]
    ensures EnabledSend(s, id, SetVerifying)
  {
  }

  /** The part of a commit that touches the transfer. */
  method CommitOpen(svc: Service, codec: P.Codec, id: string, m: Manifest, row: Row, codes: seq<string>) returns (r: Reply)
    requires svc.Valid() && svc.ready && Inv(svc.cfg, svc.history[0]) && |codes| == MAX_CODE_DRAWS
    requires PhaseOf(svc.Current(), id).Idle? && id in svc.store.rows && svc.store.rows[id] == row && PreCommit(row.state)
    requires Valid(m) && |row.segments| == |m.segments|
    modifies svc, svc.store, svc.layout, svc.manifests
    ensures svc.Valid() && old(svc.history) <= svc.history && svc.ready && svc.now == old(svc.now)
    ensures !SegmentsAgree(m, row.segments, StagedFor(old(svc.layout.staging), id).segments) ==>
              r.Rejected? && svc.store.rows == old(svc.store.rows) && svc.layout.live == old(svc.layout.live)
    ensures SegmentsAgree(m, row.segments, StagedFor(old(svc.layout.staging), id).segments) ==>
              Concluded(codec, id, m, EffectiveTTL(svc.cfg, row.ttl), Unix(svc.now), codes, StagedFor(old(svc.layout.staging), id),
                        old(svc.store.rows), svc.store.rows, old(svc.layout.live), svc.layout.live, r)
    ensures r.Done? ==>
              && id in svc.store.rows && Answers(r, svc.store.rows[id], true)
              && DatedAt(svc.store.rows[id], svc.now, if row.ttl != 0 then row.ttl else svc.cfg.defaultTTL)
  {
    hide IsRun, Inv, Coherent, Valid, Matches, EnabledSend, Materializes, W.StagedVerified, SegmentsAgree, Went, Refuted, EffectiveTTL;
    hide Answers, DatedAt;
    AskedOrDefault(svc.cfg, row.ttl);
    ghost var before := svc.history;
    RunNotEmpty(svc.cfg, before);
    StepBegin(svc, id);
    StepMakeOutboards(svc, id);
    var dir := svc.layout.staging[id];
    var problem := CheckSegments(m, row.segments, dir.segments);
    if problem.Some? {
      StepRelease(svc, id);
      return Rejected(problem.value);
    }
    AgreementIsBijection(m, row.segments, dir.segments);
    MaySetVerifying(svc.Current(), id);
    TTLSettles(svc.cfg, row.ttl);
    assert svc.history[0] == before[0];
    r := MaterializeAndPublish(svc, codec, id, m, EffectiveTTL(svc.cfg, row.ttl), codes);
  }

  /** It went through or was refuted; from an empty payload, the staged bytes decide which. */
  ghost predicate Concluded(codec: P.Codec, id: string, m: Manifest, ttl: int, at: int, codes: seq<string>, dir: Dir,
                            rows0: Rows, rows: Rows, live0: Dirs, live: Dirs, r: Reply) {
    && (Went(id, m, ttl, at, codes, rows0, rows, live0, live, r) || Refuted(id, rows0, rows, live0, live, r))
    && (dir.payload == map[] && Materializes(codec, m, dir) ==> Went(id, m, ttl, at, codes, rows0, rows, live0, live, r))
    && (dir.payload == map[] && !Materializes(codec, m, dir) ==> Refuted(id, rows0, rows, live0, live, r))
  }

  /** The columns of a first commit, its code and times apart. */
  predicate RowCommitted(before: Row, row: Row, m: Manifest) {
    && row.state == State.Committed && row.note == m.note && row.manifestDigest == Some(W.WithPaths(m))
    && row.materializedBytes == TotalBytes(m.entries) && row.reservedBytes == 0
    && row.createdAt == before.createdAt && row.segments == before.segments && row.wireBytes == before.wireBytes
  }

  lemma DoneIsCommitted(codec: P.Codec, id: string, m: Manifest, ttl: int, now: int, codes: seq<string>, dir: Dir,
                        rows0: Rows, rows: Rows, live0: Dirs, live: Dirs, r: Reply)
    requires Concluded(codec, id, m, ttl, Unix(now), codes, dir, rows0, rows, live0, live, r) && r.Done?
    ensures id in rows0 && id in rows && RowCommitted(rows0[id], rows[id], m)
    ensures id in live && AllThere(live[id]) && live[id].manifest == rows[id].manifestDigest
    ensures forall j | j in rows && j != id :: j in rows0 && rows[j] == rows0[j]
  {
    hide Materializes, Matches, TotalBytes, W.WithPaths, FirstFree, CodeTaken, P.Built, RecordsAsk, AllThere;
    var asking := rows0[id := rows0[id].(state := Verifying, note := m.note, ttl := ttl)];
    PublishesInNumbers(asking, id, now, ttl, W.WithPaths(m), TotalBytes(m.entries), codes);
    CompleteIsAllThere(live[id]);
  }

  /** Commits a transfer nothing else is working on. A repeated commit returns the
      stored answer and changes nothing. */
  method CommitTransfer(svc: Service, codec: P.Codec, l: Limits, id: string, m: Manifest, codes: seq<string>) returns (r: Reply)
    requires svc.Valid() && svc.ready && Inv(svc.cfg, svc.history[0]) && |codes| == MAX_CODE_DRAWS
    requires PhaseOf(svc.Current(), id).Idle?
    modifies svc, svc.store, svc.layout, svc.manifests
    ensures svc.Valid() && old(svc.history) <= svc.history && svc.ready && svc.now == old(svc.now)
    ensures id !in old(svc.store.rows) ==> r == Rejected(TransferNotFound) && svc.Current() == old(svc.Current())
    ensures id in old(svc.store.rows) && IsCommitted(old(svc.store.rows)[id]) ==>
              && old(svc.store.rows)[id].committedAt.Some? && old(svc.store.rows)[id].expiresAt.Some?
              && r == Done(ResponseOf(old(svc.store.rows)[id]), false) && svc.Current() == old(svc.Current())
    ensures id in old(svc.store.rows) && !IsCommitted(old(svc.store.rows)[id]) && !PreCommit(old(svc.store.rows)[id].state) ==>
              r == Rejected(StateConflict) && svc.Current() == old(svc.Current())
    ensures id in old(svc.store.rows) && PreCommit(old(svc.store.rows)[id].state) &&
            !Admissible(l, id, m, old(svc.store.rows)[id], StagedFor(old(svc.layout.staging), id)) ==>
              r.Rejected? && svc.store.rows == old(svc.store.rows) && svc.layout.live == old(svc.layout.live)
    ensures id in old(svc.store.rows) && PreCommit(old(svc.store.rows)[id].state) &&
            Admissible(l, id, m, old(svc.store.rows)[id], StagedFor(old(svc.layout.staging), id)) ==>
              Concluded(codec, id, m, EffectiveTTL(svc.cfg, old(svc.store.rows)[id].ttl), Unix(svc.now), codes,
                        StagedFor(old(svc.layout.staging), id),
                        old(svc.store.rows), svc.store.rows, old(svc.layout.live), svc.layout.live, r)
    ensures r.Done? ==> id in old(svc.store.rows) && id in svc.store.rows && Answers(r, svc.store.rows[id], r.first)
    ensures r.Done? && r.first ==>
              && RowCommitted(old(svc.store.rows)[id], svc.store.rows[id], m)
              && id in svc.layout.live && AllThere(svc.layout.live[id]) && svc.layout.live[id].manifest == svc.store.rows[id].manifestDigest
              && (forall j | j in svc.store.rows && j != id :: j in old(svc.store.rows) && svc.store.rows[j] == old(svc.store.rows)[j])
    ensures r.Done? && r.first ==>
              DatedAt(svc.store.rows[id], svc.now, if old(svc.store.rows)[id].ttl != 0 then old(svc.store.rows)[id].ttl else svc.cfg.defaultTTL)
    ensures r.Done? ==>
              (r.first <==> !(old(svc.store.rows)[id].state == State.Committed && old(svc.store.rows)[id].code.Some?))
  {
    hide IsRun, Inv, Coherent, Valid, WithinLimits, Concluded, SegmentAgrees, EffectiveTTL, RowCommitted, AllThere;
    var found := svc.store.GetTransfer(id);
    if found.None? {
      return Rejected(TransferNotFound);
    }
    var row := found.value;
    if row.state.Committed? && row.code.Some? {
      InvNow(svc);
      CommittedHasColumns(svc.cfg, svc.Current(), id);
      return Done(ResponseOf(row), false);
    }
    if !row.state.Created? && !row.state.Uploading? && !row.state.Verifying? {
      return Rejected(StateConflict);
    }
    var problem := CheckManifest(l, id, m);
    if problem.Some? {
      return Rejected(problem.value);
    }
    if |row.segments| != |m.segments| {
      return Rejected(InvalidRequest);
    }
    ghost var rows0, live0, dir := svc.store.rows, svc.layout.live, StagedFor(svc.layout.staging, id);
    r := CommitOpen(svc, codec, id, m, row, codes);
    if r.Done? && SegmentsAgree(m, row.segments, dir.segments) {
      DoneIsCommitted(codec, id, m, EffectiveTTL(svc.cfg, row.ttl), svc.now, codes, dir, rows0, svc.store.rows, live0, svc.layout.live, r);
    }
  }
}
