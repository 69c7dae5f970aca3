/** Placing the staged segments: a raw segment becomes its file, a pack is kept and
    extracted. */
module Placing {
  import opened Outcomes
  import opened Protocol
  import opened Validation
  import opened Storage
  import opened Trees
  import opened Payloads
  import opened Extracting

  // Which entries a segment backs

  lemma SamePathSameEntry(entries: seq<Entry>, a: Entry, b: Entry)
    requires DistinctPaths(entries) && a in entries && b in entries && a.path == b.path
    ensures a == b
  {
    var i :| 0 <= i < |entries| && entries[i] == a;
    var j :| 0 <= j < |entries| && entries[j] == b;
  }

  /** A raw segment of a valid manifest backs exactly one file, whole. */
  lemma RawList(m: Manifest, k: nat)
    requires Valid(m) && k < |m.segments| && m.segments[k].kind.Raw?
    ensures var list := EntriesOf(m.entries, m.segments[k].id);
            && |list| == 1
            && list[0].size == m.segments[k].wireSize
            && list[0].digest == m.segments[k].digest
  {
    hide Valid;
    var id := m.segments[k].id;
    var list := EntriesOf(m.entries, id);
    var i := RawSegmentBacksOneFile(m, k);
    EntriesOfAre(m.entries, id);
    ValidPathsDistinct(m);
    EntriesOfDistinct(m.entries, id);
    assert |list| <= 1 || list[0].path != list[1].path;
    assert m.entries[i] in list;
    forall e | e in list
      ensures e == m.entries[i]
    {
      var j :| 0 <= j < |m.entries| && m.entries[j] == e;
    }
  }

  /** Different segments write different paths. */
  lemma SegmentsApart(entries: seq<Entry>, a: string, b: string)
    requires DistinctPaths(entries) && a != b
    ensures PathsOf(EntriesOf(entries, a)) !! PathsOf(EntriesOf(entries, b))
  {
    EntriesOfAre(entries, a);
    EntriesOfAre(entries, b);
    forall e, f | e in EntriesOf(entries, a) && f in EntriesOf(entries, b)
      ensures e.path != f.path
    {
      assert e.path == f.path ==> e == f by {
        if e.path == f.path {
          SamePathSameEntry(entries, e, f);
        }
      }
    }
  }

  lemma WrittenBy(entries: seq<Entry>, id: string)
    ensures Written(entries, {id}) == PathsOf(EntriesOf(entries, id))
  {
    EntriesOfAre(entries, id);
    var list := EntriesOf(entries, id);
    forall p | p in PathsOf(list)
      ensures p in Written(entries, {id})
    {
      var e :| e in list && e.path == p;
      var i :| 0 <= i < |entries| && entries[i] == e;
    }
    forall p | p in Written(entries, {id})
      ensures p in PathsOf(list)
    {
      var i :| 0 <= i < |entries| && entries[i].kind.FileEntry? && entries[i].segmentId == id && entries[i].path == p;
      assert entries[i] in list;
    }
  }

  lemma WrittenGrows(entries: seq<Entry>, ids: set<string>, id: string)
    ensures Written(entries, ids + {id}) == Written(entries, ids) + Written(entries, {id})
  {
  }

  // One segment

  /** The segment has its shape, and every file it backs holds what it carries. */
  predicate Delivered(codec: Codec, seg: Segment, bytes: Bytes, declared: seq<Entry>, t: Tree) {
    && Shaped(codec, seg, bytes, declared)
    && forall i | 0 <= i < |declared| :: FileCarries(codec, seg, bytes, declared[i].path, t)
  }

  predicate FileCarries(codec: Codec, seg: Segment, bytes: Bytes, p: string, t: Tree) {
    p in t && t[p].File? && Carries(codec, seg, bytes, p, t[p].data)
  }

  lemma DeliveredStays(codec: Codec, seg: Segment, bytes: Bytes, declared: seq<Entry>, t: Tree, t': Tree, w: set<string>)
    requires Delivered(codec, seg, bytes, declared, t) && OnlyAt(t, t', w) && PathsOf(declared) !! w
    ensures Delivered(codec, seg, bytes, declared, t')
  {
    hide Shaped, Carries;
    forall i | 0 <= i < |declared|
      ensures FileCarries(codec, seg, bytes, declared[i].path, t')
    {
      assert FileCarries(codec, seg, bytes, declared[i].path, t);
      assert declared[i].path in PathsOf(declared);
    }
  }

  lemma PackDelivered(codec: Codec, seg: Segment, bytes: Bytes, declared: seq<Entry>, t: Tree, ms: seq<Member>)
    requires !seg.kind.Raw? && codec.decode(bytes) == Some(ms)
    requires Listed(ms, declared) && forall k | 0 <= k < |ms| :: HasFile(t, ms[k].name, ms[k].data)
    ensures Delivered(codec, seg, bytes, declared, t)
  {
    forall i | 0 <= i < |declared|
      ensures FileCarries(codec, seg, bytes, declared[i].path, t)
    {
      assert Contains(ms, declared[i].path);
      var k :| 0 <= k < |ms| && ms[k].name == declared[i].path;
      assert HasFile(t, ms[k].name, ms[k].data);
    }
  }

  /** Where the bytes of a segment are kept. */
  function PublishSegment(entries: seq<Entry>, s: Segment): Segment {
    if s.kind.Raw? then
      var list := EntriesOf(entries, s.id);
      if list == [] then s else s.(storagePath := PAYLOAD_PREFIX + list[0].path)
    else
      s.(storagePath := PACKS_PREFIX + s.id)
  }

  predicate KeptPack(s: Segment, bytes: Bytes, packs: map<string, Bytes>) {
    s.kind.Raw? || (s.id in packs && packs[s.id] == bytes)
  }

  /** Places one segment. */
  method PlaceOne(codec: Codec, seg: Segment, bytes: Bytes, declared: seq<Entry>, t0: Tree, packs0: map<string, Bytes>, now: int)
    returns (t: Tree, packs: map<string, Bytes>, path: string, failure: Option<ErrorCode>)
    requires DistinctPaths(declared) && Portable(declared) && (seg.kind.Raw? ==> |declared| == 1)
    requires !seg.kind.OtherKind?
    ensures OnlyAt(t0, t, PathsOf(declared)) && (Proper(t0) ==> Proper(t))
    ensures packs == if seg.kind.Raw? then packs0 else packs0[seg.id := bytes]
    ensures failure.None? ==> Delivered(codec, seg, bytes, declared, t)
    ensures failure.None? ==> path == if seg.kind.Raw? then PAYLOAD_PREFIX + declared[0].path else PACKS_PREFIX + seg.id
    ensures Clear(t0, declared) ==> (failure.None? <==> Shaped(codec, seg, bytes, declared))
  {
    hide PortablePath, Listed, OnlyAt, PutFile, Proper, HasFile;
    t, packs, path, failure := t0, packs0, "", None;
    if seg.kind.Raw? {
      PutFilePuts(t0, declared[0].path, bytes, now);
      NothingWritten(t0, PathsOf(declared));
      var put := PutFile(t0, declared[0].path, bytes, now);
      if put.None? {
        failure := Some(InternalError);
        return;
      }
      t := put.value;
      assert PathsOf(declared) == {declared[0].path};
      path := PAYLOAD_PREFIX + declared[0].path;
    } else {
      packs := packs0[seg.id := bytes];
      t, failure := ExtractPack(codec, bytes, t0, declared, now);
      if failure.None? {
        PackDelivered(codec, seg, bytes, declared, t, codec.decode(bytes).value);
        path := PACKS_PREFIX + seg.id;
      }
    }
  }

  // All segments

  /** The file of every entry can be created. */
  predicate Open(t: Tree, entries: seq<Entry>) {
    forall i | 0 <= i < |entries| && entries[i].kind.FileEntry? ::
      entries[i].path != "" && entries[i].path !in t && IsFolder(t, Parent(entries[i].path))
  }

  predicate AllShaped(codec: Codec, m: Manifest, staged: map<string, Bytes>, n: nat)
    requires n <= |m.segments|
  {
    forall k | 0 <= k < n ::
      m.segments[k].id in staged &&
      Shaped(codec, m.segments[k], staged[m.segments[k].id], EntriesOf(m.entries, m.segments[k].id))
  }

  predicate AllDelivered(codec: Codec, m: Manifest, staged: map<string, Bytes>, n: nat, t: Tree)
    requires n <= |m.segments|
  {
    forall k | 0 <= k < n ::
      m.segments[k].id in staged &&
      Delivered(codec, m.segments[k], staged[m.segments[k].id], EntriesOf(m.entries, m.segments[k].id), t)
  }

  predicate AllKept(m: Manifest, staged: map<string, Bytes>, n: nat, packs: map<string, Bytes>)
    requires n <= |m.segments|
  {
    forall k | 0 <= k < n ::
      m.segments[k].id in staged && KeptPack(m.segments[k], staged[m.segments[k].id], packs)
  }

  predicate PublishedTo(m: Manifest, n: nat, published: seq<Segment>)
    requires n <= |m.segments|
  {
    && |published| == |m.segments|
    && (forall k | 0 <= k < n :: published[k] == PublishSegment(m.entries, m.segments[k]))
    && (forall k | n <= k < |m.segments| :: published[k] == m.segments[k])
  }

  datatype Work = Work(payload: Tree, segments: map<string, Bytes>, packs: map<string, Bytes>, published: seq<Segment>)

  /** The first `n` segments are placed, and nothing else happened. */
  predicate Placed(codec: Codec, m: Manifest, n: nat, w0: Work, w: Work)
    requires n <= |m.segments|
  {
    && AllDelivered(codec, m, w0.segments, n, w.payload)
    && AllKept(m, w0.segments, n, w.packs)
    && PublishedTo(m, n, w.published)
    && w.segments == w0.segments - SegmentIds(m.segments[..n])
    && OnlyAt(w0.payload, w.payload, Written(m.entries, SegmentIds(m.segments[..n])))
    && (Proper(w0.payload) ==> Proper(w.payload))
  }

  lemma PlacedStart(codec: Codec, m: Manifest, w0: Work)
    requires w0.published == m.segments
    ensures Placed(codec, m, 0, w0, w0)
  {
    NothingWritten(w0.payload, Written(m.entries, SegmentIds(m.segments[..0])));
    assert w0.segments - SegmentIds(m.segments[..0]) == w0.segments;
  }

  predicate Apt(m: Manifest) {
    && DistinctPaths(m.entries)
    && Portable(m.entries)
    && (forall i, j | 0 <= i < j < |m.segments| :: m.segments[i].id != m.segments[j].id)
  }

  lemma IdsGrow(segments: seq<Segment>, n: nat)
    requires n < |segments|
    ensures SegmentIds(segments[..n + 1]) == SegmentIds(segments[..n]) + {segments[n].id}
  {
  }

  lemma DeliveredSoFarStays(codec: Codec, m: Manifest, staged: map<string, Bytes>, n: nat, t: Tree, t': Tree)
    requires Apt(m) && n < |m.segments| && AllDelivered(codec, m, staged, n, t)
    requires OnlyAt(t, t', PathsOf(EntriesOf(m.entries, m.segments[n].id)))
    ensures AllDelivered(codec, m, staged, n, t')
  {
    hide Delivered, PathsOf, EntriesOf, OnlyAt, DistinctPaths, Portable;
    var id := m.segments[n].id;
    forall k | 0 <= k < n
      ensures Delivered(codec, m.segments[k], staged[m.segments[k].id], EntriesOf(m.entries, m.segments[k].id), t')
    {
      SegmentsApart(m.entries, m.segments[k].id, id);
      DeliveredStays(codec, m.segments[k], staged[m.segments[k].id], EntriesOf(m.entries, m.segments[k].id), t, t',
                     PathsOf(EntriesOf(m.entries, id)));
    }
  }

  lemma PlacedStep(codec: Codec, m: Manifest, n: nat, w0: Work, w: Work, t: Tree, packs: map<string, Bytes>)
    requires Apt(m) && n < |m.segments| && Placed(codec, m, n, w0, w)
    requires m.segments[n].id in w.segments
    requires var s := m.segments[n];
             && var list := EntriesOf(m.entries, s.id);
             && OnlyAt(w.payload, t, PathsOf(list)) && (Proper(w.payload) ==> Proper(t))
             && packs == (if s.kind.Raw? then w.packs else w.packs[s.id := w.segments[s.id]])
             && Delivered(codec, s, w.segments[s.id], list, t)
    ensures Placed(codec, m, n + 1, w0,
                   Work(t, w.segments - {m.segments[n].id}, packs, w.published[n := PublishSegment(m.entries, m.segments[n])]))
  {
    hide Delivered, PathsOf, EntriesOf, OnlyAt, Proper, DistinctPaths, Portable, Written, PublishSegment;
    var s := m.segments[n];
    IdsGrow(m.segments, n);
    WrittenGrows(m.entries, SegmentIds(m.segments[..n]), s.id);
    WrittenBy(m.entries, s.id);
    OnlyAtTransitive(w0.payload, w.payload, t, Written(m.entries, SegmentIds(m.segments[..n])), PathsOf(EntriesOf(m.entries, s.id)));
    DeliveredSoFarStays(codec, m, w0.segments, n, w.payload, t);
    assert w.segments - {s.id} == w0.segments - SegmentIds(m.segments[..n + 1]);
    assert w.segments[s.id] == w0.segments[s.id];
  }

  /** While nothing was in the way at first, nothing is in the way of the next segment. */
  lemma NextIsClear(codec: Codec, m: Manifest, n: nat, w0: Work, w: Work)
    requires Apt(m) && n < |m.segments| && Placed(codec, m, n, w0, w) && Open(w0.payload, m.entries)
    ensures Clear(w.payload, EntriesOf(m.entries, m.segments[n].id))
  {
    hide Portable;
    hide AllDelivered, AllKept, PublishedTo, Proper;
    var id := m.segments[n].id;
    var list := EntriesOf(m.entries, id);
    EntriesOfAre(m.entries, id);
    var ids := SegmentIds(m.segments[..n]);
    forall e | e in list
      ensures e.path != "" && e.path !in w.payload && IsFolder(w.payload, Parent(e.path))
    {
      var i :| 0 <= i < |m.entries| && m.entries[i] == e;
      assert e.path !in Written(m.entries, ids);
    }
  }

  lemma ListApt(m: Manifest, n: nat)
    requires Apt(m) && n < |m.segments|
    ensures DistinctPaths(EntriesOf(m.entries, m.segments[n].id)) && Portable(EntriesOf(m.entries, m.segments[n].id))
  {
    hide PortablePath;
    EntriesOfDistinct(m.entries, m.segments[n].id);
    EntriesOfAre(m.entries, m.segments[n].id);
    var list := EntriesOf(m.entries, m.segments[n].id);
    forall i | 0 <= i < |list|
      ensures PortablePath(list[i].path)
    {
      assert list[i] in list;
      assert list[i] in m.entries;
    }
  }

  lemma ValidIsApt(m: Manifest)
    requires Valid(m)
    ensures Apt(m)
  {
    hide PortablePath, ValidHeader, ValidRoots, UnderRoot, ValidFields;
    ValidPathsDistinct(m);
    forall i | 0 <= i < |m.entries|
      ensures PortablePath(m.entries[i].path)
    {
      assert ValidEntry(m.roots, m.segments, m.entries[i]);
    }
  }

  lemma NoOtherKind(m: Manifest, n: nat)
    requires Valid(m) && n < |m.segments|
    ensures !m.segments[n].kind.OtherKind?
  {
    assert ValidSegment(m.segments[n]);
  }

  lemma DeliveredIsShaped(codec: Codec, m: Manifest, staged: map<string, Bytes>, n: nat, t: Tree)
    requires n <= |m.segments| && AllDelivered(codec, m, staged, n, t)
    ensures AllShaped(codec, m, staged, n)
  {
  }

  lemma NotAllShaped(codec: Codec, m: Manifest, staged: map<string, Bytes>, k: nat)
    requires k < |m.segments|
    requires m.segments[k].id in staged ==>
               !Shaped(codec, m.segments[k], staged[m.segments[k].id], EntriesOf(m.entries, m.segments[k].id))
    ensures !AllShaped(codec, m, staged, |m.segments|)
  {
  }

  lemma StillStaged(codec: Codec, m: Manifest, n: nat, w0: Work, w: Work)
    requires Apt(m) && n < |m.segments| && Placed(codec, m, n, w0, w)
    ensures m.segments[n].id in w.segments <==> m.segments[n].id in w0.segments
    ensures m.segments[n].id in w.segments ==> w.segments[m.segments[n].id] == w0.segments[m.segments[n].id]
    ensures |w.published| == |m.segments| && w.published[n] == m.segments[n]
  {
    assert m.segments[n].id !in SegmentIds(m.segments[..n]);
  }

  /** Places every segment in turn. With nothing in the way it succeeds exactly when
      every segment is there in its shape. */
  method PlaceSegments(codec: Codec, m: Manifest, index: map<string, seq<Entry>>, w0: Work, now: int)
    returns (w: Work, failure: Option<ErrorCode>)
    requires Valid(m) && w0.published == m.segments
    requires forall id :: EntriesOf(m.entries, id) == if id in index then index[id] else []
    ensures failure.None? ==> Placed(codec, m, |m.segments|, w0, w)
    ensures Open(w0.payload, m.entries) ==> (failure.None? <==> AllShaped(codec, m, w0.segments, |m.segments|))
  {
    hide Valid, Placed, Open, AllShaped, Shaped, Delivered, Clear, OnlyAt, Proper, PathsOf, Apt, DistinctPaths, Portable;
    hide EntriesOf;
    ValidIsApt(m);
    w := w0;
    PlacedStart(codec, m, w0);
    for n := 0 to |m.segments|
      invariant Placed(codec, m, n, w0, w)
    {
      var seg := m.segments[n];
      StillStaged(codec, m, n, w0, w);
      if seg.id !in w.segments {
        NotAllShaped(codec, m, w0.segments, n);
        return w, Some(StateConflict);
      }
      var list := if seg.id in index then index[seg.id] else [];
      ListApt(m, n);
      NoOtherKind(m, n);
      if seg.kind.Raw? {
        RawList(m, n);
      }
      if Open(w0.payload, m.entries) {
        NextIsClear(codec, m, n, w0, w);
      }
      var t, packs, path, problem := PlaceOne(codec, seg, w.segments[seg.id], list, w.payload, w.packs, now);
      if problem.Some? {
        if Open(w0.payload, m.entries) {
          NotAllShaped(codec, m, w0.segments, n);
        }
        return Work(t, if seg.kind.Raw? then w.segments else w.segments - {seg.id}, packs, w.published), problem;
      }
      PlacedStep(codec, m, n, w0, w, t, packs);
      w := Work(t, w.segments - {seg.id}, packs, w.published[n := seg.(storagePath := path)]);
    }
    if Open(w0.payload, m.entries) {
      PlacedAllShaped(codec, m, w0, w);
    }
    failure := None;
  }

  lemma PlacedAllShaped(codec: Codec, m: Manifest, w0: Work, w: Work)
    requires Placed(codec, m, |m.segments|, w0, w)
    ensures AllShaped(codec, m, w0.segments, |m.segments|)
  {
    DeliveredIsShaped(codec, m, w0.segments, |m.segments|, w.payload);
  }

  // The published manifest

  /** The manifest the live directory stores: every segment with its storage path. */
  function WithPaths(m: Manifest): (p: Manifest)
    ensures |p.segments| == |m.segments| && p.entries == m.entries
  {
    m.(segments := seq(|m.segments|, k requires 0 <= k < |m.segments| => PublishSegment(m.entries, m.segments[k])))
  }

  predicate SameButPath(a: Segment, b: Segment) {
    a.id == b.id && a.kind == b.kind && a.wireSize == b.wireSize && a.digest == b.digest
  }

  predicate SameButPaths(a: seq<Segment>, b: seq<Segment>) {
    |a| == |b| && forall k | 0 <= k < |a| :: SameButPath(a[k], b[k])
  }

  lemma {:induction false} FindsTheSame(a: seq<Segment>, b: seq<Segment>, id: string)
    requires SameButPaths(a, b)
    ensures var x, y := FindSegment(a, id), FindSegment(b, id);
            (x.None? <==> y.None?) && (x.Some? ==> SameButPath(x.value, y.value))
  {
    if a != [] {
      assert SameButPath(a[0], b[0]);
      FindsTheSame(a[1..], b[1..], id);
    }
  }

  /** A storage path plays no part in validity. */
  lemma PathsKeepValidity(m: Manifest, segments: seq<Segment>)
    requires Valid(m) && SameButPaths(m.segments, segments)
    ensures Valid(m.(segments := segments))
  {
    hide ValidRoots, PortablePath, UnderRoot, FindSegment, WellFormedDigest, ByteLen;
    forall id
      ensures var x, y := FindSegment(m.segments, id), FindSegment(segments, id);
              (x.None? <==> y.None?) && (x.Some? ==> SameButPath(x.value, y.value))
    {
      FindsTheSame(m.segments, segments, id);
    }
    assert ValidSegments(segments) by {
      forall k | 0 <= k < |segments|
        ensures ValidSegment(segments[k])
      {
        assert ValidSegment(m.segments[k]) && SameButPath(m.segments[k], segments[k]);
      }
      assert forall k | 0 <= k < |segments| :: SameButPath(m.segments[k], segments[k]);
    }
    assert ValidEntries(m.roots, segments, m.entries) by {
      forall i | 0 <= i < |m.entries|
        ensures ValidEntry(m.roots, segments, m.entries[i])
      {
        assert ValidEntry(m.roots, m.segments, m.entries[i]);
      }
      forall j | 0 <= j < |m.entries|
        ensures ApartFromEarlier(segments, m.entries, j)
      {
        assert ApartFromEarlier(m.segments, m.entries, j);
        forall i | 0 <= i < j
          ensures Apart(segments, m.entries[i], m.entries[j])
        {
          assert Apart(m.segments, m.entries[i], m.entries[j]);
        }
      }
    }
    assert AllReferenced(segments, m.entries) by {
      forall k | 0 <= k < |segments|
        ensures Referenced(m.entries, segments[k].id)
      {
        assert Referenced(m.entries, m.segments[k].id) && SameButPath(m.segments[k], segments[k]);
      }
    }
  }

  lemma WithPathsIsValid(m: Manifest)
    requires Valid(m)
    ensures Valid(WithPaths(m))
  {
    hide Valid;
    var p := WithPaths(m);
    assert SameButPaths(m.segments, p.segments);
    PathsKeepValidity(m, p.segments);
  }

  /** Every staged segment has its declared size and digest. */
  predicate StagedVerified(m: Manifest, staged: map<string, Bytes>) {
    forall k | 0 <= k < |m.segments| ::
      && m.segments[k].id in staged
      && |staged[m.segments[k].id]| == m.segments[k].wireSize
      && m.segments[k].digest == Blake3(staged[m.segments[k].id])
  }

  /** What verified segments were turned into serves every segment and holds every entry. */
  lemma PublishedMatches(m: Manifest, staged: map<string, Bytes>, dir: Dir)
    requires Valid(m) && StagedVerified(m, staged)
    requires Built(dir.payload, m.entries) && AllKept(m, staged, |m.segments|, dir.packs)
    ensures Matches(dir, WithPaths(m))
  {
    hide Valid;
    WithPathsIsValid(m);
    var p := WithPaths(m);
    forall i | 0 <= i < |m.entries|
      ensures Holds(dir.payload, m.entries[i])
    {
      assert IsNode(dir.payload[m.entries[i].path], m.entries[i]);
    }
    forall k | 0 <= k < |p.segments|
      ensures Serves(dir, p.segments[k])
    {
      ServesOne(m, staged, dir, k);
    }
  }

  lemma ServesOne(m: Manifest, staged: map<string, Bytes>, dir: Dir, k: nat)
    requires Valid(m) && StagedVerified(m, staged) && k < |m.segments|
    requires Built(dir.payload, m.entries) && AllKept(m, staged, |m.segments|, dir.packs)
    ensures Serves(dir, WithPaths(m).segments[k])
  {
    hide Valid, StagedVerified;
    var s := m.segments[k];
    if s.kind.Raw? {
      RawList(m, k);
      EntriesOfAre(m.entries, s.id);
      var e := EntriesOf(m.entries, s.id)[0];
      assert e in EntriesOf(m.entries, s.id);
      var i :| 0 <= i < |m.entries| && m.entries[i] == e;
      assert IsNode(dir.payload[e.path], e);
      var path := PAYLOAD_PREFIX + e.path;
      assert PAYLOAD_PREFIX <= path && path[|PAYLOAD_PREFIX|..] == e.path;
    } else {
      assert KeptPack(s, staged[s.id], dir.packs);
      var path := PACKS_PREFIX + s.id;
      assert path[1] == 'a' && path[2] == 'c' && PAYLOAD_PREFIX[2] == 'y';
      assert PACKS_PREFIX <= path && path[|PACKS_PREFIX|..] == s.id;
      VerifiedAt(m, staged, k);
    }
  }

  lemma VerifiedAt(m: Manifest, staged: map<string, Bytes>, k: nat)
    requires StagedVerified(m, staged) && k < |m.segments|
    ensures m.segments[k].id in staged
    ensures |staged[m.segments[k].id]| == m.segments[k].wireSize && m.segments[k].digest == Blake3(staged[m.segments[k].id])
  {
  }
}
