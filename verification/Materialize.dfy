/** Turning staged segments into the payload tree, in place. It runs on the server
    before a commit and on the client after a download. */
module Materializing {
  import opened Outcomes
  import opened Protocol
  import opened Validation
  import opened Storage
  import opened Trees
  import opened Sorting
  import opened Payloads
  import opened Extracting
  import opened Placing

  function SortedEntries(entries: seq<Entry>): (r: seq<Entry>)
    ensures multiset(r) == multiset(entries)
  {
    Sort(entries, (e: Entry) => e.path)
  }

  // Portable metadata

  function Stamp(n: Node, e: Entry): Node {
    if n.File? then File(n.data, IsExec(e.mode), e.mtime) else n
  }

  /** The files of the first `n` entries have their bit and time; nothing else changed. */
  predicate Stamped(entries: seq<Entry>, n: nat, t0: Tree, t: Tree)
    requires n <= |entries|
  {
    && t.Keys == t0.Keys
    && (forall p | p in t && p !in FilePaths(entries[..n]) :: t[p] == t0[p])
    && (forall i | 0 <= i < n && entries[i].kind.FileEntry? && entries[i].path in t ::
          t[entries[i].path] == Stamp(t0[entries[i].path], entries[i]))
  }

  lemma StampOne(entries: seq<Entry>, n: nat, t0: Tree, t: Tree)
    requires DistinctPaths(entries) && n < |entries| && Stamped(entries, n, t0, t)
    requires entries[n].kind.FileEntry? ==> entries[n].path in t
    ensures Stamped(entries, n + 1, t0, if entries[n].kind.FileEntry? then t[entries[n].path := Stamp(t[entries[n].path], entries[n])] else t)
  {
    var e := entries[n];
    assert forall i | 0 <= i < n :: entries[i].path != e.path;
    assert FilePaths(entries[..n + 1]) == FilePaths(entries[..n]) + (if e.kind.FileEntry? then {e.path} else {}) by {
      assert entries[..n + 1] == entries[..n] + [e];
      forall p | p in FilePaths(entries[..n])
        ensures p in FilePaths(entries[..n + 1])
      {
        var i :| 0 <= i < n && entries[..n][i].kind.FileEntry? && entries[..n][i].path == p;
        assert entries[..n + 1][i] == entries[..n][i];
      }
      assert e.kind.FileEntry? ==> entries[..n + 1][n] == e;
    }
  }

  /** Sets the executable bit and the modification time of every file entry. */
  method ApplyMetadata(entries: seq<Entry>, t0: Tree) returns (t: Tree)
    requires DistinctPaths(entries)
    requires FilePaths(entries) <= Files(t0)
    ensures Stamped(entries, |entries|, t0, t)
  {
    hide Stamped, DistinctPaths, Stamp;
    t := t0;
    StampedStart(entries, t0);
    for n := 0 to |entries|
      invariant Stamped(entries, n, t0, t)
    {
      StampedKeys(entries, n, t0, t);
      assert entries[n].kind.FileEntry? ==> entries[n].path in FilePaths(entries);
      StampOne(entries, n, t0, t);
      if entries[n].kind.FileEntry? {
        t := t[entries[n].path := Stamp(t[entries[n].path], entries[n])];
      }
    }
  }

  lemma StampedStart(entries: seq<Entry>, t0: Tree)
    ensures Stamped(entries, 0, t0, t0)
  {
  }

  lemma StampedKeys(entries: seq<Entry>, n: nat, t0: Tree, t: Tree)
    requires n <= |entries| && Stamped(entries, n, t0, t)
    ensures t.Keys == t0.Keys
  {
  }

  // Verification

  predicate EntryProven(t: Tree, e: Entry) {
    e.kind.FileEntry? ==> e.path in t && t[e.path].File? && Proves(e, t[e.path].data)
  }

  predicate AllProven(entries: seq<Entry>, n: nat, t: Tree)
    requires n <= |entries|
  {
    forall i | 0 <= i < n :: EntryProven(t, entries[i])
  }

  /** Checks one materialized file against its entry. */
  method VerifyOne(t: Tree, e: Entry) returns (failure: Option<ErrorCode>)
    requires e.kind.FileEntry?
    ensures failure.None? <==> EntryProven(t, e)
    ensures failure.Some? ==> failure.value == if e.path in t && t[e.path].Folder? then UnsupportedEntry else HashMismatch
  {
    if e.path !in t {
      return Some(HashMismatch);
    }
    if !t[e.path].File? {
      return Some(UnsupportedEntry);
    }
    if StatSize(t[e.path]) != e.size {
      return Some(HashMismatch);
    }
    if Blake3(t[e.path].data) != e.digest {
      return Some(HashMismatch);
    }
    failure := None;
  }

  /** Re-hashes every file. Every job runs; the first failure is kept. */
  method Verify(entries: seq<Entry>, t: Tree) returns (failure: Option<ErrorCode>)
    ensures failure.None? <==> AllProven(entries, |entries|, t)
  {
    failure := None;
    for n := 0 to |entries|
      invariant failure.None? <==> AllProven(entries, n, t)
    {
      if entries[n].kind.FileEntry? {
        var f := VerifyOne(t, entries[n]);
        if failure.None? {
          failure := f;
        }
      }
    }
  }

  // Folder times, last

  predicate Timed(entries: seq<Entry>, n: nat, t0: Tree, t: Tree)
    requires n <= |entries|
  {
    && t.Keys == t0.Keys
    && (forall p | p in t :: t[p].File? <==> t0[p].File?)
    && (forall p | p in t && t[p].File? :: t[p] == t0[p])
    && (forall i | 0 <= i < n && entries[i].kind.DirectoryEntry? && IsFolder(t, entries[i].path) && entries[i].path != "" ::
          t[entries[i].path] == Folder(entries[i].mtime))
  }

  /** Entries with the same path are the same entry. */
  predicate PathsAgree(entries: seq<Entry>) {
    forall i, j | 0 <= i < |entries| && 0 <= j < |entries| && entries[i].path == entries[j].path :: entries[i] == entries[j]
  }

  lemma SortedAgree(entries: seq<Entry>)
    requires DistinctPaths(entries)
    ensures PathsAgree(SortedEntries(entries))
  {
    var sorted := SortedEntries(entries);
    SameElements(sorted, entries);
    forall i, j | 0 <= i < |sorted| && 0 <= j < |sorted| && sorted[i].path == sorted[j].path
      ensures sorted[i] == sorted[j]
    {
      assert sorted[i] in sorted && sorted[j] in sorted;
      SamePathSameEntry(entries, sorted[i], sorted[j]);
    }
  }

  lemma TimeOne(entries: seq<Entry>, n: nat, t0: Tree, t: Tree)
    requires PathsAgree(entries) && n < |entries| && Timed(entries, n, t0, t)
    ensures var e := entries[n];
            Timed(entries, n + 1, t0,
                  if e.kind.DirectoryEntry? && e.path in t && t[e.path].Folder? then t[e.path := Folder(e.mtime)] else t)
  {
  }

  /** Sets the time of every declared directory that is there. */
  method SetFolderTimes(entries: seq<Entry>, t0: Tree) returns (t: Tree)
    requires PathsAgree(entries)
    ensures Timed(entries, |entries|, t0, t)
  {
    t := t0;
    for n := 0 to |entries|
      invariant Timed(entries, n, t0, t)
    {
      hide Timed, PathsAgree;
      TimeOne(entries, n, t0, t);
      var e := entries[n];
      if e.kind.DirectoryEntry? && e.path in t && t[e.path].Folder? {
        t := t[e.path := Folder(e.mtime)];
      }
    }
  }

  // How the stages fit together

  /** Every stage succeeded: folders `a`, placed `b`, stamped `c`, timed `d`. */
  predicate Stages(codec: Codec, m: Manifest, dir0: Dir, a: Tree, w: Work, c: Tree, d: Tree) {
    var sorted := SortedEntries(m.entries);
    && FoldersMade(sorted, |sorted|, dir0.payload, a)
    && Placed(codec, m, |m.segments|, Work(a, dir0.segments, dir0.packs, m.segments), w)
    && Stamped(m.entries, |m.entries|, w.payload, c)
    && AllProven(m.entries, |m.entries|, c)
    && Timed(sorted, |sorted|, c, d)
  }

  lemma FolderStays(codec: Codec, m: Manifest, dir0: Dir, a: Tree, w: Work, c: Tree, d: Tree, p: string)
    requires Stages(codec, m, dir0, a, w, c, d) && IsFolder(a, p)
    ensures IsFolder(d, p)
  {
    hide FoldersMade, AllDelivered, AllKept, PublishedTo, Proper, SortedEntries, AllProven;
  }

  lemma EntryBuilt(codec: Codec, m: Manifest, dir0: Dir, a: Tree, w: Work, c: Tree, d: Tree, i: nat)
    requires Apt(m) && Stages(codec, m, dir0, a, w, c, d)
    requires i < |m.entries| && !m.entries[i].kind.OtherType?
    ensures m.entries[i].path in d && IsNode(d[m.entries[i].path], m.entries[i])
  {
    hide Apt, Placed, Proper, SortedEntries, PortablePath;
    var e := m.entries[i];
    assert e.path != "" by { PathNotEmpty(m, i); }
    if e.kind.FileEntry? {
      assert EntryProven(c, e);
    } else {
      var sorted := SortedEntries(m.entries);
      SameElements(sorted, m.entries);
      assert e in m.entries;
      assert e in sorted;
      var j :| 0 <= j < |sorted| && sorted[j] == e;
      assert IsFolder(a, FolderOf(sorted[j]));
      FolderStays(codec, m, dir0, a, w, c, d, e.path);
    }
  }

  lemma PathNotEmpty(m: Manifest, i: nat)
    requires Apt(m) && i < |m.entries|
    ensures m.entries[i].path != ""
  {
  }

  lemma SegmentOf(m: Manifest, i: nat) returns (k: nat)
    requires Valid(m) && i < |m.entries| && m.entries[i].kind.FileEntry?
    ensures k < |m.segments| && m.segments[k].id == m.entries[i].segmentId
  {
    assert ValidEntry(m.roots, m.segments, m.entries[i]);
    assert Backed(m.segments, m.entries[i]);
    k :| 0 <= k < |m.segments| && m.segments[k].id == m.entries[i].segmentId;
  }

  lemma AllWritten(m: Manifest)
    requires Valid(m)
    ensures Written(m.entries, SegmentIds(m.segments[..|m.segments|])) == FilePaths(m.entries)
  {
    hide Valid;
    assert m.segments[..|m.segments|] == m.segments;
    forall i | 0 <= i < |m.entries| && m.entries[i].kind.FileEntry?
      ensures m.entries[i].segmentId in SegmentIds(m.segments)
    {
      var k := SegmentOf(m, i);
    }
  }

  lemma SameKinds(entries: seq<Entry>, w: Tree, c: Tree, sorted: seq<Entry>, d: Tree)
    requires Stamped(entries, |entries|, w, c) && Timed(sorted, |sorted|, c, d)
    ensures d.Keys == w.Keys && Files(c) == Files(w) && Files(d) == Files(w)
  {
    assert entries[..|entries|] == entries;
    forall p | p in w
      ensures p in c && (c[p].File? <==> w[p].File?)
    {
      if p in FilePaths(entries) {
        var i :| 0 <= i < |entries| && entries[i].kind.FileEntry? && entries[i].path == p;
        assert entries[i].path in c;
      }
    }
  }

  lemma FilesPlaced(t0: Tree, sorted: seq<Entry>, a: Tree, b: Tree, w: set<string>)
    requires FoldersMade(sorted, |sorted|, t0, a) && OnlyAt(a, b, w) && w <= Files(b)
    ensures Files(b) == w + Files(t0)
  {
    hide Proper, OnTheWay, FolderOf;
    forall p | p in Files(t0)
      ensures p in Files(b)
    {
      assert p in a && a[p] == t0[p];
    }
    forall p | p in Files(b) && p !in w
      ensures p in Files(t0)
    {
      assert p in a && a[p] == b[p];
    }
  }

  /** The files are the declared ones, beside those that were there before. */
  lemma FilesExactly(codec: Codec, m: Manifest, dir0: Dir, a: Tree, w: Work, c: Tree, d: Tree)
    requires Valid(m) && Stages(codec, m, dir0, a, w, c, d)
    ensures Files(d) == FilePaths(m.entries) + Files(dir0.payload)
    ensures FilePaths(m.entries) <= Files(w.payload)
  {
    hide Valid, FoldersMade, AllDelivered, AllKept, PublishedTo, Proper, SortedEntries, OnlyAt, Stamped, Timed, Written;
    var sorted := SortedEntries(m.entries);
    SameKinds(m.entries, w.payload, c, sorted, d);
    AllWritten(m);
    assert FilePaths(m.entries) <= Files(c) by {
      forall i | 0 <= i < |m.entries| && m.entries[i].kind.FileEntry?
        ensures m.entries[i].path in Files(c)
      {
        assert EntryProven(c, m.entries[i]);
      }
    }
    FilesPlaced(dir0.payload, sorted, a, w.payload, FilePaths(m.entries));
  }

  lemma OnTheWayAgain(entries: seq<Entry>, sorted: seq<Entry>, p: string)
    requires OnTheWay(sorted, p) && multiset(sorted) == multiset(entries)
    ensures OnTheWay(entries, p)
  {
    SameElements(sorted, entries);
    var i :| 0 <= i < |sorted| && Within(FolderOf(sorted[i]), p);
    assert sorted[i] in sorted;
    assert sorted[i] in entries;
    var j :| 0 <= j < |entries| && entries[j] == sorted[i];
  }

  /** No name appears but a declared file or a folder some entry needs. */
  lemma NamesKnown(codec: Codec, m: Manifest, dir0: Dir, a: Tree, w: Work, c: Tree, d: Tree, p: string)
    requires Valid(m) && Stages(codec, m, dir0, a, w, c, d) && p in d
    ensures p in dir0.payload || p in FilePaths(m.entries) || OnTheWay(m.entries, p)
  {
    hide Valid, AllDelivered, AllKept, PublishedTo, Proper, SortedEntries, Stamped, Timed, Written, OnTheWay;
    var sorted := SortedEntries(m.entries);
    SameKinds(m.entries, w.payload, c, sorted, d);
    AllWritten(m);
    if p !in dir0.payload && p !in FilePaths(m.entries) {
      assert p in a;
      OnTheWayAgain(m.entries, sorted, p);
    }
  }

  // When it succeeds

  lemma TreelikeOpens(m: Manifest, a: Tree)
    requires Apt(m) && Treelike(m.entries)
    requires var sorted := SortedEntries(m.entries); FoldersMade(sorted, |sorted|, map[], a)
    ensures Open(a, m.entries)
  {
    hide Within, SortedEntries, Proper, PortablePath;
    var sorted := SortedEntries(m.entries);
    SameElements(sorted, m.entries);
    forall i | 0 <= i < |m.entries| && m.entries[i].kind.FileEntry?
      ensures m.entries[i].path != "" && m.entries[i].path !in a && IsFolder(a, Parent(m.entries[i].path))
    {
      PathNotEmpty(m, i);
      if m.entries[i].path in a {
        OnTheWayAgain(m.entries, sorted, m.entries[i].path);
      }
      FolderMadeFor(m, map[], a, i);
    }
  }

  lemma FolderMadeFor(m: Manifest, t0: Tree, a: Tree, i: nat)
    requires i < |m.entries|
    requires var sorted := SortedEntries(m.entries); FoldersMade(sorted, |sorted|, t0, a)
    ensures IsFolder(a, FolderOf(m.entries[i]))
  {
    hide SortedEntries, Proper, FolderOf;
    var sorted := SortedEntries(m.entries);
    SameElements(sorted, m.entries);
    assert m.entries[i] in m.entries;
    assert m.entries[i] in sorted;
    var j :| 0 <= j < |sorted| && sorted[j] == m.entries[i];
    assert IsFolder(a, FolderOf(sorted[j]));
  }

  lemma DoneMeansTreelike(codec: Codec, m: Manifest, dir0: Dir, a: Tree, w: Work, c: Tree, d: Tree)
    requires Valid(m) && Stages(codec, m, dir0, a, w, c, d) && Proper(dir0.payload)
    ensures Treelike(m.entries)
  {
    hide Valid, AllDelivered, AllKept, PublishedTo, SortedEntries, Stamped, Timed, Written, Apt, FolderOf, Within, AllProven;
    ValidIsApt(m);
    FilesExactly(codec, m, dir0, a, w, c, d);
    forall i, j | 0 <= i < |m.entries| && 0 <= j < |m.entries| && m.entries[i].kind.FileEntry?
      ensures !Within(FolderOf(m.entries[j]), m.entries[i].path)
    {
      FolderMadeFor(m, dir0.payload, a, j);
      PathNotEmpty(m, i);
      assert m.entries[i].path in FilePaths(m.entries);
      assert IsFolder(w.payload, FolderOf(m.entries[j]));
      if Within(FolderOf(m.entries[j]), m.entries[i].path) {
        FoldersAllTheWay(w.payload, FolderOf(m.entries[j]), m.entries[i].path);
      }
    }
  }

  lemma CarriesOnce(codec: Codec, seg: Segment, bytes: Bytes, declared: seq<Entry>, p: string, x: Bytes, y: Bytes)
    requires Shaped(codec, seg, bytes, declared)
    requires Carries(codec, seg, bytes, p, x) && Carries(codec, seg, bytes, p, y)
    ensures x == y
  {
  }

  lemma DoneMeansYields(codec: Codec, m: Manifest, staged: map<string, Bytes>, t: Tree, c: Tree, k: nat)
    requires AllDelivered(codec, m, staged, |m.segments|, t) && k < |m.segments|
    requires AllProven(m.entries, |m.entries|, c)
    requires forall p | p in t && t[p].File? :: p in c && c[p].File? && c[p].data == t[p].data
    ensures m.segments[k].id in staged
    ensures Yields(codec, m.segments[k], staged[m.segments[k].id], EntriesOf(m.entries, m.segments[k].id))
  {
    hide Shaped, Carries;
    var seg := m.segments[k];
    var bytes := staged[seg.id];
    var declared := EntriesOf(m.entries, seg.id);
    assert Delivered(codec, seg, bytes, declared, t);
    EntriesOfAre(m.entries, seg.id);
    forall i, data | 0 <= i < |declared| && Carries(codec, seg, bytes, declared[i].path, data)
      ensures Proves(declared[i], data)
    {
      assert FileCarries(codec, seg, bytes, declared[i].path, t);
      CarriesOnce(codec, seg, bytes, declared, declared[i].path, data, t[declared[i].path].data);
      assert declared[i] in declared;
      var j :| 0 <= j < |m.entries| && m.entries[j] == declared[i];
      assert EntryProven(c, m.entries[j]);
    }
  }

  lemma StampKeepsData(entries: seq<Entry>, w: Tree, c: Tree)
    requires Stamped(entries, |entries|, w, c)
    ensures forall p | p in w && w[p].File? :: p in c && c[p].File? && c[p].data == w[p].data
  {
    assert entries[..|entries|] == entries;
    forall p | p in w && w[p].File?
      ensures p in c && c[p].File? && c[p].data == w[p].data
    {
      if p in FilePaths(entries) {
        var i :| 0 <= i < |entries| && entries[i].kind.FileEntry? && entries[i].path == p;
        assert entries[i].path in c;
      }
    }
  }

  /** Success shows that the staged segments were the declared ones. */
  lemma DoneMeansSupplied(codec: Codec, m: Manifest, dir0: Dir, a: Tree, w: Work, c: Tree, d: Tree)
    requires Stages(codec, m, dir0, a, w, c, d) && w.segments == map[]
    ensures Supplied(codec, m, dir0.segments)
  {
    hide FoldersMade, AllKept, PublishedTo, OnlyAt, Proper, SortedEntries, Stamped, Timed, Yields, Delivered, AllProven;
    StampKeepsData(m.entries, w.payload, c);
    assert m.segments[..|m.segments|] == m.segments;
    var staged := dir0.segments;
    forall k | 0 <= k < |m.segments|
      ensures m.segments[k].id in staged
      ensures Yields(codec, m.segments[k], staged[m.segments[k].id], EntriesOf(m.entries, m.segments[k].id))
    {
      DoneMeansYields(codec, m, staged, w.payload, c, k);
    }
    assert forall id | id in staged :: id !in SegmentIds(m.segments) ==> id in w.segments;
  }

  lemma SuppliedIsShaped(codec: Codec, m: Manifest, staged: map<string, Bytes>)
    requires Supplied(codec, m, staged)
    ensures AllShaped(codec, m, staged, |m.segments|)
  {
    hide Shaped;
    forall k | 0 <= k < |m.segments|
      ensures m.segments[k].id in staged &&
              Shaped(codec, m.segments[k], staged[m.segments[k].id], EntriesOf(m.entries, m.segments[k].id))
    {
      assert m.segments[k].id in SegmentIds(m.segments);
      assert Yields(codec, m.segments[k], staged[m.segments[k].id], EntriesOf(m.entries, m.segments[k].id));
    }
  }

  /** Supplied segments pass verification and leave nothing staged. */
  lemma SuppliedIsProven(codec: Codec, m: Manifest, w0: Work, w: Work, c: Tree)
    requires Valid(m) && Supplied(codec, m, w0.segments)
    requires Placed(codec, m, |m.segments|, w0, w) && Stamped(m.entries, |m.entries|, w.payload, c)
    ensures AllProven(m.entries, |m.entries|, c) && w.segments == map[]
  {
    hide Valid, AllKept, PublishedTo, OnlyAt, Proper, Stamped, Yields, Delivered, Supplied;
    StampKeepsData(m.entries, w.payload, c);
    assert m.segments[..|m.segments|] == m.segments;
    forall i | 0 <= i < |m.entries|
      ensures EntryProven(c, m.entries[i])
    {
      if m.entries[i].kind.FileEntry? {
        var k := SegmentOf(m, i);
        SuppliedEntry(codec, m, w0.segments, w.payload, i, k);
      }
    }
    assert w0.segments.Keys == SegmentIds(m.segments) by { SuppliedKeys(codec, m, w0.segments); }
    assert w.segments.Keys == {};
  }

  lemma SuppliedKeys(codec: Codec, m: Manifest, staged: map<string, Bytes>)
    requires Supplied(codec, m, staged)
    ensures staged.Keys == SegmentIds(m.segments)
  {
  }

  lemma SuppliedEntry(codec: Codec, m: Manifest, staged: map<string, Bytes>, t: Tree, i: nat, k: nat)
    requires Supplied(codec, m, staged) && AllDelivered(codec, m, staged, |m.segments|, t)
    requires i < |m.entries| && k < |m.segments| && m.entries[i].kind.FileEntry? && m.segments[k].id == m.entries[i].segmentId
    ensures EntryProven(t, m.entries[i])
  {
    hide Shaped, Carries;
    var seg, e := m.segments[k], m.entries[i];
    var declared := EntriesOf(m.entries, seg.id);
    EntriesOfAre(m.entries, seg.id);
    assert e in m.entries;
    assert e in declared;
    var j :| 0 <= j < |declared| && declared[j] == e;
    assert Delivered(codec, seg, staged[seg.id], declared, t);
    assert FileCarries(codec, seg, staged[seg.id], e.path, t);
    assert Yields(codec, seg, staged[seg.id], declared);
  }

  // Run

  datatype Output = Output(published: Manifest, bytes: int)

  predicate NamesWithin(t0: Tree, entries: seq<Entry>, t: Tree) {
    forall p | p in t :: p in t0 || p in FilePaths(entries) || OnTheWay(entries, p)
  }

  /** What a success delivers: the entries as described and the published manifest. */
  predicate Delivers(m: Manifest, dir0: Dir, dir: Dir, out: Output) {
    && Built(dir.payload, m.entries)
    && Files(dir.payload) == FilePaths(m.entries) + Files(dir0.payload)
    && NamesWithin(dir0.payload, m.entries, dir.payload)
    && dir.segments == map[]
    && AllKept(m, dir0.segments, |m.segments|, dir.packs)
    && out == Output(WithPaths(m), TotalBytes(m.entries))
  }

  lemma StagesDeliver(codec: Codec, m: Manifest, dir0: Dir, a: Tree, w: Work, c: Tree, d: Tree)
    requires Valid(m) && Stages(codec, m, dir0, a, w, c, d)
    ensures Built(d, m.entries)
    ensures Files(d) == FilePaths(m.entries) + Files(dir0.payload)
    ensures NamesWithin(dir0.payload, m.entries, d)
    ensures AllKept(m, dir0.segments, |m.segments|, w.packs)
    ensures m.(segments := w.published) == WithPaths(m)
  {
    hide Valid, FoldersMade, AllDelivered, AllKept, OnlyAt, Proper, SortedEntries, Stamped, Timed, AllProven, IsNode, Apt, PublishSegment;
    ValidIsApt(m);
    assert w.published == WithPaths(m).segments;
    FilesExactly(codec, m, dir0, a, w, c, d);
    forall i | 0 <= i < |m.entries|
      ensures m.entries[i].path in d && IsNode(d[m.entries[i].path], m.entries[i])
    {
      EntryKind(m, i);
      EntryBuilt(codec, m, dir0, a, w, c, d, i);
    }
    forall p | p in d
      ensures p in dir0.payload || p in FilePaths(m.entries) || OnTheWay(m.entries, p)
    {
      NamesKnown(codec, m, dir0, a, w, c, d, p);
    }
  }

  lemma EntryKind(m: Manifest, i: nat)
    requires Valid(m) && i < |m.entries|
    ensures !m.entries[i].kind.OtherType?
  {
    assert ValidEntry(m.roots, m.segments, m.entries[i]);
  }

  lemma PlacedFiles(codec: Codec, m: Manifest, staged: map<string, Bytes>, t: Tree)
    requires Valid(m) && AllDelivered(codec, m, staged, |m.segments|, t)
    ensures FilePaths(m.entries) <= Files(t)
  {
    hide Valid, Shaped, Carries;
    forall i | 0 <= i < |m.entries| && m.entries[i].kind.FileEntry?
      ensures m.entries[i].path in Files(t)
    {
      var k := SegmentOf(m, i);
      var seg, e := m.segments[k], m.entries[i];
      var declared := EntriesOf(m.entries, seg.id);
      EntriesOfAre(m.entries, seg.id);
      assert e in m.entries;
      assert e in declared;
      var j :| 0 <= j < |declared| && declared[j] == e;
      assert Delivered(codec, seg, staged[seg.id], declared, t);
      assert FileCarries(codec, seg, staged[seg.id], e.path, t);
    }
  }

  /** Materializes a staged transfer. It succeeds exactly when the staged segments
      are the declared ones and no entry lies below a file. */
  method Run(codec: Codec, dir0: Dir, m: Manifest, now: int) returns (dir: Dir, r: Result<Output>)
    requires Valid(m)
    ensures dir.manifest == dir0.manifest
    ensures r.Ok? ==> Delivers(m, dir0, dir, r.value)
    ensures r.Ok? && StagedVerified(m, dir0.segments) ==> Matches(dir, r.value.published)
    ensures dir0.payload == map[] ==> (r.Ok? <==> Supplied(codec, m, dir0.segments) && Treelike(m.entries))
  {
    hide Valid, FoldersMade, Placed, Stamped, AllProven, Timed, Supplied, Treelike, Apt, Open, AllShaped, Matches, Built;
    hide AllKept, StagedVerified, NamesWithin, SortedEntries, WithPaths, Files, FilePaths, DistinctPaths, PathsAgree;
    ValidIsApt(m);
    ValidPathsDistinct(m);
    dir := dir0;
    var index := IndexEntries(m.entries);
    var sorted := SortedEntries(m.entries);
    var made := MakeFolders(dir0.payload, sorted, now);
    if made.Err? {
      return dir, Err(made.error);
    }
    ghost var w0 := Work(made.value, dir0.segments, dir0.packs, m.segments);
    var w, problem := PlaceSegments(codec, m, index, Work(made.value, dir0.segments, dir0.packs, m.segments), now);
    PlacingOutlook(codec, m, dir0, made.value);
    dir := Dir(dir0.manifest, w.payload, w.segments, w.packs);
    if problem.Some? {
      return dir, Err(problem.value);
    }
    PlacedIsDelivered(codec, m, w0, w);
    PlacedFiles(codec, m, dir0.segments, w.payload);
    var c := ApplyMetadata(m.entries, w.payload);
    if Supplied(codec, m, dir0.segments) {
      SuppliedIsProven(codec, m, w0, w, c);
    }
    dir := Dir(dir0.manifest, c, w.segments, w.packs);
    problem := Verify(m.entries, c);
    if problem.Some? {
      return dir, Err(problem.value);
    }
    SortedAgree(m.entries);
    var d := SetFolderTimes(sorted, c);
    dir := Dir(dir0.manifest, d, w.segments, w.packs);
    if w.segments != map[] {
      return dir, Err(StateConflict);
    }
    var bytes := CountBytes(m);
    r := Ok(Output(m.(segments := w.published), bytes));
    assert Stages(codec, m, dir0, made.value, w, c, d);
    StagesDeliver(codec, m, dir0, made.value, w, c, d);
    if StagedVerified(m, dir0.segments) {
      PublishedMatches(m, dir0.segments, dir);
    }
    DoneMeansSupplied(codec, m, dir0, made.value, w, c, d);
    if dir0.payload == map[] {
      DoneMeansTreelike(codec, m, dir0, made.value, w, c, d);
    }
  }

  /** From an empty payload, supplied segments of a tree-like manifest can be placed. */
  lemma PlacingOutlook(codec: Codec, m: Manifest, dir0: Dir, a: Tree)
    requires Apt(m)
    requires var sorted := SortedEntries(m.entries); FoldersMade(sorted, |sorted|, dir0.payload, a)
    ensures dir0.payload == map[] && Treelike(m.entries) ==> Open(a, m.entries)
    ensures Supplied(codec, m, dir0.segments) ==> AllShaped(codec, m, dir0.segments, |m.segments|)
  {
    hide Supplied, AllShaped, Treelike, Open, Apt, SortedEntries, FoldersMade;
    if dir0.payload == map[] && Treelike(m.entries) {
      TreelikeOpens(m, a);
    }
    if Supplied(codec, m, dir0.segments) {
      SuppliedIsShaped(codec, m, dir0.segments);
    }
  }

  lemma PlacedIsDelivered(codec: Codec, m: Manifest, w0: Work, w: Work)
    requires Placed(codec, m, |m.segments|, w0, w)
    ensures AllDelivered(codec, m, w0.segments, |m.segments|, w.payload)
  {
  }

  // What must be staged, spelled out

  /** The manifest declares these bytes as that file of the `k`-th segment. */
  predicate DeclaredFile(m: Manifest, k: nat, name: string, data: Bytes)
    requires k < |m.segments|
  {
    exists i | 0 <= i < |m.entries| ::
      && m.entries[i].kind == FileEntry && m.entries[i].segmentId == m.segments[k].id && m.entries[i].path == name
      && m.entries[i].size == |data| && m.entries[i].digest == Blake3(data)
  }

  predicate HasMember(ms: seq<Member>, name: string) {
    exists j | 0 <= j < |ms| :: ms[j].name == name
  }

  /** A raw segment is the bytes of its digest and size. A pack unpacks to regular members
      that are its declared files, each of them once, and nothing else. */
  predicate Unpacks(codec: Codec, m: Manifest, k: nat, bytes: Bytes)
    requires k < |m.segments|
  {
    if m.segments[k].kind == Raw then |bytes| == m.segments[k].wireSize && m.segments[k].digest == Blake3(bytes)
    else
      var ms := codec.decode(bytes);
      && ms.Some?
      && (forall j | 0 <= j < |ms.value| :: ms.value[j].regular && DeclaredFile(m, k, ms.value[j].name, ms.value[j].data))
      && (forall i, j | 0 <= i < j < |ms.value| :: ms.value[i].name != ms.value[j].name)
      && (forall i | 0 <= i < |m.entries| && m.entries[i].kind == FileEntry && m.entries[i].segmentId == m.segments[k].id ::
            HasMember(ms.value, m.entries[i].path))
  }

  lemma RawUnpacks(codec: Codec, m: Manifest, k: nat, bytes: Bytes)
    requires Valid(m) && k < |m.segments| && m.segments[k].kind.Raw?
    ensures Yields(codec, m.segments[k], bytes, EntriesOf(m.entries, m.segments[k].id)) <==> Unpacks(codec, m, k, bytes)
  {
    hide Valid, EntriesOf;
    RawList(m, k);
    var declared := EntriesOf(m.entries, m.segments[k].id);
    assert Carries(codec, m.segments[k], bytes, declared[0].path, bytes);
  }

  lemma DeclaredEntry(m: Manifest, k: nat, e: Entry)
    requires k < |m.segments|
    ensures e in EntriesOf(m.entries, m.segments[k].id) <==> e in m.entries && e.kind == FileEntry && e.segmentId == m.segments[k].id
  {
    EntriesOfAre(m.entries, m.segments[k].id);
  }

  lemma OnePathOneEntry(m: Manifest, a: Entry, b: Entry)
    requires Valid(m) && a in m.entries && b in m.entries && a.path == b.path
    ensures a == b
  {
    hide Valid;
    ValidPathsDistinct(m);
    var i :| 0 <= i < |m.entries| && m.entries[i] == a;
    var j :| 0 <= j < |m.entries| && m.entries[j] == b;
  }

  lemma PackUnpacks(codec: Codec, m: Manifest, k: nat, bytes: Bytes)
    requires Valid(m) && k < |m.segments| && !m.segments[k].kind.Raw?
    ensures Yields(codec, m.segments[k], bytes, EntriesOf(m.entries, m.segments[k].id)) ==> Unpacks(codec, m, k, bytes)
  {
    hide Valid, EntriesOf;
    var declared := EntriesOf(m.entries, m.segments[k].id);
    if Yields(codec, m.segments[k], bytes, declared) {
      var ms := codec.decode(bytes).value;
      forall j | 0 <= j < |ms|
        ensures DeclaredFile(m, k, ms[j].name, ms[j].data)
      {
        assert Declares(declared, ms[j]);
        var i :| 0 <= i < |declared| && declared[i].path == ms[j].name && declared[i].size == |ms[j].data|;
        assert Carries(codec, m.segments[k], bytes, declared[i].path, ms[j].data);
        DeclaredEntry(m, k, declared[i]);
        var x :| 0 <= x < |m.entries| && m.entries[x] == declared[i];
      }
      forall i | 0 <= i < |m.entries| && m.entries[i].kind == FileEntry && m.entries[i].segmentId == m.segments[k].id
        ensures HasMember(ms, m.entries[i].path)
      {
        DeclaredEntry(m, k, m.entries[i]);
        var x :| 0 <= x < |declared| && declared[x] == m.entries[i];
        assert Contains(ms, declared[x].path);
      }
    }
  }

  lemma UnpackedYields(codec: Codec, m: Manifest, k: nat, bytes: Bytes)
    requires Valid(m) && k < |m.segments| && !m.segments[k].kind.Raw? && Unpacks(codec, m, k, bytes)
    ensures Yields(codec, m.segments[k], bytes, EntriesOf(m.entries, m.segments[k].id))
  {
    hide Valid, EntriesOf;
    var declared := EntriesOf(m.entries, m.segments[k].id);
    var ms := codec.decode(bytes).value;
    forall j | 0 <= j < |ms|
      ensures Declares(declared, ms[j])
    {
      assert DeclaredFile(m, k, ms[j].name, ms[j].data);
      var i :| 0 <= i < |m.entries| && m.entries[i].kind == FileEntry && m.entries[i].segmentId == m.segments[k].id
               && m.entries[i].path == ms[j].name && m.entries[i].size == |ms[j].data|;
      DeclaredEntry(m, k, m.entries[i]);
      var x :| 0 <= x < |declared| && declared[x] == m.entries[i];
    }
    forall x | 0 <= x < |declared|
      ensures Contains(ms, declared[x].path)
    {
      DeclaredEntry(m, k, declared[x]);
      var i :| 0 <= i < |m.entries| && m.entries[i] == declared[x];
      assert HasMember(ms, m.entries[i].path);
    }
    forall x, data | 0 <= x < |declared| && Carries(codec, m.segments[k], bytes, declared[x].path, data)
      ensures Proves(declared[x], data)
    {
      var j :| 0 <= j < |ms| && ms[j].name == declared[x].path && ms[j].data == data;
      assert DeclaredFile(m, k, ms[j].name, ms[j].data);
      var i :| 0 <= i < |m.entries| && m.entries[i].path == ms[j].name && m.entries[i].size == |data| && m.entries[i].digest == Blake3(data);
      DeclaredEntry(m, k, declared[x]);
      OnePathOneEntry(m, declared[x], m.entries[i]);
    }
  }

  /** For a valid manifest, what must be staged for the payload to be built: exactly the
      declared segments, each of which holds exactly its declared files. */
  lemma SuppliedExactly(codec: Codec, m: Manifest, staged: map<string, Bytes>)
    requires Valid(m)
    ensures Supplied(codec, m, staged) <==>
              && (forall id :: id in staged <==> exists k | 0 <= k < |m.segments| :: m.segments[k].id == id)
              && (forall k | 0 <= k < |m.segments| :: m.segments[k].id in staged && Unpacks(codec, m, k, staged[m.segments[k].id]))
  {
    hide Valid, EntriesOf, Yields, Unpacks;
    assert forall k | 0 <= k < |m.segments| :: m.segments[k].id in SegmentIds(m.segments);
    forall k | 0 <= k < |m.segments| && m.segments[k].id in staged
      ensures Yields(codec, m.segments[k], staged[m.segments[k].id], EntriesOf(m.entries, m.segments[k].id)) <==>
                Unpacks(codec, m, k, staged[m.segments[k].id])
    {
      var bytes := staged[m.segments[k].id];
      if m.segments[k].kind.Raw? {
        RawUnpacks(codec, m, k, bytes);
      } else {
        PackUnpacks(codec, m, k, bytes);
        if Unpacks(codec, m, k, bytes) {
          UnpackedYields(codec, m, k, bytes);
        }
      }
    }
  }
}
