/** A whole handoff: scan, pack, assemble, materialize on the server, serve the
    segments, materialize on the client. The receiver gets the sender's tree. */
module Handoff {
  import opened Outcomes
  import opened Protocol
  import opened Validation
  import opened Storage
  import opened Trees
  import opened Sorting
  import opened Naming
  import opened Scanning
  import opened Payloads
  import opened Paths
  import opened Assembling
  import opened Acceptance
  import opened Extracting
  import opened Placing
  import opened Materializing
  import S = Submitting
  import C = Committing

  // The source tree

  /** What a directory walk guarantees: the root is a directory, and every other
      item was found in a directory of the walk. */
  predicate Walked(r: Root) {
    r.DirRoot? ==> forall i | 0 <= i < |r.items| :: ItemWalked(r.items, r.items[i])
  }

  predicate ItemWalked(items: seq<Item>, item: Item) {
    if item.rel == "" then item.found.FoundDir?
    else item.rel[0] != '/' && exists k | 0 <= k < |items| :: items[k].rel == Parent(item.rel) && items[k].found.FoundDir?
  }

  function NodeOf(f: Found): Node
    requires !f.FoundOther?
  {
    if f.FoundFile? then File(f.data, f.exec, f.mtime) else Folder(f.mtime)
  }

  predicate ItemIn(t: Tree, p: string, f: Found) {
    !f.FoundOther? && p in t && t[p] == NodeOf(f)
  }

  predicate RootIn(t: Tree, r: Root) {
    match r
    case FileRoot(name, f) => ItemIn(t, name, f)
    case DirRoot(name, items) => forall i | 0 <= i < |items| :: ItemIn(t, Virtual(name, items[i].rel), items[i].found)
    case OtherRoot(_) => false
  }

  predicate NameOf(r: Root, p: string) {
    match r
    case FileRoot(name, f) => p == name
    case DirRoot(name, items) => exists i | 0 <= i < |items| :: p == Virtual(name, items[i].rel)
    case OtherRoot(_) => false
  }

  predicate KnownName(roots: seq<Root>, p: string) {
    exists r | 0 <= r < |roots| :: NameOf(roots[r], p)
  }

  /** The tree is the source, name for name: bytes, executable bits and times. */
  predicate Reproduces(t: Tree, roots: seq<Root>) {
    && (forall r | 0 <= r < |roots| :: RootIn(t, roots[r]))
    && (forall p | p in t :: KnownName(roots, p))
  }

  predicate LiesAt(t: Tree, p: string, f: Found) {
    p in t
    && match f
       case FoundFile(data, exec, mtime) => t[p] == File(data, exec, mtime)
       case FoundDir(mtime) => t[p] == Folder(mtime)
       case FoundOther => false
  }

  /** Each file of a root is at the root's name, or at that name, a slash and its place in
      the walk, with its bytes, its bit and its time; so is each directory. */
  predicate HoldsSources(t: Tree, roots: seq<Root>) {
    forall r | 0 <= r < |roots| ::
      match roots[r]
      case FileRoot(name, f) => LiesAt(t, name, f)
      case DirRoot(name, items) =>
        forall i | 0 <= i < |items| :: LiesAt(t, if items[i].rel == "" then name else name + "/" + items[i].rel, items[i].found)
      case OtherRoot(_) => false
  }

  lemma ReproducedHolds(t: Tree, roots: seq<Root>)
    requires Reproduces(t, roots)
    ensures HoldsSources(t, roots)
  {
    hide KnownName;
    forall r | 0 <= r < |roots|
      ensures RootIn(t, roots[r])
    {
    }
    forall r, i | 0 <= r < |roots| && roots[r].DirRoot? && 0 <= i < |roots[r].items|
      ensures ItemIn(t, Virtual(roots[r].name, roots[r].items[i].rel), roots[r].items[i].found)
    {
    }
  }

  // Folders

  predicate Folders(dirs: set<string>, p: string) { p == "" || p in dirs }

  predicate Closed(dirs: set<string>) {
    forall p | p in dirs :: Folders(dirs, Parent(p))
  }

  function DirNames(dirs: seq<Entry>): set<string> {
    set i | 0 <= i < |dirs| :: dirs[i].path
  }

  lemma WalkedDir(roots: seq<Root>, r: nat, k: nat)
    requires r < |roots| && roots[r].DirRoot? && k < |roots[r].items| && roots[r].items[k].found.FoundDir?
    ensures Virtual(roots[r].name, roots[r].items[k].rel) in DirNames(AllDirs(roots))
  {
    hide Virtual, AllDirs;
    var item := roots[r].items[k];
    var e := DirEntryAt(Virtual(roots[r].name, item.rel), item.found.mtime);
    DirsOfAre(roots[r].name, roots[r].items, e);
    AllDirsAre(roots, e);
    var i :| 0 <= i < |AllDirs(roots)| && AllDirs(roots)[i] == e;
  }

  lemma ItemFolder(roots: seq<Root>, r: nat, i: nat)
    requires RootsAccepted(roots) && r < |roots| && roots[r].DirRoot? && Walked(roots[r]) && i < |roots[r].items|
    ensures Folders(DirNames(AllDirs(roots)), Parent(Virtual(roots[r].name, roots[r].items[i].rel)))
  {
    hide AllDirs, DirNames, PortableComponent, ItemAccepted, NamesApart;
    var name, items := roots[r].name, roots[r].items;
    var rel := items[i].rel;
    assert RootAccepted(roots[r]);
    ComponentHasNoSlash(name);
    assert ItemWalked(items, items[i]);
    if rel == "" {
      ParentOfName(name);
    } else {
      ParentOfVirtual(name, rel);
      var k :| 0 <= k < |items| && items[k].rel == Parent(rel) && items[k].found.FoundDir?;
      WalkedDir(roots, r, k);
    }
  }

  lemma DirFolder(roots: seq<Root>, e: Entry)
    requires RootsAccepted(roots) && (forall r | 0 <= r < |roots| :: Walked(roots[r])) && e in AllDirs(roots)
    ensures Folders(DirNames(AllDirs(roots)), Parent(e.path))
  {
    hide AllDirs, DirNames, RootsAccepted, Walked, Virtual;
    AllDirsAre(roots, e);
    var r :| 0 <= r < |roots| && e in RootDirs(roots[r]);
    DirsOfAre(roots[r].name, roots[r].items, e);
    var i :| 0 <= i < |roots[r].items| && roots[r].items[i].found.FoundDir? &&
             e == DirEntryAt(Virtual(roots[r].name, roots[r].items[i].rel), roots[r].items[i].found.mtime);
    ItemFolder(roots, r, i);
  }

  lemma FileFolder(roots: seq<Root>, s: Source)
    requires RootsAccepted(roots) && (forall r | 0 <= r < |roots| :: Walked(roots[r])) && s in AllFiles(roots)
    ensures Folders(DirNames(AllDirs(roots)), Parent(s.path))
  {
    hide AllFiles, AllDirs, DirNames, Walked, Virtual, PortableComponent, NamesApart;
    AllFilesAre(roots, s);
    var r :| 0 <= r < |roots| && s in RootFiles(roots[r]);
    assert RootAccepted(roots[r]);
    if roots[r].FileRoot? {
      ComponentHasNoSlash(roots[r].name);
      ParentOfName(roots[r].name);
    } else {
      FilesOfAre(roots[r].name, roots[r].items, s);
      var i :| 0 <= i < |roots[r].items| && roots[r].items[i].found.FoundFile? &&
               s == SourceAt(Virtual(roots[r].name, roots[r].items[i].rel), roots[r].items[i].found);
      ItemFolder(roots, r, i);
    }
  }

  lemma {:induction false} WithinFolders(dirs: set<string>, p: string, q: string)
    requires Closed(dirs) && Folders(dirs, p) && Within(p, q)
    ensures Folders(dirs, q)
    decreases |p|
  {
    if p != q {
      WithinFolders(dirs, Parent(p), q);
    }
  }

  /** The directories of the entries are the walked ones. */
  predicate Foldered(entries: seq<Entry>, dirs: set<string>) {
    && Closed(dirs)
    && (forall i | 0 <= i < |entries| :: Folders(dirs, FolderOf(entries[i])))
    && (forall i | 0 <= i < |entries| && entries[i].kind.FileEntry? :: !Folders(dirs, entries[i].path))
  }

  lemma FolderedIsTreelike(entries: seq<Entry>, dirs: set<string>)
    requires Foldered(entries, dirs)
    ensures Treelike(entries)
  {
    hide Closed, Folders, FolderOf, Within;
    forall i, j | 0 <= i < |entries| && 0 <= j < |entries| && entries[i].kind.FileEntry?
      ensures !Within(FolderOf(entries[j]), entries[i].path)
    {
      if Within(FolderOf(entries[j]), entries[i].path) {
        WithinFolders(dirs, FolderOf(entries[j]), entries[i].path);
      }
    }
  }

  lemma PlanFoldered(codec: Codec, roots: seq<Root>, plan: Plan, segments: seq<Segment>, staged: map<string, Bytes>)
    requires Assembled(codec, roots, plan, segments, staged) && (forall r | 0 <= r < |roots| :: Walked(roots[r]))
    ensures Foldered(plan.entries, DirNames(AllDirs(roots)))
  {
    hide AllDirs, AllFiles, Walked, Describes, Stores, PlanOf, PortablePath;
    var dirs := AllDirs(roots);
    forall p | p in DirNames(dirs)
      ensures Folders(DirNames(dirs), Parent(p))
    {
      var i :| 0 <= i < |dirs| && dirs[i].path == p;
      DirFolder(roots, dirs[i]);
    }
    forall i | 0 <= i < |plan.entries|
      ensures Folders(DirNames(dirs), FolderOf(plan.entries[i]))
      ensures plan.entries[i].kind.FileEntry? ==> !Folders(DirNames(dirs), plan.entries[i].path)
    {
      var e := plan.entries[i];
      if e in dirs {
        DirRooted(roots, e);
        var k :| 0 <= k < |dirs| && dirs[k] == e;
      } else {
        var s := EntrySource(codec, roots, plan, segments, staged, e);
        FileFolder(roots, s);
        FileNotFolder(roots, s);
      }
    }
  }

  lemma FileNotFolder(roots: seq<Root>, s: Source)
    requires RootsAccepted(roots) && FilesApart(AllDirs(roots), SortedSources(AllFiles(roots))) && s in AllFiles(roots)
    ensures !Folders(DirNames(AllDirs(roots)), s.path)
  {
    hide AllDirs, AllFiles, PortablePath, RootsAccepted, Lower, SortedSources;
    FileRooted(roots, s);
    assert s.path != "" by { RootedNotEmpty(roots, s.path); }
    var files := SortedSources(AllFiles(roots));
    FilesDiffer(AllDirs(roots), files);
    assert s in multiset(AllFiles(roots)) && s in multiset(files);
    assert forall d | d in AllDirs(roots) :: d.path != s.path;
  }

  lemma RootedNotEmpty(roots: seq<Root>, p: string)
    requires Rooted(roots, p)
    ensures p != ""
  {
  }

  // The staged bytes supply the manifest

  lemma {:induction false} FlatSlice(packs: seq<PackSpec>, j: nat) returns (from: nat)
    requires j < |packs|
    ensures from + |packs[j].files| <= |Flat(packs)| && Flat(packs)[from..from + |packs[j].files|] == packs[j].files
  {
    var n := |packs| - 1;
    if j == n {
      from := |Flat(packs[..n])|;
    } else {
      from := FlatSlice(packs[..n], j);
      assert packs[..n][j] == packs[j];
      assert Flat(packs) == Flat(packs[..n]) + packs[n].files;
    }
  }

  /** No two files of a pack share a path. */
  lemma PackDistinct(codec: Codec, roots: seq<Root>, plan: Plan, segments: seq<Segment>, staged: map<string, Bytes>, j: nat)
    requires Assembled(codec, roots, plan, segments, staged) && j < |plan.packs|
    ensures NamesDistinct(MembersOf(plan.packs[j].files))
  {
    hide RootsAccepted, Describes, Stores, SortedSources, AllFiles, AllDirs, RawMap, EntriesHold, Flat, Bigs, Smalls, GoodPacks, FilesApart, Lower;
    var files := SortedSources(AllFiles(roots));
    FilesDiffer(AllDirs(roots), files);
    var from := FlatSlice(plan.packs, j);
    var fs, pack := Bigs(files) + Smalls(files), plan.packs[j].files;
    forall a, b | 0 <= a < b < |pack|
      ensures pack[a].path != pack[b].path
    {
      var off := |Bigs(files)| + from;
      assert pack[a] == fs[off + a] && pack[b] == fs[off + b];
      assert PathsDiffer(fs[off + a], fs[off + b]);
    }
  }

  lemma PackDeclares(codec: Codec, roots: seq<Root>, plan: Plan, segments: seq<Segment>, staged: map<string, Bytes>, j: nat, e: Entry)
    requires Assembled(codec, roots, plan, segments, staged) && j < |plan.packs|
    ensures e in EntriesOf(plan.entries, PackId(j)) <==> InPack(plan.packs[j].files, PackId(j), e)
  {
    hide RootsAccepted, FilesApart, Describes, Stores, SortedSources, AllFiles, AllDirs, RawMap, EntriesHold, Flat, Bigs, GoodPacks, RawId, PackId;
    EntriesOfAre(plan.entries, PackId(j));
    EntriesAre(AllDirs(roots), Big(roots), plan.packs, plan.entries, e);
    forall i: nat
      ensures RawId(i) != PackId(j) && (PackId(i) == PackId(j) ==> i == j)
    {
      IdsDiffer(i, j);
    }
    if e in AllDirs(roots) {
      DirRooted(roots, e);
    }
  }

  lemma PackListed(declared: seq<Entry>, files: seq<Source>, id: string)
    requires forall e :: e in declared <==> InPack(files, id, e)
    requires NamesDistinct(MembersOf(files))
    ensures Listed(MembersOf(files), declared)
  {
    var ms := MembersOf(files);
    forall k | 0 <= k < |ms|
      ensures ms[k].regular && Declares(declared, ms[k])
    {
      var e := FileEntryFor(files[k], id);
      assert InPack(files, id, e);
      assert e in declared;
      var i :| 0 <= i < |declared| && declared[i] == e;
    }
    forall i | 0 <= i < |declared|
      ensures Contains(ms, declared[i].path)
    {
      assert declared[i] in declared;
      var k :| 0 <= k < |files| && declared[i] == FileEntryFor(files[k], id);
      assert ms[k].name == declared[i].path;
    }
  }

  lemma PackYields(codec: Codec, seg: Segment, declared: seq<Entry>, files: seq<Source>, id: string)
    requires RoundTrips(codec) && seg.kind == TarZstd
    requires forall e :: e in declared <==> InPack(files, id, e)
    requires NamesDistinct(MembersOf(files))
    ensures Yields(codec, seg, codec.encode(MembersOf(files)), declared)
  {
    hide Listed;
    var ms := MembersOf(files);
    var bytes := codec.encode(ms);
    PackListed(declared, files, id);
    assert codec.decode(bytes) == Some(ms);
    forall i, data | 0 <= i < |declared| && Carries(codec, seg, bytes, declared[i].path, data)
      ensures Proves(declared[i], data)
    {
      var k :| 0 <= k < |ms| && ms[k].name == declared[i].path && ms[k].data == data;
      assert declared[i] in declared;
      var l :| 0 <= l < |files| && declared[i] == FileEntryFor(files[l], id);
      assert ms[l].name == ms[k].name;
    }
  }

  lemma RawYields(codec: Codec, m: Manifest, k: nat, bytes: Bytes)
    requires Valid(m) && k < |m.segments| && m.segments[k].kind.Raw?
    requires m.segments[k].wireSize == |bytes| && m.segments[k].digest == Blake3(bytes)
    ensures Yields(codec, m.segments[k], bytes, EntriesOf(m.entries, m.segments[k].id))
  {
    hide Valid, EntriesOf;
    RawList(m, k);
  }

  lemma SegmentYields(codec: Codec, roots: seq<Root>, plan: Plan, segments: seq<Segment>, staged: map<string, Bytes>, l: Label, k: nat)
    requires RoundTrips(codec) && Assembled(codec, roots, plan, segments, staged)
    requires Valid(Described(l, plan, segments)) && k < |segments|
    ensures segments[k].id in staged
    ensures Yields(codec, segments[k], staged[segments[k].id], EntriesOf(plan.entries, segments[k].id))
  {
    hide Valid, RoundTrips, Yields, EntriesOf, RawId, PackId, PlanOf, RootsAccepted, FilesApart, SortedSources, AllFiles, AllDirs, Bigs, Described;
    var m := Described(l, plan, segments);
    var id := segments[k].id;
    assert m.segments == segments && m.entries == plan.entries by { DescribedParts(l, plan, segments); }
    assert segments[k] == SegmentFor(id, staged[id]);
    if id in RawIds(|Big(roots)|) {
      var i :| 0 <= i < |Big(roots)| && id == RawId(i);
      IdKinds(i);
      RawYields(codec, m, k, staged[id]);
    } else {
      var j :| 0 <= j < |plan.packs| && id == PackId(j);
      IdKinds(j);
      forall e
        ensures e in EntriesOf(plan.entries, id) <==> InPack(plan.packs[j].files, id, e)
      {
        PackDeclares(codec, roots, plan, segments, staged, j, e);
      }
      PackDistinct(codec, roots, plan, segments, staged, j);
      PackYields(codec, segments[k], EntriesOf(plan.entries, id), plan.packs[j].files, id);
    }
  }

  lemma DescribedParts(l: Label, plan: Plan, segments: seq<Segment>)
    ensures Described(l, plan, segments).segments == segments && Described(l, plan, segments).entries == plan.entries
  {
  }

  /** What was uploaded is exactly what the manifest declares. */
  lemma StagedSupplies(codec: Codec, roots: seq<Root>, plan: Plan, segments: seq<Segment>, staged: map<string, Bytes>, l: Label)
    requires RoundTrips(codec) && Assembled(codec, roots, plan, segments, staged) && Valid(Described(l, plan, segments))
    ensures Supplied(codec, Described(l, plan, segments), staged) && StagedVerified(Described(l, plan, segments), staged)
  {
    hide Valid, RoundTrips, Yields, EntriesOf, PlanOf, RootsAccepted, FilesApart, Stores, AllFiles, AllDirs;
    forall k | 0 <= k < |segments|
      ensures Yields(codec, segments[k], staged[segments[k].id], EntriesOf(plan.entries, segments[k].id))
      ensures |staged[segments[k].id]| == segments[k].wireSize && segments[k].digest == Blake3(staged[segments[k].id])
    {
      SegmentYields(codec, roots, plan, segments, staged, l, k);
      assert segments[k] == SegmentFor(segments[k].id, staged[segments[k].id]);
    }
  }

  // The published manifest asks for the same bytes

  lemma WithPathsParts(m: Manifest)
    ensures WithPaths(m).entries == m.entries && SameButPaths(m.segments, WithPaths(m).segments)
    ensures SegmentIds(WithPaths(m).segments) == SegmentIds(m.segments)
  {
    hide PublishSegment;
    var a, b := m.segments, WithPaths(m).segments;
    forall k | 0 <= k < |a|
      ensures SameButPath(a[k], b[k])
    {
      PathOnly(m.entries, a[k]);
    }
    forall id | id in SegmentIds(a)
      ensures id in SegmentIds(b)
    {
      var k :| 0 <= k < |a| && a[k].id == id;
      assert SameButPath(a[k], b[k]);
    }
    forall id | id in SegmentIds(b)
      ensures id in SegmentIds(a)
    {
      var k :| 0 <= k < |b| && b[k].id == id;
      assert SameButPath(a[k], b[k]);
    }
  }

  lemma PathOnly(entries: seq<Entry>, s: Segment)
    ensures SameButPath(s, PublishSegment(entries, s))
  {
  }

  lemma SuppliedAgain(codec: Codec, m: Manifest, staged: map<string, Bytes>)
    requires Supplied(codec, m, staged)
    ensures Supplied(codec, WithPaths(m), staged)
  {
    hide WithPaths, EntriesOf, Yields, SegmentIds;
    WithPathsParts(m);
    var p := WithPaths(m);
    assert forall k | 0 <= k < |m.segments| :: m.segments[k].id in staged by { SuppliedThere(codec, m, staged); }
    forall k | 0 <= k < |p.segments|
      ensures p.segments[k].id in staged
      ensures Yields(codec, p.segments[k], staged[p.segments[k].id], EntriesOf(p.entries, p.segments[k].id))
    {
      assert SameButPath(m.segments[k], p.segments[k]);
      assert Yields(codec, m.segments[k], staged[m.segments[k].id], EntriesOf(m.entries, m.segments[k].id));
      YieldsAgain(codec, m.segments[k], p.segments[k], staged[m.segments[k].id], EntriesOf(m.entries, m.segments[k].id));
    }
  }

  lemma SuppliedThere(codec: Codec, m: Manifest, staged: map<string, Bytes>)
    requires Supplied(codec, m, staged)
    ensures forall k | 0 <= k < |m.segments| :: m.segments[k].id in staged
  {
    assert forall k | 0 <= k < |m.segments| :: m.segments[k].id in SegmentIds(m.segments);
  }

  lemma YieldsAgain(codec: Codec, a: Segment, b: Segment, bytes: Bytes, declared: seq<Entry>)
    requires Yields(codec, a, bytes, declared) && SameButPath(a, b)
    ensures Yields(codec, b, bytes, declared)
  {
    hide Listed;
    forall i, data | 0 <= i < |declared| && Carries(codec, b, bytes, declared[i].path, data)
      ensures Proves(declared[i], data)
    {
      assert Carries(codec, a, bytes, declared[i].path, data);
    }
  }

  /** Serves every segment from its storage path; a receiver keeps what has the
      segment's digest. */
  method Download(dir: Dir, segments: seq<Segment>) returns (fetched: map<string, Bytes>)
    requires forall k | 0 <= k < |segments| :: Serves(dir, segments[k])
    requires forall i, j | 0 <= i < j < |segments| :: segments[i].id != segments[j].id
    ensures fetched.Keys == SegmentIds(segments)
    ensures forall k | 0 <= k < |segments| :: segments[k].digest == Blake3(fetched[segments[k].id])
  {
    fetched := map[];
    for n := 0 to |segments|
      invariant fetched.Keys == set k | 0 <= k < n :: segments[k].id
      invariant forall k | 0 <= k < n :: segments[k].digest == Blake3(fetched[segments[k].id])
    {
      assert Serves(dir, segments[n]);
      fetched := fetched[segments[n].id := Stored(dir, segments[n].storagePath).value];
    }
  }

  lemma FetchedIsStaged(m: Manifest, staged: map<string, Bytes>, fetched: map<string, Bytes>)
    requires StagedVerified(m, staged) && staged.Keys == SegmentIds(m.segments)
    requires fetched.Keys == SegmentIds(WithPaths(m).segments)
    requires forall k | 0 <= k < |m.segments| :: WithPaths(m).segments[k].id in fetched &&
               WithPaths(m).segments[k].digest == Blake3(fetched[WithPaths(m).segments[k].id])
    ensures fetched == staged
  {
    hide WithPaths;
    WithPathsParts(m);
    forall id | id in staged
      ensures fetched[id] == staged[id]
    {
      var k :| 0 <= k < |m.segments| && m.segments[k].id == id;
      assert SameButPath(m.segments[k], WithPaths(m).segments[k]);
    }
  }

  // The payload is the source

  lemma ItemReproduced(t: Tree, entries: seq<Entry>, p: string, f: Found, e: Entry)
    requires Built(t, entries) && e in entries
    requires f.FoundDir? ==> e == DirEntryAt(p, f.mtime)
    requires f.FoundFile? ==> e == FileEntryFor(SourceAt(p, f), e.segmentId)
    requires !f.FoundOther?
    ensures ItemIn(t, p, f)
  {
    var i :| 0 <= i < |entries| && entries[i] == e;
    assert IsNode(t[entries[i].path], entries[i]);
  }

  lemma FoundReproduced(codec: Codec, roots: seq<Root>, plan: Plan, segments: seq<Segment>, staged: map<string, Bytes>, t: Tree,
                        p: string, f: Found)
    requires Assembled(codec, roots, plan, segments, staged) && Built(t, plan.entries) && !f.FoundOther?
    requires f.FoundDir? ==> DirEntryAt(p, f.mtime) in AllDirs(roots)
    requires f.FoundFile? ==> SourceAt(p, f) in AllFiles(roots)
    ensures ItemIn(t, p, f)
  {
    hide Assembled, Built, AllFiles, AllDirs, ItemIn, DirEntryAt, SourceAt, FileEntryFor;
    if f.FoundDir? {
      DirIsEntry(codec, roots, plan, segments, staged, DirEntryAt(p, f.mtime));
      ItemReproduced(t, plan.entries, p, f, DirEntryAt(p, f.mtime));
    } else {
      var e := SourceHasEntry(codec, roots, plan, segments, staged, SourceAt(p, f));
      ItemReproduced(t, plan.entries, p, f, e);
    }
  }

  lemma RootReproduced(codec: Codec, roots: seq<Root>, plan: Plan, segments: seq<Segment>, staged: map<string, Bytes>, t: Tree, r: nat)
    requires Assembled(codec, roots, plan, segments, staged) && Built(t, plan.entries) && r < |roots| && RootsAccepted(roots)
    ensures RootIn(t, roots[r])
  {
    hide Assembled, Built, AllFiles, AllDirs, ItemIn, PortableComponent, PortablePath, NamesApart, Virtual, DirEntryAt, SourceAt;
    assert RootAccepted(roots[r]);
    if roots[r].FileRoot? {
      var s := SourceAt(roots[r].name, roots[r].file);
      assert s in RootFiles(roots[r]);
      AllFilesAre(roots, s);
      FoundReproduced(codec, roots, plan, segments, staged, t, roots[r].name, roots[r].file);
    } else {
      var name, items := roots[r].name, roots[r].items;
      forall i | 0 <= i < |items|
        ensures ItemIn(t, Virtual(name, items[i].rel), items[i].found)
      {
        var p, f := Virtual(name, items[i].rel), items[i].found;
        assert ItemAccepted(name, items[i]);
        if f.FoundDir? {
          DirsOfAre(name, items, DirEntryAt(p, f.mtime));
          AllDirsAre(roots, DirEntryAt(p, f.mtime));
        } else {
          FilesOfAre(name, items, SourceAt(p, f));
          AllFilesAre(roots, SourceAt(p, f));
        }
        FoundReproduced(codec, roots, plan, segments, staged, t, p, f);
      }
    }
  }

  lemma FileKnown(roots: seq<Root>, s: Source)
    requires s in AllFiles(roots)
    ensures KnownName(roots, s.path)
  {
    hide AllFiles, Virtual;
    AllFilesAre(roots, s);
    var r :| 0 <= r < |roots| && s in RootFiles(roots[r]);
    if roots[r].DirRoot? {
      FilesOfAre(roots[r].name, roots[r].items, s);
    }
    assert NameOf(roots[r], s.path);
  }

  lemma DirKnown(roots: seq<Root>, e: Entry)
    requires e in AllDirs(roots)
    ensures KnownName(roots, e.path)
  {
    hide AllDirs, Virtual;
    AllDirsAre(roots, e);
    var r :| 0 <= r < |roots| && e in RootDirs(roots[r]);
    DirsOfAre(roots[r].name, roots[r].items, e);
    assert NameOf(roots[r], e.path);
  }

  lemma NameReproduced(codec: Codec, roots: seq<Root>, plan: Plan, segments: seq<Segment>, staged: map<string, Bytes>, p: string)
    requires Assembled(codec, roots, plan, segments, staged) && (forall r | 0 <= r < |roots| :: Walked(roots[r]))
    requires p in FilePaths(plan.entries) || OnTheWay(plan.entries, p)
    ensures KnownName(roots, p)
  {
    hide Assembled, Walked, AllFiles, AllDirs, KnownName, Within;
    if p in FilePaths(plan.entries) {
      var i :| 0 <= i < |plan.entries| && plan.entries[i].kind.FileEntry? && plan.entries[i].path == p;
      var e := plan.entries[i];
      if e in AllDirs(roots) {
        DirKnown(roots, e);
      } else {
        var s := EntrySource(codec, roots, plan, segments, staged, e);
        FileKnown(roots, s);
      }
    } else {
      var i :| 0 <= i < |plan.entries| && Within(FolderOf(plan.entries[i]), p);
      PlanFoldered(codec, roots, plan, segments, staged);
      WithinFolders(DirNames(AllDirs(roots)), FolderOf(plan.entries[i]), p);
      var k :| 0 <= k < |AllDirs(roots)| && AllDirs(roots)[k].path == p;
      DirKnown(roots, AllDirs(roots)[k]);
    }
  }

  /** A payload built from the plan's entries is the source tree. */
  lemma BuiltReproduces(codec: Codec, roots: seq<Root>, plan: Plan, segments: seq<Segment>, staged: map<string, Bytes>, t: Tree)
    requires Assembled(codec, roots, plan, segments, staged) && (forall r | 0 <= r < |roots| :: Walked(roots[r]))
    requires RootsAccepted(roots) && Built(t, plan.entries) && NamesWithin(map[], plan.entries, t)
    ensures Reproduces(t, roots)
  {
    hide Assembled, Walked, Built, RootsAccepted, RootIn, KnownName, FilePaths, OnTheWay;
    forall r | 0 <= r < |roots|
      ensures RootIn(t, roots[r])
    {
      RootReproduced(codec, roots, plan, segments, staged, t, r);
    }
    forall p | p in t
      ensures KnownName(roots, p)
    {
      NameReproduced(codec, roots, plan, segments, staged, p);
    }
  }

  // Finalization

  /** Materializes the downloaded segments in the hidden working directory and renames
      the payload to the destination. Nothing existing is ever replaced, the destination
      appears only complete, and the working directory is gone either way. Files that an
      earlier, killed attempt left in the working directory come along. */
  method Deliver(codec: Codec, m: Manifest, partial: Dir, places: map<string, Tree>, dest: string, now: int)
    returns (after: map<string, Tree>, left: Option<Dir>, failure: Option<ErrorCode>)
    requires Valid(m)
    ensures left.None?
    ensures failure.Some? ==> after == places
    ensures failure.None? ==>
              && dest !in places && dest in after && after == places[dest := after[dest]]
              && Built(after[dest], m.entries)
              && Files(after[dest]) == FilePaths(m.entries) + Files(partial.payload)
              && (Files(after[dest]) == FilePaths(m.entries) <==> Files(partial.payload) <= FilePaths(m.entries))
    ensures partial.payload == map[] ==>
              (failure.None? <==> dest !in places && Supplied(codec, m, partial.segments) && Treelike(m.entries))
  {
    hide Valid, Supplied, Treelike, Built, NamesWithin, AllKept, WithPaths, Files, FilePaths, Matches;
    after, left := places, None;
    var dir, r := Run(codec, partial, m, now);
    if r.Err? {
      return after, None, Some(r.error);
    }
    if dest in places {
      return after, None, Some(DestinationExists);
    }
    after := places[dest := dir.payload];
    failure := None;
  }

  // The handoff

  datatype Outcome = Arrived(payload: Tree, note: string) | NotSent(error: ErrorCode)

  /** Moves a staged transfer to the receiver: the server materializes and serves it,
      the client downloads and materializes it again. */
  method Transfer(codec: Codec, m: Manifest, staged: map<string, Bytes>, serverTime: int, clientTime: int) returns (payload: Tree)
    requires Valid(m) && Supplied(codec, m, staged) && StagedVerified(m, staged) && Treelike(m.entries)
    ensures Built(payload, m.entries) && NamesWithin(map[], m.entries, payload)
  {
    hide Valid, Supplied, StagedVerified, Treelike, Built, NamesWithin, AllKept, WithPaths;
    var server, published := Run(codec, Dir(None, map[], staged, map[]), m, serverTime);
    var manifest := published.value.published;
    WithPathsParts(m);
    WithPathsIsValid(m);
    ServesAll(server, manifest);
    var fetched := Download(server, manifest.segments);
    assert staged.Keys == SegmentIds(m.segments) by { SuppliedKeys(codec, m, staged); }
    FetchedIsStaged(m, staged, fetched);
    SuppliedAgain(codec, m, staged);
    var client, received := Run(codec, Dir(None, map[], fetched, map[]), manifest, clientTime);
    payload := client.payload;
  }

  lemma ServesAll(dir: Dir, m: Manifest)
    requires Matches(dir, m)
    ensures forall k | 0 <= k < |m.segments| :: Serves(dir, m.segments[k])
    ensures forall i, j | 0 <= i < j < |m.segments| :: m.segments[i].id != m.segments[j].id
  {
  }

  /** Sends a tree and receives it. A tree is handed over exactly when the scan accepts
      it, it is sendable and it is within the server's limits, and what arrives is the
      tree that was sent. */
  method SendAndReceive(limits: C.Limits, codec: Codec, roots: seq<Root>, l: Label, serverTime: int, clientTime: int) returns (r: Outcome)
    requires RoundTrips(codec) && GoodLabel(l)
    requires forall i | 0 <= i < |roots| :: Walked(roots[i])
    requires |AllFiles(roots)| <= MAX_INT
    ensures r.Arrived? <==> Accepted(roots) && Sendable(roots) && S.Fits(limits, roots, l.note)
    ensures r.Arrived? ==> Admitted(roots)
    ensures r.Arrived? ==> Reproduces(r.payload, roots) && r.note == l.note
    ensures r.Arrived? ==> HoldsSources(r.payload, roots)
    ensures r.NotSent? && Accepted(roots) && Sendable(roots) ==> r.error == S.Oversize(limits, roots, l.note)
  {
    hide RoundTrips, GoodLabel, Walked, Accepted, Admitted, Sendable, AllFiles, Reproduces, PlanOf, Valid, Described, Built, NamesWithin;
    hide Describes, Stores, Supplied, StagedVerified, Treelike, Assembled, RootsAccepted, Bigs, GoodPacks, S.Fits, S.Oversize;
    var scanned := Scan(roots);
    if scanned.Refused? {
      return NotSent(scanned.error);
    }
    var plan := scanned.plan;
    PlanPieces(roots, plan);
    var segments, staged := AssembleSegments(codec, plan.rawFiles, plan.packs, Big(roots));
    IsAssembled(codec, roots, plan, segments, staged);
    var m, fault := S.Submit(limits, codec, l, plan, segments, staged, roots);
    if fault.Some? {
      return NotSent(fault.value);
    }
    StagedSupplies(codec, roots, plan, segments, staged, l);
    PlanFoldered(codec, roots, plan, segments, staged);
    FolderedIsTreelike(plan.entries, DirNames(AllDirs(roots)));
    DescribedParts(l, plan, segments);
    var payload := Transfer(codec, m, staged, serverTime, clientTime);
    AcceptedRoots(roots);
    BuiltReproduces(codec, roots, plan, segments, staged, payload);
    r := Arrived(payload, m.note);
    ReproducedHolds(payload, roots);
  }

  lemma PlanPieces(roots: seq<Root>, plan: Plan)
    requires PlanOf(roots, plan)
    ensures plan.rawFiles == RawMap(Big(roots)) && GoodPacks(plan.packs)
  {
    hide GoodPacks, EntriesHold;
  }

  lemma AcceptedRoots(roots: seq<Root>)
    requires Accepted(roots)
    ensures RootsAccepted(roots)
  {
  }

  lemma IsAssembled(codec: Codec, roots: seq<Root>, plan: Plan, segments: seq<Segment>, staged: map<string, Bytes>)
    requires Accepted(roots) && PlanOf(roots, plan)
    requires Describes(segments, staged) && Stores(codec, Big(roots), plan.packs, staged)
    ensures Assembled(codec, roots, plan, segments, staged)
  {
    hide PlanOf, Describes, Stores, RootsAccepted, FilesApart;
  }
}
