/** Planning a send: a file tree becomes raw segments for large files and bounded
    packs of small ones. */
module Scanning {
  import opened Outcomes
  import opened Protocol
  import opened Sorting
  import opened Naming

  const RAW_THRESHOLD := 1048576
  const PACK_TARGET := 67108864
  const FILE_MODE := 420
  const EXEC_MODE := 493

  // What lies on disk

  datatype Found = FoundFile(data: Bytes, exec: bool, mtime: int) | FoundDir(mtime: int) | FoundOther

  /** One step of a directory walk; `rel` is "" for the directory itself. */
  datatype Item = Item(rel: string, found: Found)

  datatype Root =
    | FileRoot(name: string, file: Found)
    | DirRoot(name: string, items: seq<Item>)
    | OtherRoot(name: string)

  /** A file to send, with the bytes behind its path. */
  datatype Source = Source(path: string, data: Bytes, mtime: int, mode: nat) {
    function Size(): nat { |data| }
  }

  datatype PackSpec = PackSpec(segmentId: string, files: seq<Source>, rawBytes: int)

  datatype Plan = Plan(roots: seq<string>, entries: seq<Entry>, rawFiles: map<string, Source>, packs: seq<PackSpec>,
                       totalBytes: int, fileCount: int, dirCount: int)

  datatype Scanned = Ready(plan: Plan) | Refused(error: ErrorCode)

  function Virtual(name: string, rel: string): string {
    if rel == "" then name else name + "/" + rel
  }

  function SourceAt(path: string, f: Found): Source
    requires f.FoundFile?
  {
    Source(path, f.data, f.mtime, if f.exec then EXEC_MODE else FILE_MODE)
  }

  function DirEntryAt(path: string, mtime: int): Entry {
    Entry(path, DirectoryEntry, 0, mtime, EXEC_MODE, Text(""), "", 0)
  }

  function FileEntryFor(s: Source, id: string): Entry {
    Entry(s.path, FileEntry, s.Size(), s.mtime, s.mode, Blake3(s.data), id, 0)
  }

  // The walk

  predicate ItemAccepted(name: string, item: Item) {
    PortablePath(Virtual(name, item.rel)) && !item.found.FoundOther?
  }

  function FilesOf(name: string, items: seq<Item>): seq<Source> {
    if items == [] then []
    else
      var item := items[|items| - 1];
      FilesOf(name, items[..|items| - 1]) +
      (if item.found.FoundFile? then [SourceAt(Virtual(name, item.rel), item.found)] else [])
  }

  function DirsOf(name: string, items: seq<Item>): seq<Entry> {
    if items == [] then []
    else
      var item := items[|items| - 1];
      DirsOf(name, items[..|items| - 1]) +
      (if item.found.FoundDir? then [DirEntryAt(Virtual(name, item.rel), item.found.mtime)] else [])
  }

  method WalkDir(name: string, items: seq<Item>)
    returns (sources: seq<Source>, dirs: seq<Entry>, failure: Option<ErrorCode>)
    ensures failure.None? <==> forall i | 0 <= i < |items| :: ItemAccepted(name, items[i])
    ensures failure.None? ==> sources == FilesOf(name, items) && dirs == DirsOf(name, items)
  {
    hide PortablePath;
    sources, dirs := [], [];
    for n := 0 to |items|
      invariant forall i | 0 <= i < n :: ItemAccepted(name, items[i])
      invariant sources == FilesOf(name, items[..n]) && dirs == DirsOf(name, items[..n])
    {
      assert items[..n + 1][..n] == items[..n];
      var path := Virtual(name, items[n].rel);
      if !PortablePath(path) {
        return sources, dirs, Some(InvalidPath);
      }
      if items[n].found.FoundDir? {
        dirs := dirs + [DirEntryAt(path, items[n].found.mtime)];
      } else if items[n].found.FoundFile? {
        sources := sources + [SourceAt(path, items[n].found)];
      } else {
        return sources, dirs, Some(UnsupportedEntry);
      }
    }
    assert items[..|items|] == items;
    failure := None;
  }

  predicate RootAccepted(r: Root) {
    && PortableComponent(r.name)
    && match r
       case FileRoot(_, f) => f.FoundFile?
       case DirRoot(name, items) => forall i | 0 <= i < |items| :: ItemAccepted(name, items[i])
       case OtherRoot(_) => false
  }

  predicate NamesApart(roots: seq<Root>) {
    forall i, j | 0 <= i < j < |roots| :: Lower(roots[i].name) != Lower(roots[j].name)
  }

  function RootFiles(r: Root): seq<Source> {
    match r
    case FileRoot(name, f) => if f.FoundFile? then [SourceAt(name, f)] else []
    case DirRoot(name, items) => FilesOf(name, items)
    case OtherRoot(_) => []
  }

  function RootDirs(r: Root): seq<Entry> {
    if r.DirRoot? then DirsOf(r.name, r.items) else []
  }

  function AllFiles(roots: seq<Root>): seq<Source> {
    if roots == [] then [] else AllFiles(roots[..|roots| - 1]) + RootFiles(roots[|roots| - 1])
  }

  function AllDirs(roots: seq<Root>): seq<Entry> {
    if roots == [] then [] else AllDirs(roots[..|roots| - 1]) + RootDirs(roots[|roots| - 1])
  }

  function RootNames(roots: seq<Root>): seq<string> {
    seq(|roots|, i requires 0 <= i < |roots| => roots[i].name)
  }

  predicate RootsAccepted(roots: seq<Root>) {
    (forall i | 0 <= i < |roots| :: RootAccepted(roots[i])) && NamesApart(roots)
  }

  function NameKeys(roots: seq<Root>, n: nat): set<string>
    requires n <= |roots|
  {
    set i | 0 <= i < n :: Lower(roots[i].name)
  }

  lemma RootsStep(roots: seq<Root>, n: nat)
    requires n < |roots|
    ensures RootsAccepted(roots[..n + 1]) <==>
              RootsAccepted(roots[..n]) && RootAccepted(roots[n]) && Lower(roots[n].name) !in NameKeys(roots, n)
    ensures NameKeys(roots, n + 1) == NameKeys(roots, n) + {Lower(roots[n].name)}
    ensures AllFiles(roots[..n + 1]) == AllFiles(roots[..n]) + RootFiles(roots[n])
    ensures AllDirs(roots[..n + 1]) == AllDirs(roots[..n]) + RootDirs(roots[n])
    ensures RootNames(roots[..n + 1]) == RootNames(roots[..n]) + [roots[n].name]
  {
    hide RootAccepted, Lower, RootFiles, RootDirs;
    var a, b := roots[..n], roots[..n + 1];
    assert b[..n] == a;
    assert b == a + [roots[n]];
    if RootsAccepted(b) {
      forall i | 0 <= i < |a|
        ensures RootAccepted(a[i])
      {
        assert a[i] == b[i];
      }
      forall i, j | 0 <= i < j < |a|
        ensures Lower(a[i].name) != Lower(a[j].name)
      {
        assert a[i] == b[i] && a[j] == b[j];
      }
      assert RootAccepted(b[n]);
      forall i | 0 <= i < n
        ensures Lower(roots[i].name) != Lower(roots[n].name)
      {
        assert b[i] == roots[i] && b[n] == roots[n];
      }
    }
  }

  lemma RootsShorter(roots: seq<Root>, n: nat)
    requires n <= |roots| && RootsAccepted(roots)
    ensures RootsAccepted(roots[..n])
  {
    hide RootAccepted, Lower;
    var a := roots[..n];
    forall i | 0 <= i < |a|
      ensures RootAccepted(a[i])
    {
      assert a[i] == roots[i];
    }
    forall i, j | 0 <= i < j < |a|
      ensures Lower(a[i].name) != Lower(a[j].name)
    {
      assert a[i] == roots[i] && a[j] == roots[j];
    }
  }

  lemma RootRefused(roots: seq<Root>, n: nat)
    requires n < |roots|
    requires !RootAccepted(roots[n]) || Lower(roots[n].name) in NameKeys(roots, n)
    ensures !RootsAccepted(roots)
  {
    hide RootAccepted, Lower, RootsAccepted;
    if RootsAccepted(roots) {
      RootsShorter(roots, n + 1);
      RootsStep(roots, n);
    }
  }

  /** Collects what one root contributes. */
  method ScanRoot(root: Root) returns (sources: seq<Source>, dirs: seq<Entry>, failure: Option<ErrorCode>)
    requires PortableComponent(root.name)
    ensures failure.None? <==> RootAccepted(root)
    ensures failure.None? ==> sources == RootFiles(root) && dirs == RootDirs(root)
  {
    hide PortableComponent, ItemAccepted;
    sources, dirs, failure := [], [], None;
    if root.FileRoot? && root.file.FoundFile? {
      sources := [SourceAt(root.name, root.file)];
    } else if root.DirRoot? {
      sources, dirs, failure := WalkDir(root.name, root.items);
    } else {
      failure := Some(UnsupportedEntry);
    }
  }

  method ScanRoots(roots: seq<Root>)
    returns (names: seq<string>, sources: seq<Source>, dirs: seq<Entry>, failure: Option<ErrorCode>)
    ensures failure.None? <==> RootsAccepted(roots)
    ensures failure.None? ==> names == RootNames(roots) && sources == AllFiles(roots) && dirs == AllDirs(roots)
  {
    hide PortableComponent, Lower, RootFiles, RootDirs, AllFiles, AllDirs, NameKeys, RootsAccepted, RootNames;
    names, sources, dirs := [], [], [];
    var seen: set<string> := {};
    ScanStart(roots);
    for n := 0 to |roots|
      invariant RootsAccepted(roots[..n]) && seen == NameKeys(roots, n) && names == RootNames(roots[..n])
      invariant sources == AllFiles(roots[..n]) && dirs == AllDirs(roots[..n])
    {
      RootsStep(roots, n);
      var root := roots[n];
      if !PortableComponent(root.name) {
        RootRefused(roots, n);
        return names, sources, dirs, Some(InvalidPath);
      }
      if Lower(root.name) in seen {
        RootRefused(roots, n);
        return names, sources, dirs, Some(DuplicatePath);
      }
      seen := seen + {Lower(root.name)};
      names := names + [root.name];
      var found, under, problem := ScanRoot(root);
      if problem.Some? {
        RootRefused(roots, n);
        return names, sources, dirs, problem;
      }
      sources, dirs := sources + found, dirs + under;
    }
    assert roots[..|roots|] == roots;
    failure := None;
  }

  lemma ScanStart(roots: seq<Root>)
    ensures RootsAccepted(roots[..0]) && NameKeys(roots, 0) == {} && RootNames(roots[..0]) == []
    ensures AllFiles(roots[..0]) == [] && AllDirs(roots[..0]) == []
  {
  }

  // The plan

  function Sum(files: seq<Source>): nat {
    if files == [] then 0 else Sum(files[..|files| - 1]) + files[|files| - 1].Size()
  }

  /** The files that travel alone. */
  function Bigs(files: seq<Source>): seq<Source> {
    if files == [] then []
    else
      var s := files[|files| - 1];
      Bigs(files[..|files| - 1]) + (if s.Size() >= RAW_THRESHOLD then [s] else [])
  }

  /** The files that travel in packs. */
  function Smalls(files: seq<Source>): seq<Source> {
    if files == [] then []
    else
      var s := files[|files| - 1];
      Smalls(files[..|files| - 1]) + (if s.Size() < RAW_THRESHOLD then [s] else [])
  }

  function Flat(packs: seq<PackSpec>): seq<Source> {
    if packs == [] then [] else Flat(packs[..|packs| - 1]) + packs[|packs| - 1].files
  }

  function EntriesFor(files: seq<Source>, id: string): seq<Entry> {
    seq(|files|, i requires 0 <= i < |files| => FileEntryFor(files[i], id))
  }

  function RawEntries(big: seq<Source>): seq<Entry> {
    seq(|big|, i requires 0 <= i < |big| => FileEntryFor(big[i], RawId(i)))
  }

  function PackEntries(packs: seq<PackSpec>): seq<Entry> {
    if packs == [] then []
    else PackEntries(packs[..|packs| - 1]) + EntriesFor(packs[|packs| - 1].files, packs[|packs| - 1].segmentId)
  }

  function RawMap(big: seq<Source>): (m: map<string, Source>)
    ensures m.Keys == set i | 0 <= i < |big| :: RawId(i)
  {
    if big == [] then map[]
    else
      var n := |big| - 1;
      assert (set i | 0 <= i < |big| :: RawId(i)) == (set i | 0 <= i < n :: RawId(i)) + {RawId(n)};
      RawMap(big[..n])[RawId(n) := big[n]]
  }

  predicate GoodPack(p: PackSpec, index: nat) {
    && p.segmentId == PackId(index)
    && p.files != []
    && p.rawBytes == Sum(p.files)
    && p.rawBytes < PACK_TARGET + RAW_THRESHOLD
  }

  predicate FullPacks(packs: seq<PackSpec>, n: nat)
    requires n <= |packs|
  {
    forall j | 0 <= j < n :: packs[j].rawBytes >= PACK_TARGET
  }

  predicate GoodPacks(packs: seq<PackSpec>) {
    forall j | 0 <= j < |packs| :: GoodPack(packs[j], j)
  }

  /** A file's lowered path is neither a directory's nor an earlier file's. */
  predicate FileApart(dirs: seq<Entry>, files: seq<Source>, n: nat)
    requires n < |files|
  {
    && (forall i | 0 <= i < |dirs| :: Lower(dirs[i].path) != Lower(files[n].path))
    && (forall i | 0 <= i < n :: Lower(files[i].path) != Lower(files[n].path))
  }

  predicate FilesApart(dirs: seq<Entry>, files: seq<Source>) {
    forall n | 0 <= n < |files| :: FileApart(dirs, files, n)
  }

  function SortedSources(files: seq<Source>): (r: seq<Source>)
    ensures multiset(r) == multiset(files)
  {
    Sort(files, (s: Source) => s.path)
  }

  // Properties of the partition

  lemma {:induction false} SumAppend(a: seq<Source>, b: seq<Source>)
    ensures Sum(a + b) == Sum(a) + Sum(b)
  {
    if b == [] {
      assert a + b == a;
    } else {
      SumAppend(a, b[..|b| - 1]);
      assert (a + b)[..|a + b| - 1] == a + b[..|b| - 1];
    }
  }

  lemma PartitionStep(files: seq<Source>, n: nat)
    requires n < |files|
    ensures var s := files[n];
            && Bigs(files[..n + 1]) == Bigs(files[..n]) + (if s.Size() >= RAW_THRESHOLD then [s] else [])
            && Smalls(files[..n + 1]) == Smalls(files[..n]) + (if s.Size() < RAW_THRESHOLD then [s] else [])
            && Sum(files[..n + 1]) == Sum(files[..n]) + s.Size()
  {
    assert files[..n + 1][..n] == files[..n];
  }

  /** Every file is on exactly one side, so no file is lost or sent twice. */
  lemma {:induction false} PartitionIsExact(files: seq<Source>)
    ensures multiset(files) == multiset(Bigs(files)) + multiset(Smalls(files))
  {
    if files != [] {
      var n := |files| - 1;
      var rest, s := files[..n], files[n];
      PartitionIsExact(rest);
      assert files == rest + [s];
      assert s.Size() >= RAW_THRESHOLD ==> Smalls(files) == Smalls(rest);
      assert s.Size() < RAW_THRESHOLD ==> Bigs(files) == Bigs(rest);
    }
  }

  /** A file travels alone exactly when it reaches the threshold. */
  lemma {:induction false} PartitionBySize(files: seq<Source>)
    ensures forall s | s in Bigs(files) :: s.Size() >= RAW_THRESHOLD
    ensures forall s | s in Smalls(files) :: s.Size() < RAW_THRESHOLD
  {
    if files != [] {
      PartitionBySize(files[..|files| - 1]);
    }
  }

  /** The packs cannot be many: all but the last are full. */
  lemma PackCount(packs: seq<PackSpec>)
    requires GoodPacks(packs) && (packs != [] ==> FullPacks(packs, |packs| - 1))
    ensures |packs| <= Sum(Flat(packs)) / PACK_TARGET + 1
  {
    if packs != [] {
      var n := |packs| - 1;
      FullSum(packs[..n]);
      SumAppend(Flat(packs[..n]), packs[n].files);
    }
  }

  lemma {:induction false} FullSum(packs: seq<PackSpec>)
    requires GoodPacks(packs) && FullPacks(packs, |packs|)
    ensures Sum(Flat(packs)) >= |packs| * PACK_TARGET
  {
    if packs != [] {
      var n := |packs| - 1;
      FullSum(packs[..n]);
      SumAppend(Flat(packs[..n]), packs[n].files);
      assert GoodPack(packs[n], n);
    }
  }

  // Planning

  /** The plan under construction; `current` is the pack being filled. */
  datatype Draft = Draft(entries: seq<Entry>, rawFiles: map<string, Source>, packs: seq<PackSpec>,
                         current: seq<Source>, rawBytes: int, rawIndex: nat, packIndex: nat)

  /** The packs so far are good, numbered in order, and with the current files hold
      the small files in order. */
  predicate PacksHold(smalls: seq<Source>, packs: seq<PackSpec>, current: seq<Source>) {
    GoodPacks(packs) && Flat(packs) + current == smalls
  }

  predicate RawsHold(bigs: seq<Source>, rawFiles: map<string, Source>, rawIndex: nat) {
    rawIndex == |bigs| && rawFiles == RawMap(bigs)
  }

  predicate EntriesHold(dirs: seq<Entry>, bigs: seq<Source>, packs: seq<PackSpec>, entries: seq<Entry>) {
    multiset(entries) == multiset(dirs) + multiset(RawEntries(bigs)) + multiset(PackEntries(packs))
  }

  /** The first `n` files are planned. */
  predicate Planned(dirs: seq<Entry>, files: seq<Source>, n: nat, d: Draft)
    requires n <= |files|
  {
    && PacksHold(Smalls(files[..n]), d.packs, d.current)
    && RawsHold(Bigs(files[..n]), d.rawFiles, d.rawIndex)
    && EntriesHold(dirs, Bigs(files[..n]), d.packs, d.entries)
    && d.rawBytes == Sum(d.current)
    && d.packIndex == |d.packs|
  }

  /** Closes the current pack, if it has files. */
  method FlushPack(d: Draft) returns (f: Draft)
    ensures d.current == [] ==> f == d
    ensures d.current != [] ==>
              var id := PackId(d.packIndex);
              f == Draft(d.entries + EntriesFor(d.current, id), d.rawFiles,
                         d.packs + [PackSpec(id, d.current, d.rawBytes)], [], 0, d.rawIndex, d.packIndex + 1)
  {
    if d.current == [] {
      return d;
    }
    var id := PackId(d.packIndex);
    var entries := d.entries;
    for i := 0 to |d.current|
      invariant entries == d.entries + EntriesFor(d.current, id)[..i]
    {
      entries := entries + [FileEntryFor(d.current[i], id)];
    }
    f := Draft(entries, d.rawFiles, d.packs + [PackSpec(id, d.current, d.rawBytes)], [], 0, d.rawIndex, d.packIndex + 1);
  }

  lemma PackClosed(smalls: seq<Source>, packs: seq<PackSpec>, current: seq<Source>, p: PackSpec)
    requires PacksHold(smalls, packs, current) && current != []
    requires p == PackSpec(PackId(|packs|), current, Sum(current)) && p.rawBytes < PACK_TARGET + RAW_THRESHOLD
    ensures PacksHold(smalls, packs + [p], [])
    ensures PackEntries(packs + [p]) == PackEntries(packs) + EntriesFor(current, p.segmentId)
  {
    assert (packs + [p])[..|packs|] == packs;
    assert Flat(packs + [p]) + [] == Flat(packs) + current;
  }

  lemma EntriesWithPack(dirs: seq<Entry>, bigs: seq<Source>, packs: seq<PackSpec>, entries: seq<Entry>, p: PackSpec)
    requires EntriesHold(dirs, bigs, packs, entries)
    requires PackEntries(packs + [p]) == PackEntries(packs) + EntriesFor(p.files, p.segmentId)
    ensures EntriesHold(dirs, bigs, packs + [p], entries + EntriesFor(p.files, p.segmentId))
  {
  }

  lemma Flushed(dirs: seq<Entry>, files: seq<Source>, n: nat, d: Draft)
    requires n <= |files| && Planned(dirs, files, n, d) && d.current != [] && d.rawBytes < PACK_TARGET + RAW_THRESHOLD
    ensures var id := PackId(d.packIndex);
            Planned(dirs, files, n,
                    Draft(d.entries + EntriesFor(d.current, id), d.rawFiles,
                          d.packs + [PackSpec(id, d.current, d.rawBytes)], [], 0, d.rawIndex, d.packIndex + 1))
  {
    hide PacksHold, RawsHold, EntriesHold, PackId;
    var p := PackSpec(PackId(d.packIndex), d.current, d.rawBytes);
    PackClosed(Smalls(files[..n]), d.packs, d.current, p);
    EntriesWithPack(dirs, Bigs(files[..n]), d.packs, d.entries, p);
  }

  lemma RawAdded(dirs: seq<Entry>, bigs: seq<Source>, packs: seq<PackSpec>, entries: seq<Entry>, rawFiles: map<string, Source>, s: Source)
    requires RawsHold(bigs, rawFiles, |bigs|) && EntriesHold(dirs, bigs, packs, entries)
    ensures RawsHold(bigs + [s], rawFiles[RawId(|bigs|) := s], |bigs| + 1)
    ensures EntriesHold(dirs, bigs + [s], packs, entries + [FileEntryFor(s, RawId(|bigs|))])
  {
    hide RawId;
    assert (bigs + [s])[..|bigs|] == bigs;
    assert RawEntries(bigs + [s]) == RawEntries(bigs) + [FileEntryFor(s, RawId(|bigs|))];
  }

  lemma SmallAdded(smalls: seq<Source>, packs: seq<PackSpec>, current: seq<Source>, s: Source)
    requires PacksHold(smalls, packs, current)
    ensures PacksHold(smalls + [s], packs, current + [s])
    ensures Sum(current + [s]) == Sum(current) + s.Size()
  {
    assert Flat(packs) + (current + [s]) == Flat(packs) + current + [s];
    assert (current + [s])[..|current|] == current;
  }

  lemma FileAdded(dirs: seq<Entry>, files: seq<Source>, n: nat, d: Draft)
    requires n < |files| && Planned(dirs, files, n, d)
    ensures var s := files[n];
            && (s.Size() >= RAW_THRESHOLD ==>
                  var id := RawId(d.rawIndex);
                  Planned(dirs, files, n + 1,
                          Draft(d.entries + [FileEntryFor(s, id)], d.rawFiles[id := s], d.packs, d.current, d.rawBytes,
                                d.rawIndex + 1, d.packIndex)))
            && (s.Size() < RAW_THRESHOLD ==>
                  Planned(dirs, files, n + 1,
                          Draft(d.entries, d.rawFiles, d.packs, d.current + [s], d.rawBytes + s.Size(), d.rawIndex, d.packIndex)))
  {
    hide EntriesHold, PacksHold, RawsHold, RawId, Bigs, Smalls, Sum;
    var s := files[n];
    PartitionStep(files, n);
    if s.Size() >= RAW_THRESHOLD {
      assert d.rawIndex == |Bigs(files[..n])| by { RawsCounted(Bigs(files[..n]), d.rawFiles, d.rawIndex); }
      RawAdded(dirs, Bigs(files[..n]), d.packs, d.entries, d.rawFiles, s);
      assert Smalls(files[..n + 1]) == Smalls(files[..n]);
    } else {
      SmallAdded(Smalls(files[..n]), d.packs, d.current, s);
      assert Bigs(files[..n + 1]) == Bigs(files[..n]);
    }
  }

  lemma RawsCounted(bigs: seq<Source>, rawFiles: map<string, Source>, rawIndex: nat)
    requires RawsHold(bigs, rawFiles, rawIndex)
    ensures rawIndex == |bigs|
  {
  }

  function LowerDirs(dirs: seq<Entry>): set<string> {
    set i | 0 <= i < |dirs| :: Lower(dirs[i].path)
  }

  function LowerFiles(files: seq<Source>, n: nat): set<string>
    requires n <= |files|
  {
    set i | 0 <= i < n :: Lower(files[i].path)
  }

  lemma ApartStep(dirs: seq<Entry>, files: seq<Source>, n: nat)
    requires n < |files|
    ensures FileApart(dirs, files, n) <==> Lower(files[n].path) !in LowerDirs(dirs) + LowerFiles(files, n)
    ensures LowerFiles(files, n + 1) == LowerFiles(files, n) + {Lower(files[n].path)}
  {
  }

  /** Distributes the sorted files over raw segments and packs. */
  method PlanFiles(dirs: seq<Entry>, files: seq<Source>) returns (d: Draft, total: int, count: int, failure: Option<ErrorCode>)
    ensures failure.None? <==> FilesApart(dirs, files)
    ensures failure.None? <==> FilesSeparate(dirs, files)
    ensures failure.Some? ==> failure.value == DuplicatePath
    ensures failure.None? ==>
              && Planned(dirs, files, |files|, d) && d.current == []
              && (d.packs != [] ==> FullPacks(d.packs, |d.packs| - 1))
              && total == Sum(files) && count == |files|
  {
    hide Planned, Lower, LowerDirs, LowerFiles, FileApart, RawId, PackId, EntriesFor, GoodPacks;
    hide FilesSeparate;
    FilesApartExactly(dirs, files);
    d := Draft(dirs, map[], [], [], 0, 0, 0);
    PlannedStart(dirs, files);
    total, count := 0, 0;
    var seen := SeenDirs(dirs);
    assert LowerFiles(files, 0) == {} by { NoFilesSeen(files); }
    for n := 0 to |files|
      invariant Planned(dirs, files, n, d)
      invariant FullPacks(d.packs, |d.packs|) && d.rawBytes < PACK_TARGET
      invariant forall k | 0 <= k < n :: FileApart(dirs, files, k)
      invariant seen == LowerDirs(dirs) + LowerFiles(files, n)
      invariant total == Sum(files[..n]) && count == n
    {
      var s := files[n];
      ApartStep(dirs, files, n);
      if Lower(s.path) in seen {
        return d, total, count, Some(DuplicatePath);
      }
      seen := seen + {Lower(s.path)};
      PartitionStep(files, n);
      FileAdded(dirs, files, n, d);
      total, count := total + s.Size(), count + 1;
      if s.Size() >= RAW_THRESHOLD {
        var id := RawId(d.rawIndex);
        d := Draft(d.entries + [FileEntryFor(s, id)], d.rawFiles[id := s], d.packs, d.current, d.rawBytes, d.rawIndex + 1, d.packIndex);
      } else {
        d := Draft(d.entries, d.rawFiles, d.packs, d.current + [s], d.rawBytes + s.Size(), d.rawIndex, d.packIndex);
        if d.rawBytes >= PACK_TARGET {
          Flushed(dirs, files, n + 1, d);
          d := FlushPack(d);
        }
      }
    }
    assert files[..|files|] == files;
    if d.current != [] {
      Flushed(dirs, files, |files|, d);
    }
    d := FlushPack(d);
    failure := None;
  }

  lemma NoFilesSeen(files: seq<Source>)
    ensures LowerFiles(files, 0) == {}
  {
  }

  lemma PlannedStart(dirs: seq<Entry>, files: seq<Source>)
    ensures Planned(dirs, files, 0, Draft(dirs, map[], [], [], 0, 0, 0))
  {
  }

  method SeenDirs(dirs: seq<Entry>) returns (seen: set<string>)
    ensures seen == LowerDirs(dirs)
  {
    hide Lower;
    seen := {};
    for n := 0 to |dirs|
      invariant seen == set i | 0 <= i < n :: Lower(dirs[i].path)
    {
      seen := seen + {Lower(dirs[n].path)};
    }
  }

  // Scan

  function CountDirs(entries: seq<Entry>): nat {
    if entries == [] then 0
    else CountDirs(entries[..|entries| - 1]) + (if entries[|entries| - 1].kind.DirectoryEntry? then 1 else 0)
  }

  predicate Accepted(roots: seq<Root>) {
    && roots != []
    && RootsAccepted(roots)
    && (AllFiles(roots) != [] || AllDirs(roots) != [])
    && FilesApart(AllDirs(roots), SortedSources(AllFiles(roots)))
  }

  /** The trees a scan takes, without sorting and lowering: every root and item is
      portable, and no two names that must coexist differ in case only. */
  predicate Admitted(roots: seq<Root>) {
    && roots != [] && (AllFiles(roots) != [] || AllDirs(roots) != [])
    && (forall i | 0 <= i < |roots| :: RootAccepted(roots[i]))
    && (forall i, j | 0 <= i < j < |roots| :: !Clash(roots[i].name, roots[j].name))
    && FilesSeparate(AllDirs(roots), AllFiles(roots))
  }

  predicate FilesSeparate(dirs: seq<Entry>, files: seq<Source>) {
    && (forall i, j | 0 <= i < |files| && 0 <= j < |files| && i != j :: !Clash(files[i].path, files[j].path))
    && (forall i, k | 0 <= i < |files| && 0 <= k < |dirs| :: !Clash(files[i].path, dirs[k].path))
  }

  predicate Separate(s: Source, t: Source) { !Clash(s.path, t.path) }

  /** Comparing lowered paths in path order finds exactly the clashes. */
  lemma FilesApartExactly(dirs: seq<Entry>, files: seq<Source>)
    ensures FilesApart(dirs, files) <==> FilesSeparate(dirs, files)
  {
    hide Lower, Clash;
    forall i, j | 0 <= i < |files| && 0 <= j < |files|
      ensures Lower(files[i].path) == Lower(files[j].path) <==> Clash(files[i].path, files[j].path)
    {
      ClashIsSameLower(files[i].path, files[j].path);
    }
    forall i, k | 0 <= i < |files| && 0 <= k < |dirs|
      ensures Lower(dirs[k].path) == Lower(files[i].path) <==> Clash(files[i].path, dirs[k].path)
    {
      ClashIsSameLower(files[i].path, dirs[k].path);
    }
    if FilesApart(dirs, files) {
      forall i, j | 0 <= i < |files| && 0 <= j < |files| && i != j
        ensures !Clash(files[i].path, files[j].path)
      {
        assert FileApart(dirs, files, if i < j then j else i);
      }
      forall i, k | 0 <= i < |files| && 0 <= k < |dirs|
        ensures !Clash(files[i].path, dirs[k].path)
      {
        assert FileApart(dirs, files, i);
      }
    }
  }

  lemma {:induction false} SeparateInAnyOrder(dirs: seq<Entry>, files: seq<Source>, sorted: seq<Source>)
    requires multiset(sorted) == multiset(files) && FilesSeparate(dirs, files)
    ensures FilesSeparate(dirs, sorted)
  {
    hide Clash;
    PairwiseInAnyOrder(sorted, files, Separate);
    SameElements(sorted, files);
    forall i, j | 0 <= i < |sorted| && 0 <= j < |sorted| && i != j
      ensures !Clash(sorted[i].path, sorted[j].path)
    {
      assert Separate(sorted[i], sorted[j]);
    }
    forall i, k | 0 <= i < |sorted| && 0 <= k < |dirs|
      ensures !Clash(sorted[i].path, dirs[k].path)
    {
      assert sorted[i] in files;
    }
  }

  lemma NamesApartExactly(roots: seq<Root>)
    ensures NamesApart(roots) <==> forall i, j | 0 <= i < j < |roots| :: !Clash(roots[i].name, roots[j].name)
  {
    hide Lower, Clash;
    forall i, j | 0 <= i < j < |roots|
      ensures Lower(roots[i].name) == Lower(roots[j].name) <==> Clash(roots[i].name, roots[j].name)
    {
      ClashIsSameLower(roots[i].name, roots[j].name);
    }
  }

  lemma AcceptedIsAdmitted(roots: seq<Root>)
    ensures Accepted(roots) <==> Admitted(roots)
  {
    hide RootAccepted, NamesApart, FilesSeparate, FilesApart, AllFiles, AllDirs, Clash, SortedSources;
    var files := AllFiles(roots);
    var sorted := SortedSources(files);
    NamesApartExactly(roots);
    FilesApartExactly(AllDirs(roots), sorted);
    if FilesSeparate(AllDirs(roots), files) {
      SeparateInAnyOrder(AllDirs(roots), files, sorted);
    }
    if FilesSeparate(AllDirs(roots), sorted) {
      SeparateInAnyOrder(AllDirs(roots), sorted, files);
    }
  }

  /** What a plan promises about its files, in path order. */
  predicate PlanOf(roots: seq<Root>, plan: Plan) {
    var files := SortedSources(AllFiles(roots));
    && plan.roots == RootNames(roots)
    && plan.rawFiles == RawMap(Bigs(files))
    && GoodPacks(plan.packs) && Flat(plan.packs) == Smalls(files)
    && (plan.packs != [] ==> FullPacks(plan.packs, |plan.packs| - 1))
    && EntriesHold(AllDirs(roots), Bigs(files), plan.packs, plan.entries)
    && plan.totalBytes == Sum(files) && plan.fileCount == |files|
  }

  /** A pack counts its bytes, and holds less than 65 MiB and, but for the last one, at
      least 64 MiB of them. */
  predicate PackSized(packs: seq<PackSpec>, j: nat)
    requires j < |packs|
  {
    && packs[j].files != [] && packs[j].rawBytes == Sum(packs[j].files)
    && packs[j].rawBytes < 68157440 && (j + 1 < |packs| ==> packs[j].rawBytes >= 67108864)
  }

  lemma PacksSized(packs: seq<PackSpec>)
    requires GoodPacks(packs) && (packs != [] ==> FullPacks(packs, |packs| - 1))
    ensures forall j | 0 <= j < |packs| :: PackSized(packs, j)
  {
    hide Sum, PackId;
    forall j | 0 <= j < |packs|
      ensures PackSized(packs, j)
    {
      assert GoodPack(packs[j], j);
    }
  }

  /** Scans the roots. It accepts exactly the portable trees without name clashes, and
      every accepted file lands in exactly one segment. */
  method Scan(roots: seq<Root>) returns (r: Scanned)
    ensures r.Ready? <==> Accepted(roots)
    ensures r.Ready? <==> Admitted(roots)
    ensures r.Ready? ==> PlanOf(roots, r.plan) && r.plan.dirCount == CountDirs(r.plan.entries)
    ensures r.Ready? ==> |r.plan.packs| <= Sum(Smalls(SortedSources(AllFiles(roots)))) / 67108864 + 1
    ensures r.Ready? ==> forall j | 0 <= j < |r.plan.packs| :: PackSized(r.plan.packs, j)
  {
    hide RootsAccepted, FilesApart, SortedSources, AllFiles, AllDirs, RootNames, GoodPacks, EntriesHold, Smalls, Bigs, Flat, Sum, Admitted;
    AcceptedIsAdmitted(roots);
    if roots == [] {
      return Refused(NoFiles);
    }
    var names, sources, dirs, problem := ScanRoots(roots);
    if problem.Some? {
      return Refused(problem.value);
    }
    if sources == [] && dirs == [] {
      return Refused(NoFiles);
    }
    var files := SortedSources(sources);
    var d, total, count, clash := PlanFiles(dirs, files);
    if clash.Some? {
      return Refused(clash.value);
    }
    var dirCount := 0;
    for n := 0 to |d.entries|
      invariant dirCount == CountDirs(d.entries[..n])
    {
      assert d.entries[..n + 1][..n] == d.entries[..n];
      if d.entries[n].kind.DirectoryEntry? {
        dirCount := dirCount + 1;
      }
    }
    assert d.entries[..|d.entries|] == d.entries;
    assert files[..|files|] == files;
    assert Flat(d.packs) + [] == Flat(d.packs);
    PackCount(d.packs);
    PacksSized(d.packs);
    r := Ready(Plan(names, d.entries, d.rawFiles, d.packs, total, count, dirCount));
  }

  // What a plan means

  lemma {:induction false} RawMapAt(bigs: seq<Source>, i: nat)
    requires i < |bigs|
    ensures RawId(i) in RawMap(bigs) && RawMap(bigs)[RawId(i)] == bigs[i]
  {
    hide RawId;
    var n := |bigs| - 1;
    if i < n {
      IdsDiffer(i, n);
      RawMapAt(bigs[..n], i);
    }
  }

  lemma {:induction false} RawMapSize(bigs: seq<Source>)
    ensures |RawMap(bigs)| == |bigs|
  {
    if bigs != [] {
      var n := |bigs| - 1;
      RawMapSize(bigs[..n]);
      forall i | 0 <= i < n
        ensures RawId(i) != RawId(n)
      {
        IdsDiffer(i, n);
      }
      assert RawId(n) !in RawMap(bigs[..n]);
    }
  }

  /** The files that travel alone, by segment number. */
  predicate TravelAlone(plan: Plan, alone: seq<Source>) {
    && |plan.rawFiles| == |alone|
    && forall i | 0 <= i < |alone| :: RawId(i) in plan.rawFiles && plan.rawFiles[RawId(i)] == alone[i]
  }

  /** Every scanned file is in exactly one segment: alone when it reaches the threshold,
      otherwise in a pack. */
  lemma OneSegmentEach(roots: seq<Root>, plan: Plan) returns (alone: seq<Source>)
    requires PlanOf(roots, plan)
    ensures TravelAlone(plan, alone)
    ensures multiset(AllFiles(roots)) == multiset(alone) + multiset(Flat(plan.packs))
    ensures forall s | s in alone :: |s.data| >= 1048576
    ensures forall s | s in Flat(plan.packs) :: |s.data| < 1048576
  {
    hide Bigs, Smalls, AllFiles, SortedSources, EntriesHold, GoodPacks, FullPacks, RawMap, Sum, Flat, RawId;
    var files := SortedSources(AllFiles(roots));
    alone := Bigs(files);
    RawMapSize(alone);
    forall i | 0 <= i < |alone|
      ensures RawId(i) in plan.rawFiles && plan.rawFiles[RawId(i)] == alone[i]
    {
      RawMapAt(alone, i);
    }
    PartitionIsExact(files);
    PartitionBySize(files);
  }

  lemma {:induction false} SmallsAreFiles(files: seq<Source>)
    ensures forall s | s in Smalls(files) :: s in files
  {
    if files != [] {
      SmallsAreFiles(files[..|files| - 1]);
    }
  }

  lemma {:induction false} SmallsInOrder(files: seq<Source>)
    requires SortedBy(files, (s: Source) => s.path)
    ensures SortedBy(Smalls(files), (s: Source) => s.path)
  {
    hide SortedBy, StrLeq;
    if files != [] {
      var n := |files| - 1;
      SortedPrefix(files, n, (s: Source) => s.path);
      SmallsInOrder(files[..n]);
      SmallsAreFiles(files[..n]);
      if files[n].Size() < RAW_THRESHOLD {
        SortedSnoc(Smalls(files[..n]), files[n], (s: Source) => s.path);
      } else {
        assert Smalls(files) == Smalls(files[..n]);
      }
    }
  }

  /** The packs, one after another, hold the small files in path order. */
  lemma PacksInPathOrder(roots: seq<Root>, plan: Plan)
    requires PlanOf(roots, plan)
    ensures SortedBy(Flat(plan.packs), (s: Source) => s.path)
  {
    hide Smalls, AllFiles, EntriesHold, GoodPacks, FullPacks, RawMap, Sum, Flat;
    SortSorts(AllFiles(roots), (s: Source) => s.path);
    SmallsInOrder(SortedSources(AllFiles(roots)));
  }
}
