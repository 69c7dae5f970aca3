/** Which scanned trees make a manifest the server accepts. */
module Acceptance {
  import opened Outcomes
  import opened Protocol
  import opened Validation
  import opened Sorting
  import opened Naming
  import opened Scanning
  import opened Payloads
  import opened Paths
  import opened Assembling

  datatype Label = Label(transferId: string, createdAt: int, note: string)

  /** The server names the transfer, the clock is set, and the note passed its check. */
  predicate GoodLabel(l: Label) {
    16 <= ByteLen(l.transferId) <= 128 && l.createdAt != 0 && ByteLen(l.note) <= MAX_NOTE_BYTES
  }

  function Described(l: Label, plan: Plan, segments: seq<Segment>): Manifest {
    Manifest(1, l.transferId, l.createdAt, l.note, plan.roots, "blake3", segments, plan.entries)
  }

  predicate DirsApart(dirs: seq<Entry>) {
    forall i, j | 0 <= i < j < |dirs| :: !Clash(dirs[i].path, dirs[j].path)
  }

  /** What the scan leaves to the sender: a file, no two directories that differ in
      case only, and no time before 1970. */
  predicate Sendable(roots: seq<Root>) {
    && AllFiles(roots) != []
    && DirsApart(AllDirs(roots))
    && (forall i | 0 <= i < |AllFiles(roots)| :: AllFiles(roots)[i].mtime >= 0)
    && (forall i | 0 <= i < |AllDirs(roots)| :: AllDirs(roots)[i].mtime >= 0)
  }

  // Where paths come from

  lemma {:induction false} DirsOfAre(name: string, items: seq<Item>, e: Entry)
    ensures e in DirsOf(name, items) <==>
              exists i :: 0 <= i < |items| && items[i].found.FoundDir? && e == DirEntryAt(Virtual(name, items[i].rel), items[i].found.mtime)
  {
    if items != [] {
      var n := |items| - 1;
      DirsOfAre(name, items[..n], e);
      assert items == items[..n] + [items[n]];
    }
  }

  lemma {:induction false} FilesOfAre(name: string, items: seq<Item>, s: Source)
    ensures s in FilesOf(name, items) <==>
              exists i :: 0 <= i < |items| && items[i].found.FoundFile? && s == SourceAt(Virtual(name, items[i].rel), items[i].found)
  {
    if items != [] {
      var n := |items| - 1;
      FilesOfAre(name, items[..n], s);
      assert items == items[..n] + [items[n]];
    }
  }

  lemma {:induction false} AllDirsAre(roots: seq<Root>, e: Entry)
    ensures e in AllDirs(roots) <==> exists r :: 0 <= r < |roots| && e in RootDirs(roots[r])
  {
    hide RootDirs;
    if roots != [] {
      var n := |roots| - 1;
      AllDirsAre(roots[..n], e);
      assert roots == roots[..n] + [roots[n]];
    }
  }

  lemma {:induction false} AllFilesAre(roots: seq<Root>, s: Source)
    ensures s in AllFiles(roots) <==> exists r :: 0 <= r < |roots| && s in RootFiles(roots[r])
  {
    hide RootFiles;
    if roots != [] {
      var n := |roots| - 1;
      AllFilesAre(roots[..n], s);
      assert roots == roots[..n] + [roots[n]];
    }
  }

  /** A portable path whose first component names a root. */
  predicate Rooted(roots: seq<Root>, p: string) {
    PortablePath(p) && exists r | 0 <= r < |roots| :: Top(p) == roots[r].name
  }

  lemma DirRooted(roots: seq<Root>, e: Entry)
    requires RootsAccepted(roots) && e in AllDirs(roots)
    ensures Rooted(roots, e.path) && e == DirEntryAt(e.path, e.mtime)
  {
    hide PortablePath, PortableComponent, Lower, Top, Virtual;
    AllDirsAre(roots, e);
    var r :| 0 <= r < |roots| && e in RootDirs(roots[r]);
    assert RootAccepted(roots[r]);
    DirsOfAre(roots[r].name, roots[r].items, e);
    var i :| 0 <= i < |roots[r].items| && roots[r].items[i].found.FoundDir? &&
             e == DirEntryAt(Virtual(roots[r].name, roots[r].items[i].rel), roots[r].items[i].found.mtime);
    assert ItemAccepted(roots[r].name, roots[r].items[i]);
    TopOfVirtual(roots[r].name, roots[r].items[i].rel);
  }

  lemma FileRooted(roots: seq<Root>, s: Source)
    requires RootsAccepted(roots) && s in AllFiles(roots)
    ensures Rooted(roots, s.path) && (s.mode == FILE_MODE || s.mode == EXEC_MODE)
  {
    hide PortablePath, PortableComponent, Lower, Top, Virtual;
    AllFilesAre(roots, s);
    var r :| 0 <= r < |roots| && s in RootFiles(roots[r]);
    assert RootAccepted(roots[r]);
    if roots[r].FileRoot? {
      ComponentIsPath(roots[r].name);
    } else {
      FilesOfAre(roots[r].name, roots[r].items, s);
      var i :| 0 <= i < |roots[r].items| && roots[r].items[i].found.FoundFile? &&
               s == SourceAt(Virtual(roots[r].name, roots[r].items[i].rel), roots[r].items[i].found);
      assert ItemAccepted(roots[r].name, roots[r].items[i]);
      TopOfVirtual(roots[r].name, roots[r].items[i].rel);
    }
  }

  lemma RootedUnder(roots: seq<Root>, p: string)
    requires Rooted(roots, p)
    ensures UnderRoot(RootNames(roots), p)
  {
    hide PortablePath, Lower;
    var r :| 0 <= r < |roots| && Top(p) == roots[r].name;
    assert RootNames(roots)[r] == roots[r].name;
  }

  // Segments

  lemma FindsDescribed(segments: seq<Segment>, staged: map<string, Bytes>, id: string)
    requires Describes(segments, staged) && id in staged
    ensures FindSegment(segments, id) == Some(SegmentFor(id, staged[id]))
  {
    assert id in SegmentIds(segments);
    var k :| 0 <= k < |segments| && segments[k].id == id;
    var found := FindSegment(segments, id);
    var l :| 0 <= l < |segments| && segments[l] == found.value;
  }

  lemma IdKinds(n: nat)
    ensures RAW_PREFIX <= RawId(n) && !(RAW_PREFIX <= PackId(n))
  {
    assert RawId(n)[..2] == RAW_PREFIX;
    assert PackId(n)[0] == 'p' && RAW_PREFIX[0] == 'r';
  }

  /** Every identifier is short enough. */
  lemma SegmentsValid(codec: Codec, bigs: seq<Source>, packs: seq<PackSpec>, segments: seq<Segment>, staged: map<string, Bytes>)
    requires Describes(segments, staged) && Stores(codec, bigs, packs, staged)
    requires |bigs| <= MAX_INT && |packs| <= MAX_INT && segments != []
    ensures ValidSegments(segments)
  {
    hide ByteLen, RawId, PackId, BuildPack;
    forall k | 0 <= k < |segments|
      ensures ValidSegment(segments[k])
    {
      var id := segments[k].id;
      assert id in staged;
      if id in RawIds(|bigs|) {
        var i :| 0 <= i < |bigs| && id == RawId(i);
        IdsShort(i);
        IdNotEmpty(i);
      } else {
        var j :| 0 <= j < |packs| && id == PackId(j);
        IdsShort(j);
        IdNotEmpty(j);
      }
    }
  }

  lemma IdNotEmpty(n: nat)
    ensures RawId(n) != "" && PackId(n) != ""
  {
  }

  lemma RawEntryBacked(segments: seq<Segment>, staged: map<string, Bytes>, s: Source, i: nat)
    requires Describes(segments, staged) && RawId(i) in staged && staged[RawId(i)] == s.data
    ensures Backed(segments, FileEntryFor(s, RawId(i)))
  {
    FindsDescribed(segments, staged, RawId(i));
  }

  lemma PackEntryBacked(segments: seq<Segment>, staged: map<string, Bytes>, s: Source, j: nat)
    requires Describes(segments, staged) && PackId(j) in staged
    ensures Backed(segments, FileEntryFor(s, PackId(j))) && !RawBacked(segments, FileEntryFor(s, PackId(j)))
  {
    FindsDescribed(segments, staged, PackId(j));
    IdKinds(j);
  }

  // Entries, one by one

  lemma FileEntryValid(roots: seq<Root>, segments: seq<Segment>, s: Source, id: string)
    requires RootsAccepted(roots) && s in AllFiles(roots) && s.mtime >= 0
    requires Backed(segments, FileEntryFor(s, id))
    ensures ValidEntry(RootNames(roots), segments, FileEntryFor(s, id))
  {
    hide PortablePath, UnderRoot, RootsAccepted, AllFiles, Backed;
    FileRooted(roots, s);
    RootedUnder(roots, s.path);
  }

  lemma DirEntryValid(roots: seq<Root>, segments: seq<Segment>, e: Entry)
    requires RootsAccepted(roots) && e in AllDirs(roots) && e.mtime >= 0
    ensures ValidEntry(RootNames(roots), segments, e)
  {
    hide PortablePath, UnderRoot, RootsAccepted, AllDirs;
    DirRooted(roots, e);
    RootedUnder(roots, e.path);
  }

  /** Everything known about an accepted plan and its assembled segments. */
  predicate Assembled(codec: Codec, roots: seq<Root>, plan: Plan, segments: seq<Segment>, staged: map<string, Bytes>) {
    && RootsAccepted(roots)
    && FilesApart(AllDirs(roots), SortedSources(AllFiles(roots)))
    && PlanOf(roots, plan)
    && Describes(segments, staged)
    && Stores(codec, Bigs(SortedSources(AllFiles(roots))), plan.packs, staged)
  }

  function Big(roots: seq<Root>): seq<Source> { Bigs(SortedSources(AllFiles(roots))) }
  function Small(roots: seq<Root>): seq<Source> { Smalls(SortedSources(AllFiles(roots))) }

  lemma SourcesCovered(roots: seq<Root>, s: Source)
    ensures s in AllFiles(roots) <==> s in Big(roots) || s in Small(roots)
  {
    var files := SortedSources(AllFiles(roots));
    PartitionIsExact(files);
    assert s in AllFiles(roots) <==> s in multiset(AllFiles(roots));
    assert s in Big(roots) <==> s in multiset(Big(roots));
    assert s in Small(roots) <==> s in multiset(Small(roots));
    assert s in multiset(files) <==> s in multiset(Bigs(files)) + multiset(Smalls(files));
  }

  lemma {:induction false} FlatAre(packs: seq<PackSpec>, s: Source)
    ensures s in Flat(packs) <==> exists j :: 0 <= j < |packs| && s in packs[j].files
  {
    if packs != [] {
      var n := |packs| - 1;
      FlatAre(packs[..n], s);
      assert packs == packs[..n] + [packs[n]];
    }
  }

  /** The entry's source, whichever way the file travels. */
  lemma EntrySource(codec: Codec, roots: seq<Root>, plan: Plan, segments: seq<Segment>, staged: map<string, Bytes>, e: Entry)
    returns (s: Source)
    requires Assembled(codec, roots, plan, segments, staged) && e in plan.entries && e !in AllDirs(roots)
    ensures s in AllFiles(roots) && e == FileEntryFor(s, e.segmentId) && Backed(segments, e) && e.segmentId in staged
  {
    hide RootsAccepted, FilesApart, Describes, RawId, PackId, Backed, BuildPack, Flat, Bigs, Smalls, SortedSources;
    EntriesAre(AllDirs(roots), Big(roots), plan.packs, plan.entries, e);
    if IsRawEntry(Big(roots), e) {
      var i :| 0 <= i < |Big(roots)| && e == FileEntryFor(Big(roots)[i], RawId(i));
      s := Big(roots)[i];
      assert s in Big(roots);
      RawEntryBacked(segments, staged, s, i);
    } else {
      var j :| 0 <= j < |plan.packs| && InPack(plan.packs[j].files, PackId(j), e);
      var i :| 0 <= i < |plan.packs[j].files| && e == FileEntryFor(plan.packs[j].files[i], PackId(j));
      s := plan.packs[j].files[i];
      assert s in plan.packs[j].files;
      FlatAre(plan.packs, s);
      PackEntryBacked(segments, staged, s, j);
    }
    SourcesCovered(roots, s);
  }

  lemma EachEntryValid(codec: Codec, roots: seq<Root>, plan: Plan, segments: seq<Segment>, staged: map<string, Bytes>, e: Entry)
    requires Assembled(codec, roots, plan, segments, staged) && e in plan.entries
    ensures ValidEntry(plan.roots, segments, e) <==> e.mtime >= 0
  {
    hide Describes, Backed, RootsAccepted, FilesApart, PortablePath, UnderRoot, ValidFields;
    if e.mtime >= 0 {
      if e in AllDirs(roots) {
        DirEntryValid(roots, segments, e);
      } else {
        var s := EntrySource(codec, roots, plan, segments, staged, e);
        FileEntryValid(roots, segments, s, e.segmentId);
      }
    }
  }

  // Entries, pairwise

  predicate Differ(a: string, b: string) { Lower(a) != Lower(b) }

  predicate PathsDiffer(s: Source, t: Source) { Differ(s.path, t.path) }

  /** The planned files, large ones first. */
  lemma FilesDiffer(dirs: seq<Entry>, files: seq<Source>)
    requires FilesApart(dirs, files)
    ensures Pairwise(Bigs(files) + Smalls(files), PathsDiffer)
    ensures forall d, s | d in dirs && s in files :: Differ(d.path, s.path)
  {
    hide Lower, Bigs, Smalls;
    forall i, j | 0 <= i < |files| && 0 <= j < |files| && i != j
      ensures PathsDiffer(files[i], files[j])
    {
      assert FileApart(dirs, files, if i < j then j else i);
    }
    PartitionIsExact(files);
    assert multiset(Bigs(files) + Smalls(files)) == multiset(files);
    PairwiseInAnyOrder(Bigs(files) + Smalls(files), files, PathsDiffer);
    forall d, s | d in dirs && s in files
      ensures Differ(d.path, s.path)
    {
      var n :| 0 <= n < |files| && files[n] == s;
      assert FileApart(dirs, files, n);
    }
  }

  lemma {:induction false} PackEntriesFollow(packs: seq<PackSpec>)
    ensures |PackEntries(packs)| == |Flat(packs)|
    ensures forall i | 0 <= i < |Flat(packs)| ::
              PackEntries(packs)[i] == FileEntryFor(Flat(packs)[i], PackEntries(packs)[i].segmentId)
  {
    if packs != [] {
      PackEntriesFollow(packs[..|packs| - 1]);
    }
  }

  predicate MayShare(segments: seq<Segment>, a: Entry, b: Entry) {
    Apart(segments, a, b) && Apart(segments, b, a)
  }

  lemma EntryPaths(bigs: seq<Source>, packs: seq<PackSpec>)
    ensures var es, fs := RawEntries(bigs) + PackEntries(packs), bigs + Flat(packs);
            |es| == |fs| && forall i | 0 <= i < |es| :: es[i].path == fs[i].path
  {
    hide RawId, Flat, PackEntries;
    PackEntriesFollow(packs);
  }

  lemma OnlyRawsAreRaw(segments: seq<Segment>, staged: map<string, Bytes>, bigs: seq<Source>, packs: seq<PackSpec>, i: nat)
    requires Describes(segments, staged) && GoodPacks(packs) && PackIds(|packs|) <= staged.Keys
    requires var es := RawEntries(bigs) + PackEntries(packs);
             i < |es| && RawBacked(segments, es[i])
    ensures i < |bigs| && (RawEntries(bigs) + PackEntries(packs))[i].segmentId == RawId(i)
  {
    hide RawId, PackEntries, Describes, RawBacked;
    var e := (RawEntries(bigs) + PackEntries(packs))[i];
    if i >= |bigs| {
      assert e in PackEntries(packs);
      PackedIsNotRaw(segments, staged, packs, e);
    }
  }

  lemma FilesMayShare(segments: seq<Segment>, staged: map<string, Bytes>, bigs: seq<Source>, packs: seq<PackSpec>)
    requires Describes(segments, staged) && GoodPacks(packs) && PackIds(|packs|) <= staged.Keys
    requires Pairwise(bigs + Flat(packs), PathsDiffer)
    ensures Pairwise(RawEntries(bigs) + PackEntries(packs), (a, b) => MayShare(segments, a, b))
  {
    hide Lower, RawId, RawBacked, Flat, PackEntries, RawEntries, Describes, GoodPacks, PackIds;
    EntryPaths(bigs, packs);
    var es, fs := RawEntries(bigs) + PackEntries(packs), bigs + Flat(packs);
    forall i, j | 0 <= i < |es| && 0 <= j < |es| && i != j
      ensures Apart(segments, es[i], es[j])
    {
      assert PathsDiffer(fs[i], fs[j]);
      if RawBacked(segments, es[i]) && RawBacked(segments, es[j]) {
        OnlyRawsAreRaw(segments, staged, bigs, packs, i);
        OnlyRawsAreRaw(segments, staged, bigs, packs, j);
        IdsDiffer(i, j);
      }
    }
  }

  lemma PackedIsNotRaw(segments: seq<Segment>, staged: map<string, Bytes>, packs: seq<PackSpec>, e: Entry)
    requires Describes(segments, staged) && GoodPacks(packs) && PackIds(|packs|) <= staged.Keys
    requires e in PackEntries(packs)
    ensures !RawBacked(segments, e)
  {
    hide Describes;
    PackEntriesAre(packs, e);
    var j, i :| 0 <= j < |packs| && 0 <= i < |packs[j].files| && e == FileEntryFor(packs[j].files[i], packs[j].segmentId);
    assert GoodPack(packs[j], j);
    assert PackId(j) in PackIds(|packs|);
    PackEntryBacked(segments, staged, packs[j].files[i], j);
  }

  lemma AllMayShare(segments: seq<Segment>, dirs: seq<Entry>, files: seq<Entry>)
    requires DirsApart(dirs) && forall d | d in dirs :: d.kind.DirectoryEntry?
    requires Pairwise(files, (a, b) => MayShare(segments, a, b))
    requires forall d, e | d in dirs && e in files :: Differ(d.path, e.path)
    ensures Pairwise(dirs + files, (a, b) => MayShare(segments, a, b))
  {
    hide Lower, FindSegment;
    var all := dirs + files;
    forall i, j | 0 <= i < j < |dirs|
      ensures Differ(dirs[i].path, dirs[j].path) && Differ(dirs[j].path, dirs[i].path)
    {
      hide Clash;
      ClashIsSameLower(dirs[i].path, dirs[j].path);
    }
    forall i, j | 0 <= i < |all| && 0 <= j < |all| && i != j
      ensures MayShare(segments, all[i], all[j])
    {
      if i < |dirs| {
        assert all[i] in dirs;
        assert j >= |dirs| ==> all[j] in files;
      } else {
        assert all[i] in files;
        assert j < |dirs| ==> all[j] in dirs;
        assert j >= |dirs| ==> all[i] == files[i - |dirs|] && all[j] == files[j - |dirs|];
      }
    }
  }

  lemma EntriesApart(codec: Codec, roots: seq<Root>, plan: Plan, segments: seq<Segment>, staged: map<string, Bytes>)
    requires Assembled(codec, roots, plan, segments, staged) && DirsApart(AllDirs(roots))
    ensures Pairwise(plan.entries, (a, b) => MayShare(segments, a, b))
  {
    hide RootsAccepted, Describes, MayShare, RawId, PackId, Lower, SortedSources, DirsApart, FilesApart, BuildPack, PackEntries, RawEntries;
    hide FullPacks, RawMap, GoodPacks, Bigs, Smalls, AllDirs, AllFiles;
    var dirs, files := AllDirs(roots), SortedSources(AllFiles(roots));
    FilesDiffer(dirs, files);
    FilesMayShare(segments, staged, Bigs(files), plan.packs);
    var es := RawEntries(Bigs(files)) + PackEntries(plan.packs);
    forall d | d in dirs
      ensures d.kind.DirectoryEntry?
    {
      DirRooted(roots, d);
    }
    forall d, e | d in dirs && e in es
      ensures Differ(d.path, e.path)
    {
      FilePathIn(Bigs(files), plan.packs, e);
      var s :| s in Bigs(files) + Flat(plan.packs) && s.path == e.path;
      PartitionIsExact(files);
      assert s in multiset(Bigs(files)) + multiset(Smalls(files));
      assert s in multiset(files);
    }
    AllMayShare(segments, dirs, es);
    PairwiseInAnyOrder(plan.entries, dirs + es, (a, b) => MayShare(segments, a, b));
  }

  lemma FilePathIn(bigs: seq<Source>, packs: seq<PackSpec>, e: Entry)
    requires e in RawEntries(bigs) + PackEntries(packs)
    ensures exists s :: s in bigs + Flat(packs) && s.path == e.path
  {
    hide RawId;
    PackEntriesFollow(packs);
    var es, fs := RawEntries(bigs) + PackEntries(packs), bigs + Flat(packs);
    var i :| 0 <= i < |es| && es[i] == e;
    assert fs[i].path == e.path && fs[i] in fs;
  }

  // Coverage

  /** Every source file has an entry. */
  lemma SourceHasEntry(codec: Codec, roots: seq<Root>, plan: Plan, segments: seq<Segment>, staged: map<string, Bytes>, s: Source)
    returns (e: Entry)
    requires Assembled(codec, roots, plan, segments, staged) && s in AllFiles(roots)
    ensures e in plan.entries && e == FileEntryFor(s, e.segmentId)
  {
    hide RootsAccepted, FilesApart, Describes, RawId, PackId, BuildPack, Flat, Bigs, Smalls, SortedSources, AllFiles, AllDirs, Stores;
    hide RawMap, EntriesHold, GoodPacks, FullPacks;
    SourcesCovered(roots, s);
    if s in Big(roots) {
      var i :| 0 <= i < |Big(roots)| && Big(roots)[i] == s;
      e := FileEntryFor(s, RawId(i));
      EntriesAre(AllDirs(roots), Big(roots), plan.packs, plan.entries, e);
      assert IsRawEntry(Big(roots), e);
    } else {
      FlatAre(plan.packs, s);
      var j :| 0 <= j < |plan.packs| && s in plan.packs[j].files;
      var i :| 0 <= i < |plan.packs[j].files| && plan.packs[j].files[i] == s;
      e := FileEntryFor(s, PackId(j));
      EntriesAre(AllDirs(roots), Big(roots), plan.packs, plan.entries, e);
      assert InPack(plan.packs[j].files, PackId(j), e);
    }
  }

  lemma DirIsEntry(codec: Codec, roots: seq<Root>, plan: Plan, segments: seq<Segment>, staged: map<string, Bytes>, d: Entry)
    requires Assembled(codec, roots, plan, segments, staged) && d in AllDirs(roots)
    ensures d in plan.entries
  {
    hide RootsAccepted, FilesApart, Describes, Stores, SortedSources, AllFiles, AllDirs, GoodPacks, EntriesHold, RawMap;
    EntriesAre(AllDirs(roots), Big(roots), plan.packs, plan.entries, d);
  }

  lemma {:induction false} FlatLength(packs: seq<PackSpec>)
    requires GoodPacks(packs)
    ensures |packs| <= |Flat(packs)|
  {
    if packs != [] {
      FlatLength(packs[..|packs| - 1]);
      assert GoodPack(packs[|packs| - 1], |packs| - 1);
    }
  }

  lemma Counts(codec: Codec, roots: seq<Root>, plan: Plan, segments: seq<Segment>, staged: map<string, Bytes>)
    requires Assembled(codec, roots, plan, segments, staged)
    ensures |Big(roots)| <= |AllFiles(roots)| && |plan.packs| <= |AllFiles(roots)|
    ensures segments == [] <==> AllFiles(roots) == []
  {
    hide RootsAccepted, FilesApart, SortedSources, AllFiles, AllDirs, EntriesHold, RawMap, RawId, PackId, BuildPack, Flat, Bigs, Smalls;
    var files := SortedSources(AllFiles(roots));
    PartitionIsExact(files);
    SameElements(files, AllFiles(roots));
    assert |multiset(files)| == |multiset(Bigs(files))| + |multiset(Smalls(files))|;
    FlatLength(plan.packs);
    if segments != [] {
      assert segments[0].id in staged;
      assert RawIds(0) == {} && PackIds(0) == {};
    }
    if AllFiles(roots) != [] {
      if Bigs(files) != [] {
        assert RawId(0) in RawIds(|Bigs(files)|);
      } else {
        assert plan.packs != [] by { FlatOfNone(plan.packs); }
        assert PackId(0) in PackIds(|plan.packs|);
      }
      assert SegmentIds([]) == {};
    }
  }

  lemma FlatOfNone(packs: seq<PackSpec>)
    ensures packs == [] ==> Flat(packs) == []
  {
  }

  lemma SegmentsReferenced(codec: Codec, roots: seq<Root>, plan: Plan, segments: seq<Segment>, staged: map<string, Bytes>)
    requires Assembled(codec, roots, plan, segments, staged)
    ensures AllReferenced(segments, plan.entries)
  {
    hide RootsAccepted, FilesApart, SortedSources, AllFiles, AllDirs, RawMap, RawId, PackId, BuildPack, Flat, Bigs, Smalls, EntriesHold;
    var bigs := Big(roots);
    forall k | 0 <= k < |segments|
      ensures Referenced(plan.entries, segments[k].id)
    {
      var id := segments[k].id;
      assert id in staged;
      if id in RawIds(|bigs|) {
        var i :| 0 <= i < |bigs| && id == RawId(i);
        var e := FileEntryFor(bigs[i], RawId(i));
        EntriesAre(AllDirs(roots), bigs, plan.packs, plan.entries, e);
        assert IsRawEntry(bigs, e);
        IsReferenced(plan.entries, e);
      } else {
        var j :| 0 <= j < |plan.packs| && id == PackId(j);
        assert GoodPack(plan.packs[j], j);
        var e := FileEntryFor(plan.packs[j].files[0], PackId(j));
        EntriesAre(AllDirs(roots), bigs, plan.packs, plan.entries, e);
        assert InPack(plan.packs[j].files, PackId(j), e);
        IsReferenced(plan.entries, e);
      }
    }
  }

  lemma IsReferenced(entries: seq<Entry>, e: Entry)
    requires e in entries
    ensures Referenced(entries, e.segmentId)
  {
  }

  // The whole manifest

  lemma RootsValid(roots: seq<Root>)
    requires Accepted(roots)
    ensures ValidRoots(RootNames(roots))
  {
    hide Lower, ByteLen, Stem, FilesApart, AllFiles, AllDirs;
    var names := RootNames(roots);
    forall i | 0 <= i < |names|
      ensures ValidRoot(names[i])
    {
      assert RootAccepted(roots[i]);
    }
  }

  lemma EntriesValid(codec: Codec, roots: seq<Root>, plan: Plan, segments: seq<Segment>, staged: map<string, Bytes>)
    requires Assembled(codec, roots, plan, segments, staged) && Sendable(roots)
    ensures ValidEntries(plan.roots, segments, plan.entries)
  {
    hide Assembled, ValidEntry, Apart, AllFiles, AllDirs, DirsApart;
    var es := plan.entries;
    forall i | 0 <= i < |es|
      ensures ValidEntry(plan.roots, segments, es[i])
    {
      assert es[i] in es;
      EntryTime(codec, roots, plan, segments, staged, es[i]);
      EachEntryValid(codec, roots, plan, segments, staged, es[i]);
    }
    EntriesApart(codec, roots, plan, segments, staged);
    forall j | 0 <= j < |es|
      ensures ApartFromEarlier(segments, es, j)
    {
      assert forall i | 0 <= i < j :: MayShare(segments, es[i], es[j]);
    }
    var s := AllFiles(roots)[0];
    var e := SourceHasEntry(codec, roots, plan, segments, staged, s);
  }

  lemma EntryTime(codec: Codec, roots: seq<Root>, plan: Plan, segments: seq<Segment>, staged: map<string, Bytes>, e: Entry)
    requires Assembled(codec, roots, plan, segments, staged) && Sendable(roots) && e in plan.entries
    ensures e.mtime >= 0
  {
    hide Assembled, AllFiles, AllDirs, DirsApart;
    if e !in AllDirs(roots) {
      var s := EntrySource(codec, roots, plan, segments, staged, e);
    }
  }

  lemma SendableIsValid(codec: Codec, roots: seq<Root>, plan: Plan, segments: seq<Segment>, staged: map<string, Bytes>, l: Label)
    requires Accepted(roots) && Assembled(codec, roots, plan, segments, staged) && GoodLabel(l)
    requires |AllFiles(roots)| <= MAX_INT && Sendable(roots)
    ensures Valid(Described(l, plan, segments))
  {
    hide AllFiles, AllDirs, ByteLen, FilesApart, SortedSources, DirsApart, RootsAccepted, ValidEntries, AllReferenced, ValidSegments;
    hide ValidRoots, Describes, Stores, GoodPacks, EntriesHold, RawMap, Bigs, Smalls, Flat, FullPacks, Sum;
    RootsValid(roots);
    Counts(codec, roots, plan, segments, staged);
    SegmentsValid(codec, Big(roots), plan.packs, segments, staged);
    EntriesValid(codec, roots, plan, segments, staged);
    SegmentsReferenced(codec, roots, plan, segments, staged);
  }

  lemma ValidDirsApart(segments: seq<Segment>, roots: seq<string>, dirs: seq<Entry>, bigs: seq<Source>, packs: seq<PackSpec>, entries: seq<Entry>)
    requires EntriesHold(dirs, bigs, packs, entries) && ValidEntries(roots, segments, entries)
    ensures DirsApart(dirs)
  {
    hide Lower, RawBacked, RawEntries, PackEntries, ValidEntry;
    var differ := (a: Entry, b: Entry) => Differ(a.path, b.path);
    forall i, j | 0 <= i < |entries| && 0 <= j < |entries| && i != j
      ensures differ(entries[i], entries[j])
    {
      assert ApartFromEarlier(segments, entries, if i < j then j else i);
      assert Apart(segments, entries[if i < j then i else j], entries[if i < j then j else i]);
    }
    var all := dirs + (RawEntries(bigs) + PackEntries(packs));
    assert multiset(all) == multiset(entries);
    PairwiseInAnyOrder(all, entries, differ);
    hide Clash;
    forall i, j | 0 <= i < j < |dirs|
      ensures !Clash(dirs[i].path, dirs[j].path)
    {
      ClashIsSameLower(dirs[i].path, dirs[j].path);
      assert all[i] == dirs[i] && all[j] == dirs[j];
    }
  }

  lemma ValidIsSendable(codec: Codec, roots: seq<Root>, plan: Plan, segments: seq<Segment>, staged: map<string, Bytes>, l: Label)
    requires Assembled(codec, roots, plan, segments, staged) && Valid(Described(l, plan, segments))
    ensures Sendable(roots)
  {
    hide Assembled, AllFiles, AllDirs, ByteLen, ValidEntry, DirsApart;
    Counts(codec, roots, plan, segments, staged);
    var files, dirs := AllFiles(roots), AllDirs(roots);
    assert DirsApart(dirs) by {
      PlanEntries(codec, roots, plan, segments, staged);
      ValidDirsApart(segments, plan.roots, dirs, Big(roots), plan.packs, plan.entries);
    }
    forall i | 0 <= i < |files|
      ensures files[i].mtime >= 0
    {
      var e := SourceHasEntry(codec, roots, plan, segments, staged, files[i]);
      EntryTimeValid(plan.roots, segments, plan.entries, e);
    }
    forall i | 0 <= i < |dirs|
      ensures dirs[i].mtime >= 0
    {
      DirIsEntry(codec, roots, plan, segments, staged, dirs[i]);
      EntryTimeValid(plan.roots, segments, plan.entries, dirs[i]);
    }
  }

  lemma PlanEntries(codec: Codec, roots: seq<Root>, plan: Plan, segments: seq<Segment>, staged: map<string, Bytes>)
    requires Assembled(codec, roots, plan, segments, staged)
    ensures EntriesHold(AllDirs(roots), Big(roots), plan.packs, plan.entries)
  {
    hide EntriesHold, RootsAccepted, FilesApart, Describes, Stores;
  }

  lemma EntryTimeValid(roots: seq<string>, segments: seq<Segment>, entries: seq<Entry>, e: Entry)
    requires ValidEntries(roots, segments, entries) && e in entries
    ensures e.mtime >= 0
  {
    hide PortablePath, UnderRoot, ValidFields, ApartFromEarlier;
    var i :| 0 <= i < |entries| && entries[i] == e;
    assert ValidEntry(roots, segments, entries[i]);
  }

  /** The manifest of an accepted tree is valid exactly when the tree is sendable. */
  lemma ValidExactly(codec: Codec, roots: seq<Root>, plan: Plan, segments: seq<Segment>, staged: map<string, Bytes>, l: Label)
    requires Accepted(roots) && Assembled(codec, roots, plan, segments, staged) && GoodLabel(l)
    requires |AllFiles(roots)| <= MAX_INT
    ensures Valid(Described(l, plan, segments)) <==> Sendable(roots)
  {
    hide Accepted, Assembled, Sendable, Valid, AllFiles, GoodLabel;
    if Sendable(roots) {
      SendableIsValid(codec, roots, plan, segments, staged, l);
    }
    if Valid(Described(l, plan, segments)) {
      ValidIsSendable(codec, roots, plan, segments, staged, l);
    }
  }

  /** A planned entry, written out: a directory of mode 0755, or a scanned file with its size,
      digest and time, of mode 0755 or 0644. */
  lemma PlannedEntry(codec: Codec, roots: seq<Root>, plan: Plan, segments: seq<Segment>, staged: map<string, Bytes>, e: Entry) returns (s: Source)
    requires Assembled(codec, roots, plan, segments, staged) && e in plan.entries
    ensures e.kind == DirectoryEntry || e.kind == FileEntry
    ensures e.kind == DirectoryEntry ==> e in AllDirs(roots) && e.size == 0 && e.mode == 7 * 64 + 5 * 8 + 5 && e.digest == Text("") && e.segmentId == ""
    ensures e.kind == FileEntry ==>
              && s in AllFiles(roots) && e.path == s.path && e.size == |s.data| && e.digest == Blake3(s.data) && e.mtime == s.mtime
              && e.mode == s.mode && (s.mode == 7 * 64 + 5 * 8 + 5 || s.mode == 6 * 64 + 4 * 8 + 4)
  {
    hide Assembled, AllFiles, AllDirs, Rooted;
    assert RootsAccepted(roots) by { AssembledRoots(codec, roots, plan, segments, staged); }
    hide RootsAccepted;
    s := Source("", [], 0, 0);
    if e in AllDirs(roots) {
      DirRooted(roots, e);
    } else {
      s := EntrySource(codec, roots, plan, segments, staged, e);
      FileRooted(roots, s);
    }
  }

  lemma AssembledRoots(codec: Codec, roots: seq<Root>, plan: Plan, segments: seq<Segment>, staged: map<string, Bytes>)
    requires Assembled(codec, roots, plan, segments, staged)
    ensures RootsAccepted(roots)
  {
  }
}
