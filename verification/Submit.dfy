/** Opening a transfer and submitting its manifest: what the server's limits and its
    segment checks make of an assembled plan. */
module Submitting {
  import opened Outcomes
  import opened Protocol
  import opened Validation
  import opened Storage
  import opened Sorting
  import opened Naming
  import opened Scanning
  import opened Payloads
  import opened Paths
  import opened Assembling
  import opened Acceptance
  import opened Committing
  import Rules

  // Totals of the manifest are totals of the tree

  function EachOnce(s: Source): int { 1 }
  function SizeOf(s: Source): int { s.Size() }
  function FileWeight(e: Entry): int { if e.kind.FileEntry? then 1 else 0 }
  function ByteWeight(e: Entry): int { if e.kind.FileEntry? then e.size else 0 }

  /** What an entry weighs is what its file weighs; directories weigh nothing. */
  ghost predicate Weighs(ofEntry: Entry -> int, ofFile: Source -> int) {
    && (forall s: Source, id: string :: ofEntry(FileEntryFor(s, id)) == ofFile(s))
    && (forall e: Entry | e.kind.DirectoryEntry? :: ofEntry(e) == 0)
  }

  lemma {:induction false} FileCountIsSum(entries: seq<Entry>)
    ensures FileCount(entries) == SumOf(entries, FileWeight)
  {
    if entries != [] {
      FileCountIsSum(entries[..|entries| - 1]);
    }
  }

  lemma {:induction false} TotalBytesIsSum(entries: seq<Entry>)
    ensures TotalBytes(entries) == SumOf(entries, ByteWeight)
  {
    if entries != [] {
      var n := |entries| - 1;
      TotalBytesIsSum(entries[..n]);
      TotalBytesSnoc(entries[..n], entries[n]);
      assert entries == entries[..n] + [entries[n]];
    }
  }

  lemma {:induction false} CountIsSum(files: seq<Source>)
    ensures SumOf(files, EachOnce) == |files|
  {
    if files != [] {
      CountIsSum(files[..|files| - 1]);
    }
  }

  lemma {:induction false} SizesAreSum(files: seq<Source>)
    ensures SumOf(files, SizeOf) == Sum(files)
  {
    if files != [] {
      SizesAreSum(files[..|files| - 1]);
    }
  }

  lemma {:induction false} DirsWeighNothing(dirs: seq<Entry>, ofEntry: Entry -> int)
    requires forall e | e in dirs :: ofEntry(e) == 0
    ensures SumOf(dirs, ofEntry) == 0
  {
    if dirs != [] {
      DirsWeighNothing(dirs[..|dirs| - 1], ofEntry);
    }
  }

  lemma {:induction false} RawEntriesWeigh(bigs: seq<Source>, ofEntry: Entry -> int, ofFile: Source -> int)
    requires Weighs(ofEntry, ofFile)
    ensures SumOf(RawEntries(bigs), ofEntry) == SumOf(bigs, ofFile)
  {
    hide FileEntryFor, RawId;
    if bigs != [] {
      var n := |bigs| - 1;
      RawEntriesWeigh(bigs[..n], ofEntry, ofFile);
      assert RawEntries(bigs)[..n] == RawEntries(bigs[..n]);
    }
  }

  lemma {:induction false} EntriesForWeigh(files: seq<Source>, id: string, ofEntry: Entry -> int, ofFile: Source -> int)
    requires Weighs(ofEntry, ofFile)
    ensures SumOf(EntriesFor(files, id), ofEntry) == SumOf(files, ofFile)
  {
    hide FileEntryFor;
    if files != [] {
      var n := |files| - 1;
      EntriesForWeigh(files[..n], id, ofEntry, ofFile);
      assert EntriesFor(files, id)[..n] == EntriesFor(files[..n], id);
    }
  }

  lemma {:induction false} PackEntriesWeigh(packs: seq<PackSpec>, ofEntry: Entry -> int, ofFile: Source -> int)
    requires Weighs(ofEntry, ofFile)
    ensures SumOf(PackEntries(packs), ofEntry) == SumOf(Flat(packs), ofFile)
  {
    hide Weighs, EntriesFor;
    if packs != [] {
      var n := |packs| - 1;
      PackEntriesWeigh(packs[..n], ofEntry, ofFile);
      EntriesForWeigh(packs[n].files, packs[n].segmentId, ofEntry, ofFile);
      SumOfBoth(PackEntries(packs[..n]), EntriesFor(packs[n].files, packs[n].segmentId), ofEntry);
      SumOfBoth(Flat(packs[..n]), packs[n].files, ofFile);
    }
  }

  lemma HeldEntriesWeigh(dirs: seq<Entry>, bigs: seq<Source>, packs: seq<PackSpec>, entries: seq<Entry>,
                         ofEntry: Entry -> int, ofFile: Source -> int)
    requires EntriesHold(dirs, bigs, packs, entries) && Weighs(ofEntry, ofFile)
    requires forall e | e in dirs :: e.kind.DirectoryEntry?
    ensures SumOf(entries, ofEntry) == SumOf(bigs, ofFile) + SumOf(Flat(packs), ofFile)
  {
    hide RawEntries, PackEntries, Flat, SumOf;
    DirsWeighNothing(dirs, ofEntry);
    RawEntriesWeigh(bigs, ofEntry, ofFile);
    PackEntriesWeigh(packs, ofEntry, ofFile);
    SumInAnyOrder(entries, dirs + RawEntries(bigs) + PackEntries(packs), ofEntry);
    SumOfBoth(dirs + RawEntries(bigs), PackEntries(packs), ofEntry);
    SumOfBoth(dirs, RawEntries(bigs), ofEntry);
  }

  lemma SplitWeighs(files: seq<Source>, ofFile: Source -> int)
    ensures SumOf(Bigs(files), ofFile) + SumOf(Smalls(files), ofFile) == SumOf(files, ofFile)
  {
    hide Bigs, Smalls, SumOf;
    PartitionIsExact(files);
    SumInAnyOrder(Bigs(files) + Smalls(files), files, ofFile);
    SumOfBoth(Bigs(files), Smalls(files), ofFile);
  }

  lemma AllDirsAreDirs(roots: seq<Root>)
    requires RootsAccepted(roots)
    ensures forall e | e in AllDirs(roots) :: e.kind.DirectoryEntry?
  {
    hide RootsAccepted, Rooted;
    forall e | e in AllDirs(roots)
      ensures e.kind.DirectoryEntry?
    {
      DirRooted(roots, e);
    }
  }

  lemma PlanWeighs(roots: seq<Root>, plan: Plan, ofEntry: Entry -> int, ofFile: Source -> int)
    requires RootsAccepted(roots) && PlanOf(roots, plan) && Weighs(ofEntry, ofFile)
    ensures SumOf(plan.entries, ofEntry) == SumOf(AllFiles(roots), ofFile)
  {
    hide RootsAccepted, GoodPacks, FullPacks, Weighs, SumOf, EntriesHold, Bigs, Smalls, Flat, AllFiles, AllDirs, Sort, RawMap;
    var files := SortedSources(AllFiles(roots));
    AllDirsAreDirs(roots);
    HeldEntriesWeigh(AllDirs(roots), Bigs(files), plan.packs, plan.entries, ofEntry, ofFile);
    SplitWeighs(files, ofFile);
    SumInAnyOrder(files, AllFiles(roots), ofFile);
  }

  /** The manifest counts the files and bytes of the tree. */
  lemma ManifestTotals(roots: seq<Root>, plan: Plan)
    requires RootsAccepted(roots) && PlanOf(roots, plan)
    ensures FileCount(plan.entries) == plan.fileCount == |AllFiles(roots)|
    ensures TotalBytes(plan.entries) == plan.totalBytes == Sum(AllFiles(roots))
  {
    hide RootsAccepted, PlanOf, AllFiles;
    PlanWeighs(roots, plan, FileWeight, EachOnce);
    PlanWeighs(roots, plan, ByteWeight, SizeOf);
    FileCountIsSum(plan.entries);
    TotalBytesIsSum(plan.entries);
    CountIsSum(AllFiles(roots));
    SizesAreSum(AllFiles(roots));
    PlanTotals(roots, plan);
  }

  lemma PlanTotals(roots: seq<Root>, plan: Plan)
    requires PlanOf(roots, plan)
    ensures plan.fileCount == |AllFiles(roots)| && plan.totalBytes == Sum(AllFiles(roots))
  {
    hide AllFiles, AllDirs, Sort, Sum, GoodPacks, FullPacks, EntriesHold, RawMap;
    var files := SortedSources(AllFiles(roots));
    SameElements(files, AllFiles(roots));
    SizesAreSum(files);
    SizesAreSum(AllFiles(roots));
    SumInAnyOrder(files, AllFiles(roots), SizeOf);
  }

  lemma {:induction false} KindsCount(entries: seq<Entry>)
    requires forall e | e in entries :: e.kind.DirectoryEntry? || e.kind.FileEntry?
    ensures CountDirs(entries) + FileCount(entries) == |entries|
  {
    if entries != [] {
      KindsCount(entries[..|entries| - 1]);
    }
  }

  /** The plan counts the directories of the tree. */
  lemma DirTotals(codec: Codec, roots: seq<Root>, plan: Plan, segments: seq<Segment>, staged: map<string, Bytes>)
    requires Assembled(codec, roots, plan, segments, staged)
    ensures CountDirs(plan.entries) == |AllDirs(roots)|
  {
    hide RootsAccepted, FilesApart, Describes, Stores, SortedSources, AllFiles, AllDirs, GoodPacks, FullPacks, RawMap, Bigs, Smalls, Flat, RawEntries, PackEntries;
    var files := SortedSources(AllFiles(roots));
    forall e | e in plan.entries
      ensures e.kind.DirectoryEntry? || e.kind.FileEntry?
    {
      var s := PlannedEntry(codec, roots, plan, segments, staged, e);
    }
    KindsCount(plan.entries);
    ManifestTotals(roots, plan);
    PartitionIsExact(files);
    SameElements(files, AllFiles(roots));
    assert |multiset(files)| == |multiset(Bigs(files))| + |multiset(Smalls(files))|;
    PackEntriesFollow(plan.packs);
    RawEntriesFollow(Bigs(files));
    assert |multiset(plan.entries)| == |multiset(AllDirs(roots))| + |multiset(RawEntries(Bigs(files)))| + |multiset(PackEntries(plan.packs))|;
  }

  lemma RawEntriesFollow(bigs: seq<Source>)
    ensures |RawEntries(bigs)| == |bigs|
  {
  }

  // Opening the transfer

  /** A segment as the client announces it. */
  datatype Declared = Declared(id: string, kind: SegmentKind, algorithm: string, length: int, digest: Option<Digest>)

  function DeclaredFor(s: Segment): Declared {
    Declared(s.id, s.kind, "blake3", s.wireSize, Some(s.digest))
  }

  function Announced(segments: seq<Segment>): seq<Declared> {
    seq(|segments|, k requires 0 <= k < |segments| => DeclaredFor(segments[k]))
  }

  /** An identifier becomes a file name in staging. */
  predicate Usable(d: Declared) {
    && d.id != "" && ByteLen(d.id) <= 128 && PortableComponent(d.id)
    && (d.kind.Raw? || d.kind.TarZstd?)
    && (d.algorithm == "" || d.algorithm == "blake3")
    && d.length >= 0
    && (d.digest.Some? ==> WellFormedDigest(d.digest.value))
  }

  predicate Declarable(declared: seq<Declared>) {
    && (forall k | 0 <= k < |declared| :: Usable(declared[k]))
    && (forall i, j | 0 <= i < j < |declared| :: declared[i].id != declared[j].id)
  }

  function RowFor(d: Declared): SegmentRow {
    SegmentRow(d.kind, d.length, 0, d.digest, Pending)
  }

  /** One row for each announced segment. */
  predicate Opened(declared: seq<Declared>, rows: map<string, SegmentRow>) {
    && rows.Keys == (set k | 0 <= k < |declared| :: declared[k].id)
    && forall k | 0 <= k < |declared| :: declared[k].id in rows && rows[declared[k].id] == RowFor(declared[k])
  }

  predicate MayOpen(l: Limits, note: string, files: int, declared: seq<Declared>) {
    ByteLen(note) <= l.maxNoteBytes && declared != [] && files <= l.maxFiles && Declarable(declared)
  }

  /** Opens a transfer. It takes any usable, distinct segments within the limits. */
  method OpenTransfer(l: Limits, note: string, files: int, declared: seq<Declared>)
    returns (rows: map<string, SegmentRow>, problem: Option<ErrorCode>)
    ensures problem.None? <==> MayOpen(l, note, files, declared)
    ensures problem.None? ==> Opened(declared, rows)
    ensures problem.None? ==> forall k | 0 <= k < |declared| ::
              && PortableComponent(declared[k].id) && |Rules.EncodedText(declared[k].id)| <= 128
              && declared[k].kind in {Raw, TarZstd} && declared[k].algorithm in {"", "blake3"} && declared[k].length >= 0
              && (declared[k].digest.Some? ==> Rules.HexDigest(declared[k].digest.value))
    ensures problem.None? ==> forall k | 0 <= k < |declared| ::
              declared[k].id in rows &&
              rows[declared[k].id] == SegmentRow(declared[k].kind, declared[k].length, 0, declared[k].digest, Pending)
    ensures problem.Some? ==>
              problem.value == if ByteLen(note) <= l.maxNoteBytes && declared != [] && files > l.maxFiles then TooManyFiles
                               else InvalidRequest
  {
    hide ByteLen, PortableComponent, WellFormedDigest;
    rows := map[];
    if ByteLen(note) > l.maxNoteBytes || declared == [] {
      return rows, Some(InvalidRequest);
    }
    if files > l.maxFiles {
      return rows, Some(TooManyFiles);
    }
    for n := 0 to |declared|
      invariant Declarable(declared[..n]) && Opened(declared[..n], rows)
    {
      var d := declared[n];
      assert declared[..n + 1] == declared[..n] + [d];
      if d.id == "" || ByteLen(d.id) > 128 || !PortableComponent(d.id) || d.id in rows {
        return rows, Some(InvalidRequest);
      }
      if !d.kind.Raw? && !d.kind.TarZstd? {
        return rows, Some(InvalidRequest);
      }
      if (d.algorithm != "" && d.algorithm != "blake3") || d.length < 0 {
        return rows, Some(InvalidRequest);
      }
      if d.digest.Some? && !WellFormedDigest(d.digest.value) {
        return rows, Some(InvalidRequest);
      }
      rows := OpenedMore(declared[..n], rows, d);
    }
    assert declared[..|declared|] == declared;
    DeclarableSpelled(declared);
    problem := None;
  }

  lemma DeclarableSpelled(declared: seq<Declared>)
    requires Declarable(declared)
    ensures forall k | 0 <= k < |declared| ::
              && PortableComponent(declared[k].id) && |Rules.EncodedText(declared[k].id)| <= 128
              && declared[k].kind in {Raw, TarZstd} && declared[k].algorithm in {"", "blake3"} && declared[k].length >= 0
              && (declared[k].digest.Some? ==> Rules.HexDigest(declared[k].digest.value))
  {
    hide PortableComponent, ByteLen, Rules.EncodedText, Rules.HexDigest, WellFormedDigest;
    forall k | 0 <= k < |declared|
      ensures ByteLen(declared[k].id) == |Rules.EncodedText(declared[k].id)|
      ensures declared[k].digest.Some? ==> (WellFormedDigest(declared[k].digest.value) <==> Rules.HexDigest(declared[k].digest.value))
    {
      Rules.ByteLenIsEncoded(declared[k].id);
      if declared[k].digest.Some? {
        Rules.HexExactly(declared[k].digest.value);
      }
    }
  }

  function OpenedMore(declared: seq<Declared>, rows: map<string, SegmentRow>, d: Declared): (more: map<string, SegmentRow>)
    requires Opened(declared, rows) && Declarable(declared) && Usable(d) && d.id !in rows
    ensures Opened(declared + [d], more) && Declarable(declared + [d])
  {
    hide Usable, RowFor;
    var all := declared + [d];
    assert forall k | 0 <= k < |declared| :: all[k] == declared[k] && declared[k].id in rows;
    assert all[|declared|] == d;
    rows[d.id := RowFor(d)]
  }

  // The names of planned segments

  predicate Numeric(s: string) {
    forall i | 0 <= i < |s| :: '0' <= s[i] <= '9'
  }

  lemma {:induction false} DigitsNumeric(n: nat)
    ensures Numeric(Digits(n))
  {
    if n >= 10 {
      DigitsNumeric(n / 10);
    }
  }

  lemma PaddedNumeric(n: nat)
    ensures Numeric(Padded(n)) && |Padded(n)| >= 4
  {
    hide Digits;
    DigitsNumeric(n);
    var d := Digits(n);
    if |d| < 4 {
      AllZeros(4 - |d|);
    }
  }

  lemma NumericIsPortable(prefix: string, s: string)
    requires (prefix == "r-" || prefix == "p-") && Numeric(s) && |s| >= 4 && ByteLen(prefix + s) <= 128
    ensures PortableComponent(prefix + s)
  {
    hide ByteLen, Stem, Lower;
    var id := prefix + s;
    forall i | 0 <= i < |id|
      ensures ComponentChar(id[i])
    {
      assert id[i] == 'r' || id[i] == 'p' || id[i] == '-' || '0' <= id[i] <= '9';
    }
    assert '0' <= id[|id| - 1] <= '9';
    HyphenSecond(id);
  }

  lemma HyphenSecond(id: string)
    requires |id| >= 2 && (id[0] == 'r' || id[0] == 'p') && id[1] == '-'
    ensures Stem(Lower(id)) !in RESERVED_NAMES
  {
    var low := Lower(id);
    assert low[0] == id[0] && low[1] == '-' && low[1..][0] == '-';
    var stem := Stem(low);
    assert stem == [low[0]] + Stem(low[1..]) && Stem(low[1..]) == ['-'] + Stem(low[1..][1..]);
    assert stem[1] == '-';
  }

  lemma IdsUsable(n: nat)
    requires n <= MAX_INT
    ensures PortableComponent(RawId(n)) && PortableComponent(PackId(n))
  {
    hide PortableComponent, Numeric, Padded;
    IdsShort(n);
    PaddedNumeric(n);
    NumericIsPortable("r-", Padded(n));
    NumericIsPortable("p-", Padded(n));
  }

  lemma PlannedDeclarable(codec: Codec, bigs: seq<Source>, packs: seq<PackSpec>, segments: seq<Segment>, staged: map<string, Bytes>)
    requires Describes(segments, staged) && Stores(codec, bigs, packs, staged)
    requires |bigs| <= MAX_INT && |packs| <= MAX_INT
    ensures Declarable(Announced(segments))
  {
    hide ByteLen, RawId, PackId, BuildPack, PortableComponent;
    var declared := Announced(segments);
    forall k | 0 <= k < |segments|
      ensures Usable(declared[k])
    {
      var id := segments[k].id;
      assert id in staged && segments[k] == SegmentFor(id, staged[id]);
      if id in RawIds(|bigs|) {
        var i :| 0 <= i < |bigs| && id == RawId(i);
        IdsShort(i);
        IdsUsable(i);
        IdNotEmpty(i);
      } else {
        var j :| 0 <= j < |packs| && id == PackId(j);
        IdsShort(j);
        IdsUsable(j);
        IdNotEmpty(j);
      }
    }
  }

  // Submitting

  /** Every upload came to its end. */
  function Uploaded(rows: map<string, SegmentRow>): map<string, SegmentRow> {
    map id | id in rows :: rows[id].(received := rows[id].expected, state := Received)
  }

  lemma OpenedIds(segments: seq<Segment>, rows: map<string, SegmentRow>)
    requires Opened(Announced(segments), rows)
    ensures rows.Keys == SegmentIds(segments)
    ensures forall k | 0 <= k < |segments| :: segments[k].id in rows && rows[segments[k].id] == RowFor(DeclaredFor(segments[k]))
  {
    hide RowFor;
    var declared := Announced(segments);
    forall k | 0 <= k < |segments|
      ensures declared[k].id == segments[k].id && segments[k].id in rows && rows[segments[k].id] == RowFor(DeclaredFor(segments[k]))
    {
      assert declared[k] == DeclaredFor(segments[k]);
    }
  }

  /** The segments that were announced and uploaded are the ones the manifest declares. */
  lemma UploadedAgree(segments: seq<Segment>, staged: map<string, Bytes>, rows: map<string, SegmentRow>, m: Manifest)
    requires Describes(segments, staged) && Opened(Announced(segments), rows) && m.segments == segments
    ensures SegmentsAgree(m, Uploaded(rows), staged)
  {
    hide SegmentFor, Describes, Opened, Announced;
    assert forall i, j | 0 <= i < j < |segments| :: segments[i].id != segments[j].id by { DescribedApart(segments, staged); }
    DistinctIdsCount(segments);
    OpenedIds(segments, rows);
    assert |Uploaded(rows)| == |segments| by {
      assert Uploaded(rows).Keys == SegmentIds(segments);
      assert |Uploaded(rows)| == |Uploaded(rows).Keys|;
    }
    forall k | 0 <= k < |segments|
      ensures AgreesAt(Uploaded(rows), staged, segments[k])
    {
      DescribedSize(segments, staged, k);
    }
  }

  lemma DescribedApart(segments: seq<Segment>, staged: map<string, Bytes>)
    requires Describes(segments, staged)
    ensures forall i, j | 0 <= i < j < |segments| :: segments[i].id != segments[j].id
  {
  }

  lemma DescribedSize(segments: seq<Segment>, staged: map<string, Bytes>, k: nat)
    requires Describes(segments, staged) && k < |segments|
    ensures segments[k].id in staged
    ensures |staged[segments[k].id]| == segments[k].wireSize && Blake3(staged[segments[k].id]) == segments[k].digest
  {
  }

  /** The tree is within the server's limits. */
  predicate Fits(l: Limits, roots: seq<Root>, note: string) {
    && |AllFiles(roots)| <= l.maxFiles && ByteLen(note) <= l.maxNoteBytes
    && (l.maxTransferBytes > 0 ==> Sum(AllFiles(roots)) <= l.maxTransferBytes)
  }

  /** What the server answers to a tree that does not fit. */
  function Oversize(l: Limits, roots: seq<Root>, note: string): ErrorCode {
    if ByteLen(note) > l.maxNoteBytes then InvalidRequest
    else if |AllFiles(roots)| > l.maxFiles then TooManyFiles
    else PayloadTooLarge
  }

  /** Opens the transfer, uploads the segments and submits the manifest. The server
      takes a scanned tree exactly when it is sendable and within the limits. */
  method Submit(limits: Limits, codec: Codec, l: Label, plan: Plan, segments: seq<Segment>, staged: map<string, Bytes>, ghost roots: seq<Root>)
    returns (m: Manifest, problem: Option<ErrorCode>)
    requires Assembled(codec, roots, plan, segments, staged) && Accepted(roots) && GoodLabel(l) && |AllFiles(roots)| <= MAX_INT
    ensures m == Described(l, plan, segments)
    ensures m.note == l.note && m.transferId == l.transferId && m.roots == plan.roots && m.entries == plan.entries && m.segments == segments
    ensures problem.None? <==> Sendable(roots) && Fits(limits, roots, l.note)
    ensures problem.None? ==> Valid(m)
    ensures problem.Some? && Sendable(roots) ==> problem.value == Oversize(limits, roots, l.note)
  {
    hide Assembled, Accepted, GoodLabel, Sendable, Valid, AllFiles, AllDirs, ByteLen, Declarable, Opened, Announced, Uploaded, SegmentsAgree, Sum, FileCount, TotalBytes;
    m := Described(l, plan, segments);
    AssembledTotals(codec, roots, plan, segments, staged);
    ValidExactly(codec, roots, plan, segments, staged, l);
    var rows: map<string, SegmentRow>;
    rows, problem := OpenTransfer(limits, l.note, plan.fileCount, Announced(segments));
    FilesNeeded(roots);
    if problem.Some? {
      return;
    }
    problem := CheckManifest(limits, l.transferId, m);
    if problem.Some? {
      return;
    }
    assert SegmentsAgree(m, Uploaded(rows), staged) by {
      UploadedAgree(segments, staged, rows, m);
    }
    assert |Uploaded(rows)| == |segments| by { AgreeingCount(m, Uploaded(rows), staged); }
    problem := Committing.CheckSegments(m, Uploaded(rows), staged);
  }

  lemma FilesNeeded(roots: seq<Root>)
    ensures AllFiles(roots) == [] ==> !Sendable(roots)
  {
  }

  lemma AgreeingCount(m: Manifest, rows: map<string, SegmentRow>, staged: map<string, Bytes>)
    requires SegmentsAgree(m, rows, staged)
    ensures |rows| == |m.segments|
  {
  }

  lemma AssembledTotals(codec: Codec, roots: seq<Root>, plan: Plan, segments: seq<Segment>, staged: map<string, Bytes>)
    requires Assembled(codec, roots, plan, segments, staged) && |AllFiles(roots)| <= MAX_INT
    ensures Describes(segments, staged) && Declarable(Announced(segments))
    ensures |Announced(segments)| == |segments| && (segments == [] <==> AllFiles(roots) == [])
    ensures FileCount(plan.entries) == plan.fileCount == |AllFiles(roots)|
    ensures TotalBytes(plan.entries) == Sum(AllFiles(roots))
  {
    hide RootsAccepted, FilesApart, PlanOf, Describes, Stores, Declarable, AllFiles, AllDirs, SortedSources, Bigs;
    ManifestTotals(roots, plan);
    Counts(codec, roots, plan, segments, staged);
    PlannedDeclarable(codec, Big(roots), plan.packs, segments, staged);
  }
}
