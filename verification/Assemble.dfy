/** The manifest a client assembles from its plan, and the bytes it uploads. */
module Assembling {
  import opened Outcomes
  import opened Protocol
  import opened Validation
  import opened Sorting
  import opened Naming
  import opened Scanning
  import opened Payloads
  import opened Paths

  const RAW_PREFIX := "r-"

  function MembersOf(files: seq<Source>): seq<Member> {
    seq(|files|, i requires 0 <= i < |files| => Member(files[i].path, true, files[i].data))
  }

  function BuildPack(codec: Codec, p: PackSpec): Bytes {
    codec.encode(MembersOf(p.files))
  }

  function SegmentFor(id: string, bytes: Bytes): Segment {
    Segment(id, if RAW_PREFIX <= id then Raw else TarZstd, |bytes|, Blake3(bytes), "")
  }

  /** A segment of a request: its kind told by its name, size and digest of its bytes, and no
      storage path. */
  predicate Sent(s: Segment, bytes: Bytes) {
    && s.kind == (if "r-" <= s.id then Raw else TarZstd) && s.wireSize == |bytes| && s.digest == Blake3(bytes) && s.storagePath == ""
  }

  /** One segment for each piece of staged bytes. */
  predicate Describes(segments: seq<Segment>, staged: map<string, Bytes>) {
    && SegmentIds(segments) == staged.Keys
    && (forall i, j | 0 <= i < j < |segments| :: segments[i].id != segments[j].id)
    && (forall k | 0 <= k < |segments| ::
          segments[k].id in staged && segments[k] == SegmentFor(segments[k].id, staged[segments[k].id]))
  }

  function RawIds(n: nat): set<string> {
    set i | 0 <= i < n :: RawId(i)
  }

  function PackIds(n: nat): set<string> {
    set j | 0 <= j < n :: PackId(j)
  }

  /** The staged bytes are the large files and the built packs. */
  predicate Stores(codec: Codec, bigs: seq<Source>, packs: seq<PackSpec>, staged: map<string, Bytes>) {
    && staged.Keys == RawIds(|bigs|) + PackIds(|packs|)
    && (forall i | 0 <= i < |bigs| :: staged[RawId(i)] == bigs[i].data)
    && (forall j | 0 <= j < |packs| :: staged[PackId(j)] == BuildPack(codec, packs[j]))
  }

  lemma DescribesMore(segments: seq<Segment>, staged: map<string, Bytes>, id: string, bytes: Bytes)
    requires Describes(segments, staged) && id !in staged
    ensures Describes(segments + [SegmentFor(id, bytes)], staged[id := bytes])
  {
    hide SegmentFor;
    var s := SegmentFor(id, bytes);
    assert s.id == id by { SegmentForId(id, bytes); }
    var more := segments + [s];
    assert more[|segments|] == s;
    forall k | 0 <= k < |segments|
      ensures more[k].id in staged && more[k] == SegmentFor(more[k].id, staged[more[k].id])
    {
      assert more[k] == segments[k];
    }
    assert SegmentIds(more) == SegmentIds(segments) + {id} by {
      assert forall k | 0 <= k < |segments| :: more[k].id in SegmentIds(segments);
      forall x | x in SegmentIds(segments)
        ensures x in SegmentIds(more)
      {
        var k :| 0 <= k < |segments| && segments[k].id == x;
        assert more[k].id == x;
      }
      assert more[|segments|].id in SegmentIds(more);
    }
    forall i, j | 0 <= i < j < |more|
      ensures more[i].id != more[j].id
    {
      assert more[i] == segments[i];
      if j < |segments| {
        assert more[j] == segments[j];
      }
    }
  }

  lemma SegmentForId(id: string, bytes: Bytes)
    ensures SegmentFor(id, bytes).id == id
  {
  }

  /** Lists the segments of the large files, in no particular order. */
  method AssembleRaw(rawFiles: map<string, Source>) returns (segments: seq<Segment>, staged: map<string, Bytes>)
    ensures Describes(segments, staged)
    ensures staged.Keys == rawFiles.Keys && forall id | id in rawFiles :: staged[id] == rawFiles[id].data
  {
    hide Describes, SegmentFor;
    segments, staged := [], map[];
    DescribesNothing();
    var todo := rawFiles.Keys;
    while todo != {}
      invariant todo <= rawFiles.Keys && Describes(segments, staged)
      invariant staged.Keys == rawFiles.Keys - todo
      invariant forall id | id in staged :: staged[id] == rawFiles[id].data
      decreases |todo|
    {
      var id :| id in todo;
      DescribesMore(segments, staged, id, rawFiles[id].data);
      segments := segments + [SegmentFor(id, rawFiles[id].data)];
      staged := staged[id := rawFiles[id].data];
      todo := todo - {id};
    }
  }

  predicate StoresSoFar(codec: Codec, bigs: seq<Source>, packs: seq<PackSpec>, n: nat, staged: map<string, Bytes>)
    requires n <= |packs|
  {
    Stores(codec, bigs, packs[..n], staged)
  }

  lemma RawsStaged(codec: Codec, bigs: seq<Source>, packs: seq<PackSpec>, staged: map<string, Bytes>)
    requires staged.Keys == RawMap(bigs).Keys && forall id | id in staged :: staged[id] == RawMap(bigs)[id].data
    ensures StoresSoFar(codec, bigs, packs, 0, staged)
  {
    forall i | 0 <= i < |bigs|
      ensures RawId(i) in staged && staged[RawId(i)] == bigs[i].data
    {
      RawMapAt(bigs, i);
    }
  }

  lemma PackStaged(codec: Codec, bigs: seq<Source>, packs: seq<PackSpec>, n: nat, staged: map<string, Bytes>)
    requires n < |packs| && StoresSoFar(codec, bigs, packs, n, staged)
    ensures PackId(n) !in staged
    ensures StoresSoFar(codec, bigs, packs, n + 1, staged[PackId(n) := BuildPack(codec, packs[n])])
  {
    hide RawId, PackId, BuildPack;
    forall i: nat
      ensures RawId(i) != PackId(n) && (PackId(i) == PackId(n) ==> i == n)
    {
      IdsDiffer(i, n);
    }
    assert PackIds(n + 1) == PackIds(n) + {PackId(n)};
  }

  /** Lists the segments: the large files first, then the packs in order. */
  method AssembleSegments(codec: Codec, rawFiles: map<string, Source>, packs: seq<PackSpec>, ghost bigs: seq<Source>)
    returns (segments: seq<Segment>, staged: map<string, Bytes>)
    requires rawFiles == RawMap(bigs) && GoodPacks(packs)
    ensures Describes(segments, staged) && Stores(codec, bigs, packs, staged)
    ensures forall k | 0 <= k < |segments| :: segments[k].id in staged && Sent(segments[k], staged[segments[k].id])
  {
    hide Describes, SegmentFor, RawId, PackId, BuildPack, RawMap, StoresSoFar;
    segments, staged := AssembleRaw(rawFiles);
    RawsStaged(codec, bigs, packs, staged);
    for j := 0 to |packs|
      invariant Describes(segments, staged) && StoresSoFar(codec, bigs, packs, j, staged)
    {
      assert GoodPack(packs[j], j);
      var id := packs[j].segmentId;
      var bytes := BuildPack(codec, packs[j]);
      PackStaged(codec, bigs, packs, j, staged);
      DescribesMore(segments, staged, id, bytes);
      segments := segments + [SegmentFor(id, bytes)];
      staged := staged[id := bytes];
    }
    AllStaged(codec, bigs, packs, staged);
    DescribedAreSent(segments, staged);
  }

  lemma DescribedAreSent(segments: seq<Segment>, staged: map<string, Bytes>)
    requires Describes(segments, staged)
    ensures forall k | 0 <= k < |segments| :: segments[k].id in staged && Sent(segments[k], staged[segments[k].id])
  {
  }

  lemma AllStaged(codec: Codec, bigs: seq<Source>, packs: seq<PackSpec>, staged: map<string, Bytes>)
    requires StoresSoFar(codec, bigs, packs, |packs|, staged)
    ensures Stores(codec, bigs, packs, staged)
  {
    assert packs[..|packs|] == packs;
  }

  lemma DescribesNothing()
    ensures Describes([], map[])
  {
  }

  // Where the entries come from

  lemma {:induction false} PackEntriesAre(packs: seq<PackSpec>, e: Entry)
    ensures e in PackEntries(packs) <==>
              exists j, i :: 0 <= j < |packs| && 0 <= i < |packs[j].files| && e == FileEntryFor(packs[j].files[i], packs[j].segmentId)
  {
    if packs != [] {
      var n := |packs| - 1;
      PackEntriesAre(packs[..n], e);
      if e in PackEntries(packs[..n]) {
        var j, i :| 0 <= j < n && 0 <= i < |packs[..n][j].files| && e == FileEntryFor(packs[..n][j].files[i], packs[..n][j].segmentId);
        assert packs[..n][j] == packs[j];
      } else if e in EntriesFor(packs[n].files, packs[n].segmentId) {
        var i :| 0 <= i < |packs[n].files| && e == EntriesFor(packs[n].files, packs[n].segmentId)[i];
        assert e == FileEntryFor(packs[n].files[i], packs[n].segmentId);
      }
      if j, i :| 0 <= j < |packs| && 0 <= i < |packs[j].files| && e == FileEntryFor(packs[j].files[i], packs[j].segmentId) {
        if j < n {
          assert packs[..n][j] == packs[j];
          assert e in PackEntries(packs[..n]);
        } else {
          assert EntriesFor(packs[n].files, packs[n].segmentId)[i] == e;
        }
      }
    }
  }

  predicate IsRawEntry(bigs: seq<Source>, e: Entry) {
    exists i | 0 <= i < |bigs| :: e == FileEntryFor(bigs[i], RawId(i))
  }

  predicate IsPackEntry(packs: seq<PackSpec>, e: Entry) {
    exists j | 0 <= j < |packs| :: InPack(packs[j].files, PackId(j), e)
  }

  predicate InPack(files: seq<Source>, id: string, e: Entry) {
    exists i | 0 <= i < |files| :: e == FileEntryFor(files[i], id)
  }

  /** Every planned entry is a directory, a large file or a packed file. */
  lemma EntriesAre(dirs: seq<Entry>, bigs: seq<Source>, packs: seq<PackSpec>, entries: seq<Entry>, e: Entry)
    requires EntriesHold(dirs, bigs, packs, entries) && GoodPacks(packs)
    ensures e in entries <==> e in dirs || IsRawEntry(bigs, e) || IsPackEntry(packs, e)
  {
    hide FileEntryFor;
    assert e in entries <==> e in multiset(entries);
    assert e in dirs <==> e in multiset(dirs);
    assert IsRawEntry(bigs, e) <==> e in RawEntries(bigs) by {
      if i :| 0 <= i < |bigs| && e == FileEntryFor(bigs[i], RawId(i)) {
        assert RawEntries(bigs)[i] == e;
      }
    }
    assert e in RawEntries(bigs) <==> e in multiset(RawEntries(bigs));
    assert IsPackEntry(packs, e) <==> e in PackEntries(packs) by {
      PackEntriesAre(packs, e);
      assert forall j | 0 <= j < |packs| :: GoodPack(packs[j], j);
    }
    assert e in PackEntries(packs) <==> e in multiset(PackEntries(packs));
  }
}
