/** Receiving a simple upload: its raw segments have no verification tree, so the client
    downloads each of them whole into a fresh directory and materializes them. */
module Receiving {
  import opened Outcomes
  import opened Protocol
  import opened Validation
  import opened Storage
  import opened Trees
  import opened Payloads
  import opened Paths
  import opened Placing
  import opened Materializing
  import opened Fetching
  import opened SimpleUploads
  import Handoff

  type Answers = map<string, seq<Delivery>>

  /** The bytes a segment's storage path leads to. */
  function Served(dir: Dir, s: Segment): Bytes
    requires Serves(dir, s)
  {
    Stored(dir, s.storagePath).value
  }

  /** The network may fail, but it tampers with nothing and in the end delivers. */
  predicate Honest(dir: Dir, s: Segment, answers: Answers) {
    && Serves(dir, s) && s.id in answers && |answers[s.id]| == MAX_ATTEMPTS
    && Resumes(Served(dir, s), 0, answers[s.id])
  }

  predicate HonestFor(dir: Dir, segments: seq<Segment>, answers: Answers) {
    forall k | 0 <= k < |segments| :: Honest(dir, segments[k], answers)
  }

  predicate NoneEmpty(segments: seq<Segment>) {
    forall k | 0 <= k < |segments| :: segments[k].wireSize > 0
  }

  predicate FetchedFirst(dir: Dir, segments: seq<Segment>, n: nat, fetched: map<string, Bytes>)
    requires n <= |segments|
  {
    && fetched.Keys == (set k | 0 <= k < n :: segments[k].id)
    && forall k | 0 <= k < n :: Serves(dir, segments[k]) && fetched[segments[k].id] == Served(dir, segments[k])
  }

  /** One segment into a directory where no file of it lies. */
  method FetchFresh(dir: Dir, s: Segment, answers: Answers) returns (bytes: Bytes, failure: Option<ErrorCode>)
    requires Honest(dir, s, answers)
    ensures failure.None? <==> s.wireSize > 0
    ensures failure.None? ==> bytes == Served(dir, s)
  {
    hide Resumes;
    assert s.wireSize == |Served(dir, s)|;
    var offer := Offer(s.wireSize, s.digest);
    assert Completable(offer, Served(dir, s), None, answers[s.id]);
    var f: Option<Bytes>;
    f, failure := FetchSegment(offer, None, answers[s.id]);
    bytes := if f.Some? then f.value else [];
  }

  /** Over an honest network every segment arrives, unless one is empty. */
  method FetchAll(dir: Dir, segments: seq<Segment>, answers: Answers) returns (fetched: map<string, Bytes>, failure: Option<ErrorCode>)
    requires HonestFor(dir, segments, answers)
    requires forall i, j | 0 <= i < j < |segments| :: segments[i].id != segments[j].id
    ensures failure.None? <==> NoneEmpty(segments)
    ensures failure.None? ==> FetchedFirst(dir, segments, |segments|, fetched)
  {
    hide Honest, Serves, Served;
    fetched := map[];
    for n := 0 to |segments|
      invariant NoneEmpty(segments[..n]) && FetchedFirst(dir, segments, n, fetched)
    {
      assert Honest(dir, segments[n], answers);
      var bytes: Bytes;
      bytes, failure := FetchFresh(dir, segments[n], answers);
      if failure.Some? {
        return;
      }
      HonestServes(dir, segments[n], answers);
      fetched := fetched[segments[n].id := bytes];
    }
    failure := None;
  }

  lemma HonestServes(dir: Dir, s: Segment, answers: Answers)
    requires Honest(dir, s, answers)
    ensures Serves(dir, s)
  {
  }

  /** Files at the top of the payload lie below nothing. */
  lemma PlainIsTreelike(entries: seq<Entry>, segments: seq<Segment>)
    requires Plain(entries, segments)
    ensures Treelike(entries)
  {
    hide PortableComponent;
    forall i, j | 0 <= i < |entries| && 0 <= j < |entries| && entries[i].kind.FileEntry?
      ensures !Within(FolderOf(entries[j]), entries[i].path)
    {
      assert PlainFile(entries[i], segments[i]) && PlainFile(entries[j], segments[j]);
      ComponentHasNoSlash(entries[j].path);
      ParentOfName(entries[j].path);
      assert entries[i].path != "" by { NotEmpty(entries[i].path); }
    }
  }

  lemma NotEmpty(c: string)
    requires PortableComponent(c)
    ensures c != ""
  {
  }

  lemma FetchedSupplies(codec: Codec, dir: Dir, m: Manifest, fetched: map<string, Bytes>)
    requires Matches(dir, m) && Plain(m.entries, m.segments) && FetchedFirst(dir, m.segments, |m.segments|, fetched)
    ensures Supplied(codec, m, fetched)
  {
    hide Valid, Yields, EntriesOf;
    forall k | 0 <= k < |m.segments|
      ensures Yields(codec, m.segments[k], fetched[m.segments[k].id], EntriesOf(m.entries, m.segments[k].id))
    {
      assert PlainFile(m.entries[k], m.segments[k]) && Serves(dir, m.segments[k]);
      Handoff.RawYields(codec, m, k, fetched[m.segments[k].id]);
    }
  }

  /** A published simple upload is received, over an honest network and into a fresh
      directory, exactly when none of its files is empty, and then what is built is
      what the manifest says. */
  method ReceiveSimple(codec: Codec, m: Manifest, dir: Dir, answers: Answers, now: int) returns (payload: Tree, failure: Option<ErrorCode>)
    requires Complete(dir) && dir.manifest == Some(m) && Plain(m.entries, m.segments)
    requires HonestFor(dir, m.segments, answers)
    ensures failure.None? <==> forall i | 0 <= i < |m.entries| :: m.entries[i].size > 0
    ensures failure.None? ==> Built(payload, m.entries) && NamesWithin(map[], m.entries, payload)
  {
    hide Valid, Plain, HonestFor, NoneEmpty, FetchedFirst, Treelike, Supplied, Built, NamesWithin, WithPaths, AllKept;
    Handoff.ServesAll(dir, m);
    EmptyFiles(m.entries, m.segments);
    var fetched: map<string, Bytes>;
    payload := map[];
    fetched, failure := FetchAll(dir, m.segments, answers);
    if failure.Some? {
      return;
    }
    PlainIsTreelike(m.entries, m.segments);
    FetchedSupplies(codec, dir, m, fetched);
    var client, received := Run(codec, Dir(None, map[], fetched, map[]), m, now);
    payload := client.payload;
  }

  lemma EmptyFiles(entries: seq<Entry>, segments: seq<Segment>)
    requires Plain(entries, segments)
    ensures NoneEmpty(segments) <==> forall i | 0 <= i < |entries| :: entries[i].size > 0
  {
    assert forall i | 0 <= i < |entries| :: PlainFile(entries[i], segments[i]);
  }
}
