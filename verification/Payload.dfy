/** What a payload tree must be for a manifest, and what staged segments must hold
    for it to be built. */
module Payloads {
  import opened Outcomes
  import opened Protocol
  import opened Validation
  import opened Storage
  import opened Trees

  /** One archive member as the tar reader hands it out. */
  datatype Member = Member(name: string, regular: bool, data: Bytes)

  /** The pack format: a tar stream under zstd. */
  datatype Codec = Codec(encode: seq<Member> -> Bytes, decode: Bytes -> Option<seq<Member>>)

  ghost predicate RoundTrips(c: Codec) {
    forall ms: seq<Member> :: c.decode(c.encode(ms)) == Some(ms)
  }

  // Entries by segment

  /** The file entries a segment backs, in manifest order. */
  function EntriesOf(entries: seq<Entry>, id: string): seq<Entry> {
    if entries == [] then []
    else
      var rest := EntriesOf(entries[..|entries| - 1], id);
      var e := entries[|entries| - 1];
      if e.kind.FileEntry? && e.segmentId == id then rest + [e] else rest
  }

  lemma {:induction false} EntriesOfAre(entries: seq<Entry>, id: string)
    ensures forall e :: e in EntriesOf(entries, id) <==> e in entries && e.kind.FileEntry? && e.segmentId == id
  {
    if entries != [] {
      var n := |entries| - 1;
      EntriesOfAre(entries[..n], id);
      assert entries == entries[..n] + [entries[n]];
    }
  }

  predicate DistinctPaths(es: seq<Entry>) {
    forall i, j | 0 <= i < j < |es| :: es[i].path != es[j].path
  }

  lemma {:induction false} EntriesOfDistinct(entries: seq<Entry>, id: string)
    requires DistinctPaths(entries)
    ensures DistinctPaths(EntriesOf(entries, id))
  {
    if entries != [] {
      var n := |entries| - 1;
      EntriesOfDistinct(entries[..n], id);
      EntriesOfAre(entries[..n], id);
      forall e | e in EntriesOf(entries[..n], id)
        ensures e.path != entries[n].path
      {
        var i :| 0 <= i < |entries[..n]| && entries[..n][i] == e;
      }
    }
  }

  lemma ValidPathsDistinct(m: Manifest)
    requires Valid(m)
    ensures DistinctPaths(m.entries)
  {
    forall i, j | 0 <= i < j < |m.entries|
      ensures m.entries[i].path != m.entries[j].path
    {
      assert ApartFromEarlier(m.segments, m.entries, j);
      assert Apart(m.segments, m.entries[i], m.entries[j]);
    }
  }

  // What the payload becomes

  predicate IsExec(mode: nat) {
    mode % 2 == 1 || (mode / 8) % 2 == 1 || (mode / 64) % 2 == 1
  }

  /** A file is executable when a digit of its octal mode is odd. */
  lemma ExecutableDigits(user: nat, group: nat, others: nat)
    requires user < 8 && group < 8 && others < 8
    ensures IsExec(64 * user + 8 * group + others) <==> user in {1, 3, 5, 7} || group in {1, 3, 5, 7} || others in {1, 3, 5, 7}
  {
    var mode := 64 * user + 8 * group + others;
    assert mode / 8 == 8 * user + group && mode / 64 == user;
  }

  /** The bytes are the ones the entry declares. */
  predicate Proves(e: Entry, data: Bytes) {
    e.digest == Blake3(data) && |data| == e.size
  }

  /** The node an entry describes: its digest names its bytes. */
  predicate IsNode(n: Node, e: Entry) {
    match e.kind
    case FileEntry => n.File? && Proves(e, n.data) && n.exec == IsExec(e.mode) && n.mtime == e.mtime
    case _ => n == Folder(e.mtime)
  }

  /** Every entry is there, as described. */
  predicate Built(t: Tree, entries: seq<Entry>) {
    forall i | 0 <= i < |entries| :: entries[i].path in t && IsNode(t[entries[i].path], entries[i])
  }

  function FolderOf(e: Entry): string {
    if e.kind.DirectoryEntry? then e.path else Parent(e.path)
  }

  /** No entry has to lie below a file. */
  predicate Treelike(entries: seq<Entry>) {
    forall i, j | 0 <= i < |entries| && 0 <= j < |entries| && entries[i].kind.FileEntry? ::
      !Within(FolderOf(entries[j]), entries[i].path)
  }

  /** That is: no file's path continues, after a slash, into another entry's path, and no
      directory has a file's path. */
  lemma TreelikeExactly(entries: seq<Entry>)
    requires forall i | 0 <= i < |entries| && entries[i].kind.FileEntry? :: entries[i].path != ""
    ensures Treelike(entries) <==>
              forall i, j | 0 <= i < |entries| && 0 <= j < |entries| && entries[i].kind.FileEntry? ::
                !(entries[i].path + "/" <= entries[j].path) && (entries[j].kind.DirectoryEntry? ==> entries[j].path != entries[i].path)
  {
    hide Within;
    forall i, j | 0 <= i < |entries| && 0 <= j < |entries| && entries[i].kind.FileEntry?
      ensures Within(FolderOf(entries[j]), entries[i].path) <==>
                entries[i].path + "/" <= entries[j].path || (entries[j].kind.DirectoryEntry? && entries[j].path == entries[i].path)
    {
      WithinExactly(entries[j].path, entries[i].path);
      ParentWithin(entries[j].path, entries[i].path);
    }
  }

  /** The paths of the file entries the given segments back. */
  function Written(entries: seq<Entry>, ids: set<string>): set<string> {
    set i | 0 <= i < |entries| && entries[i].kind.FileEntry? && entries[i].segmentId in ids :: entries[i].path
  }

  function FilePaths(entries: seq<Entry>): set<string> {
    set i | 0 <= i < |entries| && entries[i].kind.FileEntry? :: entries[i].path
  }

  function Files(t: Tree): set<string> {
    set p | p in t && t[p].File?
  }

  // What staged segments must hold

  predicate NamesDistinct(ms: seq<Member>) {
    forall i, j | 0 <= i < j < |ms| :: ms[i].name != ms[j].name
  }

  predicate Declares(declared: seq<Entry>, mem: Member) {
    exists i | 0 <= i < |declared| :: declared[i].path == mem.name && declared[i].size == |mem.data|
  }

  predicate Contains(ms: seq<Member>, p: string) {
    exists k | 0 <= k < |ms| :: ms[k].name == p
  }

  /** The archive holds the declared files, each once and at its size, and nothing else. */
  predicate Listed(ms: seq<Member>, declared: seq<Entry>) {
    && (forall k | 0 <= k < |ms| :: ms[k].regular && Declares(declared, ms[k]))
    && NamesDistinct(ms)
    && (forall i | 0 <= i < |declared| :: Contains(ms, declared[i].path))
  }

  /** `data` is what the segment carries for the path. */
  predicate Carries(codec: Codec, seg: Segment, bytes: Bytes, p: string, data: Bytes) {
    if seg.kind.Raw? then data == bytes
    else
      var ms := codec.decode(bytes);
      ms.Some? && exists k | 0 <= k < |ms.value| :: ms.value[k].name == p && ms.value[k].data == data
  }

  /** A raw segment backs one file; a pack lists the declared files. */
  predicate Shaped(codec: Codec, seg: Segment, bytes: Bytes, declared: seq<Entry>) {
    if seg.kind.Raw? then |declared| == 1
    else
      var ms := codec.decode(bytes);
      ms.Some? && Listed(ms.value, declared)
  }

  /** The segment's bytes yield every declared file with its declared content. */
  ghost predicate Yields(codec: Codec, seg: Segment, bytes: Bytes, declared: seq<Entry>) {
    && Shaped(codec, seg, bytes, declared)
    && forall i, data | 0 <= i < |declared| && Carries(codec, seg, bytes, declared[i].path, data) :: Proves(declared[i], data)
  }

  function SegmentIds(segments: seq<Segment>): set<string> {
    set k | 0 <= k < |segments| :: segments[k].id
  }

  /** The staged segments are exactly the declared ones, and yield every declared file. */
  ghost predicate Supplied(codec: Codec, m: Manifest, staged: map<string, Bytes>) {
    && staged.Keys == SegmentIds(m.segments)
    && forall k | 0 <= k < |m.segments| ::
         Yields(codec, m.segments[k], staged[m.segments[k].id], EntriesOf(m.entries, m.segments[k].id))
  }
}
