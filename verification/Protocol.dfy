/** The manifest: the complete portable description of a handoff, and the rules
    every manifest must satisfy before it is stored or served. */
module Protocol {
  import opened Outcomes

  type Bytes = seq<bv8>

  /** A digest as it appears in a manifest. BLAKE3 is taken to be free of
      collisions: the digest of some bytes names exactly those bytes. A client may
      also send any other text. */
  datatype Digest = Blake3(content: Bytes) | Text(text: string)

  datatype SegmentKind = Raw | TarZstd | OtherKind(name: string)

  datatype Segment = Segment(id: string, kind: SegmentKind, wireSize: int, digest: Digest, storagePath: string)

  datatype EntryType = FileEntry | DirectoryEntry | OtherType(name: string)

  datatype Entry = Entry(path: string, kind: EntryType, size: int, mtime: int, mode: nat,
                         digest: Digest, segmentId: string, segmentOffset: int)

  /** `createdAt` is 0 for the zero time. */
  datatype Manifest = Manifest(schemaVersion: int, transferId: string, createdAt: int, note: string,
                               roots: seq<string>, algorithm: string,
                               segments: seq<Segment>, entries: seq<Entry>)

  const MAX_NOTE_BYTES := 16384
  const MAX_MODE := 511

  // Text measures

  function CharLen(c: char): nat {
    if c < '\U{0080}' then 1 else if c < '\U{0800}' then 2 else if c < '\U{10000}' then 3 else 4
  }

  /** Length in UTF-8 bytes. */
  function ByteLen(s: string): nat {
    if s == "" then 0 else CharLen(s[0]) + ByteLen(s[1..])
  }

  function LowerChar(c: char): char {
    if 'A' <= c <= 'Z' then ((c as int) + 32) as char else c
  }

  function Lower(s: string): (r: string)
    ensures |r| == |s|
  {
    seq(|s|, i requires 0 <= i < |s| => LowerChar(s[i]))
  }

  /** The same character, or the same letter in the other case. */
  predicate CaseTwins(x: char, y: char) {
    x == y || ('A' <= x <= 'Z' && y as int == x as int + 32) || ('A' <= y <= 'Z' && x as int == y as int + 32)
  }

  /** Names that cannot both exist where case does not count. */
  predicate Clash(a: string, b: string) {
    |a| == |b| && forall i | 0 <= i < |a| :: CaseTwins(a[i], b[i])
  }

  /** Lowering makes exactly the clashing names equal. */
  lemma ClashIsSameLower(a: string, b: string)
    ensures Lower(a) == Lower(b) <==> Clash(a, b)
  {
    if Lower(a) == Lower(b) {
      assert |Lower(a)| == |a| && |Lower(b)| == |b|;
      forall i | 0 <= i < |a|
        ensures CaseTwins(a[i], b[i])
      {
        assert Lower(a)[i] == LowerChar(a[i]) && Lower(b)[i] == LowerChar(b[i]);
      }
    }
    if Clash(a, b) {
      forall i | 0 <= i < |a|
        ensures Lower(a)[i] == Lower(b)[i]
      {
        assert CaseTwins(a[i], b[i]);
      }
    }
  }

  predicate IsHexChar(c: char) { '0' <= c <= '9' || 'a' <= c <= 'f' }

  predicate WellFormedDigest(d: Digest) {
    d.Blake3? || (|d.text| == 64 && forall i | 0 <= i < |d.text| :: IsHexChar(d.text[i]))
  }

  // Paths

  /** The part before the first slash. */
  function Top(p: string): (t: string)
    ensures |t| <= |p| && t == p[..|t|]
  {
    if p == "" || p[0] == '/' then "" else [p[0]] + Top(p[1..])
  }

  /** The slash-separated components of a path. */
  function Components(p: string): (cs: seq<string>)
    ensures |cs| > 0
    decreases |p|
  {
    var t := Top(p);
    if |t| == |p| then [p] else [t] + Components(p[|t| + 1..])
  }

  const RESERVED_CHARS := "<>:\"|?*\\/"

  const RESERVED_NAMES: set<string> := {
    "con", "prn", "aux", "nul",
    "com1", "com2", "com3", "com4", "com5", "com6", "com7", "com8", "com9",
    "lpt1", "lpt2", "lpt3", "lpt4", "lpt5", "lpt6", "lpt7", "lpt8", "lpt9"
  }

  /** Unicode category Cf. */
  predicate IsFormatControl(c: char) {
    || c == '\U{00AD}' || '\U{0600}' <= c <= '\U{0605}' || c == '\U{061C}' || c == '\U{06DD}' || c == '\U{070F}'
    || '\U{0890}' <= c <= '\U{0891}' || c == '\U{08E2}' || c == '\U{180E}' || '\U{200B}' <= c <= '\U{200F}'
    || '\U{202A}' <= c <= '\U{202E}' || '\U{2060}' <= c <= '\U{2064}' || '\U{2066}' <= c <= '\U{206F}'
    || c == '\U{FEFF}' || '\U{FFF9}' <= c <= '\U{FFFB}' || c == '\U{110BD}' || c == '\U{110CD}'
    || '\U{13430}' <= c <= '\U{1343F}' || '\U{1BCA0}' <= c <= '\U{1BCA3}' || '\U{1D173}' <= c <= '\U{1D17A}'
    || c == '\U{E0001}' || '\U{E0020}' <= c <= '\U{E007F}'
  }

  predicate ComponentChar(c: char) {
    c >= ' ' && c != '\U{007F}' && c !in RESERVED_CHARS && !IsFormatControl(c)
  }

  /** The part before the first dot. */
  function Stem(s: string): string {
    if s == "" || s[0] == '.' then "" else [s[0]] + Stem(s[1..])
  }

  predicate PortableComponent(c: string) {
    && c != "" && c != "." && c != ".."
    && ByteLen(c) <= 255
    && (forall i | 0 <= i < |c| :: ComponentChar(c[i]))
    && c[|c| - 1] != '.' && c[|c| - 1] != ' '
    && Stem(Lower(c)) !in RESERVED_NAMES
  }

  predicate PortablePath(p: string) {
    && p != ""
    && ByteLen(p) <= 4096
    && p[0] != '/'
    && '\\' !in p
    && !(|p| >= 2 && p[1] == ':')
    && (forall i | 0 <= i < |Components(p)| :: PortableComponent(Components(p)[i]))
  }

  // Lookups and totals

  /** The first segment with the given identifier. */
  function FindSegment(segments: seq<Segment>, id: string): (r: Option<Segment>)
    ensures r.None? <==> forall i | 0 <= i < |segments| :: segments[i].id != id
    ensures r.Some? ==> r.value in segments && r.value.id == id
  {
    if segments == [] then None
    else if segments[0].id == id then Some(segments[0])
    else FindSegment(segments[1..], id)
  }

  function TotalBytes(entries: seq<Entry>): int {
    if entries == [] then 0
    else (if entries[0].kind.FileEntry? then entries[0].size else 0) + TotalBytes(entries[1..])
  }

  lemma TotalBytesSnoc(es: seq<Entry>, e: Entry)
    ensures TotalBytes(es + [e]) == TotalBytes(es) + (if e.kind.FileEntry? then e.size else 0)
  {
    if es == [] {
    } else {
      assert (es + [e])[1..] == es[1..] + [e];
      TotalBytesSnoc(es[1..], e);
    }
  }

  /** Totals the sizes of the file entries in one pass. */
  method CountBytes(m: Manifest) returns (n: int)
    ensures n == TotalBytes(m.entries)
  {
    n := 0;
    for i := 0 to |m.entries|
      invariant n == TotalBytes(m.entries[..i])
    {
      assert m.entries[..i + 1] == m.entries[..i] + [m.entries[i]];
      TotalBytesSnoc(m.entries[..i], m.entries[i]);
      if m.entries[i].kind.FileEntry? {
        n := n + m.entries[i].size;
      }
    }
    assert m.entries[..|m.entries|] == m.entries;
  }

  // What a valid manifest is

  predicate ValidSegment(s: Segment) {
    && s.id != "" && ByteLen(s.id) <= 128
    && !s.kind.OtherKind?
    && s.wireSize >= 0
    && WellFormedDigest(s.digest)
  }

  predicate ValidHeader(m: Manifest) {
    && m.schemaVersion == 1
    && 16 <= ByteLen(m.transferId) <= 128
    && m.createdAt != 0
    && (m.algorithm == "" || m.algorithm == "blake3")
    && ByteLen(m.note) <= MAX_NOTE_BYTES
  }

  predicate ValidRoot(r: string) {
    r != "" && ByteLen(r) <= 255 && PortableComponent(r)
  }

  predicate ValidRoots(roots: seq<string>) {
    && roots != []
    && (forall i | 0 <= i < |roots| :: ValidRoot(roots[i]))
    && (forall i, j | 0 <= i < j < |roots| :: Lower(roots[i]) != Lower(roots[j]))
  }

  predicate ValidSegments(segments: seq<Segment>) {
    && segments != []
    && (forall i | 0 <= i < |segments| :: ValidSegment(segments[i]))
    && (forall i, j | 0 <= i < j < |segments| :: segments[i].id != segments[j].id)
  }

  /** A file entry backed by a raw segment is that segment, whole. */
  predicate Backed(segments: seq<Segment>, e: Entry) {
    var s := FindSegment(segments, e.segmentId);
    s.Some? && (s.value.kind.Raw? ==> s.value.wireSize == e.size && s.value.digest == e.digest)
  }

  predicate ValidFields(segments: seq<Segment>, e: Entry) {
    match e.kind
    case DirectoryEntry => e.size == 0 && e.digest == Text("") && e.segmentId == ""
    case FileEntry => e.size >= 0 && WellFormedDigest(e.digest) && Backed(segments, e) && e.segmentOffset >= 0
    case OtherType(_) => false
  }

  predicate UnderRoot(roots: seq<string>, p: string) {
    exists i | 0 <= i < |roots| :: Lower(roots[i]) == Lower(Top(p))
  }

  predicate ValidEntry(roots: seq<string>, segments: seq<Segment>, e: Entry) {
    && PortablePath(e.path)
    && UnderRoot(roots, e.path)
    && e.mode <= MAX_MODE
    && e.mtime >= 0
    && ValidFields(segments, e)
  }

  predicate RawBacked(segments: seq<Segment>, e: Entry) {
    && e.kind.FileEntry?
    && var s := FindSegment(segments, e.segmentId);
    s.Some? && s.value.kind.Raw?
  }

  /** Two entries neither share a normalized path nor a raw segment. */
  predicate Apart(segments: seq<Segment>, a: Entry, b: Entry) {
    && Lower(a.path) != Lower(b.path)
    && !(RawBacked(segments, a) && RawBacked(segments, b) && a.segmentId == b.segmentId)
  }

  predicate ApartFromEarlier(segments: seq<Segment>, entries: seq<Entry>, j: nat)
    requires j < |entries|
  {
    forall i | 0 <= i < j :: Apart(segments, entries[i], entries[j])
  }

  /** The first `n` entries are valid and apart from one another. */
  predicate ValidPrefix(roots: seq<string>, segments: seq<Segment>, entries: seq<Entry>, n: nat)
    requires n <= |entries|
  {
    && (forall i | 0 <= i < n :: ValidEntry(roots, segments, entries[i]))
    && (forall j | 0 <= j < n :: ApartFromEarlier(segments, entries, j))
  }

  predicate ValidEntries(roots: seq<string>, segments: seq<Segment>, entries: seq<Entry>) {
    entries != [] && ValidPrefix(roots, segments, entries, |entries|)
  }

  predicate Referenced(entries: seq<Entry>, id: string) {
    exists i | 0 <= i < |entries| :: entries[i].segmentId == id
  }

  predicate AllReferenced(segments: seq<Segment>, entries: seq<Entry>) {
    forall k | 0 <= k < |segments| :: Referenced(entries, segments[k].id)
  }

  predicate Valid(m: Manifest) {
    && ValidHeader(m)
    && ValidRoots(m.roots)
    && ValidSegments(m.segments)
    && ValidEntries(m.roots, m.segments, m.entries)
    && AllReferenced(m.segments, m.entries)
  }
}
