/** The rules for paths and manifests said once more, character by character and number
    by number, and proved to be what the checks decide. */
module Rules {
  import opened Outcomes
  import opened Protocol
  import opened Sorting
  import opened Trees
  import opened Scanning
  import opened Paths
  import opened Validation

  // Lengths in UTF-8

  /** The UTF-8 form of a character, as section 3 of RFC 3629 lays it out. */
  function Encoded(c: char): seq<int> {
    var n := c as int;
    if n < 0x80 then [n]
    else if n < 0x800 then [0xC0 + n / 64, 0x80 + n % 64]
    else if n < 0x10000 then [0xE0 + n / 4096, 0x80 + n / 64 % 64, 0x80 + n % 64]
    else [0xF0 + n / 262144, 0x80 + n / 4096 % 64, 0x80 + n / 64 % 64, 0x80 + n % 64]
  }

  /** The code point behind the first bytes of a text. */
  function Decoded(b: seq<int>): int
    requires b != []
  {
    if b[0] < 0x80 then b[0]
    else if b[0] < 0xE0 && |b| >= 2 then (b[0] - 0xC0) * 64 + (b[1] - 0x80)
    else if b[0] < 0xF0 && |b| >= 3 then (b[0] - 0xE0) * 4096 + (b[1] - 0x80) * 64 + (b[2] - 0x80)
    else if |b| >= 4 then (b[0] - 0xF0) * 262144 + (b[1] - 0x80) * 4096 + (b[2] - 0x80) * 64 + (b[3] - 0x80)
    else -1
  }

  function EncodedText(s: string): seq<int> {
    if s == "" then [] else Encoded(s[0]) + EncodedText(s[1..])
  }

  lemma DecodesBack(c: char)
    ensures Decoded(Encoded(c)) == c as int
    ensures forall i | 0 <= i < |Encoded(c)| :: 0 <= Encoded(c)[i] < 256
  {
    var n := c as int;
    assert n < 0x110000;
    assert n == n / 64 * 64 + n % 64;
    assert n / 64 == n / 4096 * 64 + n / 64 % 64;
    assert n / 4096 == n / 262144 * 64 + n / 4096 % 64;
  }

  /** The length the limits speak of is that of the UTF-8 form. */
  lemma {:induction false} ByteLenIsEncoded(s: string)
    ensures ByteLen(s) == |EncodedText(s)|
  {
    if s != "" {
      ByteLenIsEncoded(s[1..]);
      assert |Encoded(s[0])| == CharLen(s[0]);
    }
  }

  // Components

  /** A stretch between two slashes, or between a slash and an end. */
  predicate IsPiece(p: string, i: int, j: int) {
    && 0 <= i <= j <= |p| && (i == 0 || p[i - 1] == '/') && (j == |p| || p[j] == '/')
    && forall k | i <= k < j :: p[k] != '/'
  }

  lemma {:induction false} TopEnds(p: string)
    ensures IsPiece(p, 0, |Top(p)|)
  {
    if p != "" && p[0] != '/' {
      TopEnds(p[1..]);
      var n := |Top(p[1..])|;
      assert |Top(p)| == n + 1;
      forall k | 0 <= k < n + 1
        ensures p[k] != '/'
      {
        assert k > 0 ==> p[1..][k - 1] == p[k];
      }
      assert n < |p[1..]| ==> p[1..][n] == p[n + 1];
    }
  }

  lemma SplitAtSlash(p: string)
    ensures |Top(p)| == |p| ==> Components(p) == [p] && p[0..|Top(p)|] == p
    ensures |Top(p)| < |p| ==> Components(p) == [p[0..|Top(p)|]] + Components(p[|Top(p)| + 1..]) && p[|Top(p)|] == '/'
  {
    hide Top;
    TopEnds(p);
    assert p[0..|Top(p)|] == Top(p);
  }

  /** Splitting at the slashes yields the pieces ... */
  lemma {:induction false} PieceIsComponent(p: string, i: int, j: int)
    requires IsPiece(p, i, j)
    ensures p[i..j] in Components(p)
    decreases |p|
  {
    hide Top, Components;
    TopEnds(p);
    SplitAtSlash(p);
    var n := |Top(p)|;
    LaterPiece(p, n, i, j);
    if i > 0 {
      PieceIsComponent(p[n + 1..], i - n - 1, j - n - 1);
    }
  }

  /** ... and nothing else. */
  lemma {:induction false} ComponentIsPiece(p: string, k: nat) returns (i: int, j: int)
    requires k < |Components(p)|
    ensures IsPiece(p, i, j) && p[i..j] == Components(p)[k]
    decreases |p|
  {
    hide Top, Components;
    TopEnds(p);
    SplitAtSlash(p);
    var n := |Top(p)|;
    if k == 0 {
      i, j := 0, n;
    } else {
      i, j := ComponentIsPiece(p[n + 1..], k - 1);
      EarlierPiece(p, n, i, j);
      assert p[i + n + 1..j + n + 1] == p[n + 1..][i..j];
      i, j := i + n + 1, j + n + 1;
    }
  }

  predicate OnePiece(p: string, c: string) {
    exists i, j | 0 <= i <= j <= |p| :: IsPiece(p, i, j) && p[i..j] == c
  }

  lemma ComponentsArePieces(p: string)
    ensures forall i, j | IsPiece(p, i, j) :: p[i..j] in Components(p)
    ensures forall k | 0 <= k < |Components(p)| :: OnePiece(p, Components(p)[k])
  {
    hide Components;
    forall i, j | IsPiece(p, i, j)
      ensures p[i..j] in Components(p)
    {
      PieceIsComponent(p, i, j);
    }
    forall k | 0 <= k < |Components(p)|
      ensures OnePiece(p, Components(p)[k])
    {
      var i, j := ComponentIsPiece(p, k);
      assert IsPiece(p, i, j) && p[i..j] == Components(p)[k];
    }
  }

  /** A piece is the first one, or a piece of what follows the first slash. */
  lemma LaterPiece(p: string, n: nat, i: int, j: int)
    requires IsPiece(p, 0, n) && IsPiece(p, i, j)
    ensures i == 0 ==> j == n
    ensures i > 0 ==> n < i && IsPiece(p[n + 1..], i - n - 1, j - n - 1) && p[i..j] == p[n + 1..][i - n - 1..j - n - 1]
  {
    if i > 0 {
      assert p[i - 1] == '/';
      assert n <= i - 1;
      var rest := p[n + 1..];
      forall k | i - n - 1 <= k < j - n - 1
        ensures rest[k] != '/'
      {
        assert rest[k] == p[k + n + 1];
      }
      assert i - n - 1 > 0 ==> rest[i - n - 2] == p[i - 1];
      assert j < |p| ==> rest[j - n - 1] == p[j];
    }
  }

  lemma EarlierPiece(p: string, n: nat, i: int, j: int)
    requires n < |p| && p[n] == '/' && IsPiece(p[n + 1..], i, j)
    ensures IsPiece(p, i + n + 1, j + n + 1)
  {
    var rest := p[n + 1..];
    forall k | i + n + 1 <= k < j + n + 1
      ensures p[k] != '/'
    {
      assert rest[k - n - 1] == p[k];
    }
    assert i > 0 ==> rest[i - 1] == p[i + n];
    assert j < |rest| ==> rest[j] == p[j + n + 1];
  }

  lemma {:induction false} CharInPiece(p: string, x: nat) returns (i: nat, j: nat)
    requires x < |p| && p[x] != '/'
    ensures IsPiece(p, i, j) && i <= x < j
  {
    i, j := x, x + 1;
    while i > 0 && p[i - 1] != '/'
      invariant i <= x && forall k | i <= k <= x :: p[k] != '/'
    {
      i := i - 1;
    }
    while j < |p| && p[j] != '/'
      invariant x < j <= |p| && forall k | i <= k < j :: p[k] != '/'
    {
      j := j + 1;
    }
  }

  /** A path is portable exactly when it is not too long and every piece of it, an empty
      one at either end or between two slashes included, is a portable name. So it is
      relative, names no drive and climbs nowhere. */
  lemma PortablePathExactly(p: string)
    ensures PortablePath(p) <==>
              p != "" && |EncodedText(p)| <= 4096 && forall i, j | IsPiece(p, i, j) :: PortableComponent(p[i..j])
    ensures PortablePath(p) ==> p[0] != '/' && '\\' !in p && forall i, j | IsPiece(p, i, j) :: p[i..j] != ".." && p[i..j] != "." && i < j
  {
    hide ByteLen, PortableComponent, Components, EncodedText;
    ByteLenIsEncoded(p);
    ComponentsArePieces(p);
    if PortablePath(p) {
      forall i, j | IsPiece(p, i, j)
        ensures PortableComponent(p[i..j]) && p[i..j] != ".." && p[i..j] != "." && i < j
      {
        var k :| 0 <= k < |Components(p)| && Components(p)[k] == p[i..j];
        NamesClimbNowhere(p[i..j]);
      }
    }
    if p != "" && ByteLen(p) <= 4096 && forall i, j | IsPiece(p, i, j) :: PortableComponent(p[i..j]) {
      NoSlashFirst(p);
      PiecesAreClean(p);
      forall k | 0 <= k < |Components(p)|
        ensures PortableComponent(Components(p)[k])
      {
        assert OnePiece(p, Components(p)[k]);
        var i, j :| 0 <= i <= j <= |p| && IsPiece(p, i, j) && p[i..j] == Components(p)[k];
      }
    }
  }

  lemma NamesClimbNowhere(c: string)
    requires PortableComponent(c)
    ensures c != "" && c != "." && c != ".."
  {
  }

  lemma NoSlashFirst(p: string)
    requires p != "" && forall i, j | IsPiece(p, i, j) :: PortableComponent(p[i..j])
    ensures p[0] != '/'
  {
    if p[0] == '/' {
      assert IsPiece(p, 0, 0);
      NamesClimbNowhere(p[0..0]);
    }
  }

  lemma PiecesAreClean(p: string)
    requires forall i, j | IsPiece(p, i, j) :: PortableComponent(p[i..j])
    ensures '\\' !in p && (|p| >= 2 ==> p[1] != ':')
  {
    hide PortableComponent;
    forall x | 0 <= x < |p|
      ensures p[x] != '\\' && p[x] != ':'
    {
      if p[x] != '/' {
        var i, j := CharInPiece(p, x);
        NoReserved(p[i..j], x - i);
        assert p[i..j][x - i] == p[x];
      }
    }
  }

  lemma NoReserved(c: string, k: nat)
    requires PortableComponent(c) && k < |c|
    ensures c[k] !in {'<', '>', ':', '"', '|', '?', '*', '\\', '/'}
  {
    CharacterRules(c[k]);
    assert ComponentChar(c[k]);
  }

  // Characters and names

  /** Control, reserved, zero-width and direction-changing characters are refused; letters,
      digits and the usual marks are taken. */
  lemma CharacterRules(c: char)
    ensures c < ' ' || c == '\U{007F}' || c in {'<', '>', ':', '"', '|', '?', '*', '\\', '/'} ==> !ComponentChar(c)
    ensures (c == '\U{00AD}' || '\U{200B}' <= c <= '\U{200F}' || '\U{202A}' <= c <= '\U{202E}' || '\U{2060}' <= c <= '\U{2064}'
            || '\U{2066}' <= c <= '\U{206F}' || c == '\U{FEFF}' || '\U{E0020}' <= c <= '\U{E007F}') ==> !ComponentChar(c)
    ensures 'a' <= c <= 'z' || 'A' <= c <= 'Z' || '0' <= c <= '9' || c in {' ', '.', '-', '_', '(', ')', '+', '~', '\''} ==> ComponentChar(c)
    ensures ('\U{00C0}' <= c <= '\U{02AF}' || '\U{0370}' <= c <= '\U{05FF}' || '\U{3041}' <= c <= '\U{9FFF}' || '\U{AC00}' <= c <= '\U{D7A3}'
            || '\U{1F300}' <= c <= '\U{1F9FF}') ==> ComponentChar(c)
  {
    var reserved := ['<', '>', ':', '"', '|', '?', '*', '\\', '/'];
    assert RESERVED_CHARS == reserved;
    assert c in RESERVED_CHARS <==> exists i | 0 <= i < 9 :: reserved[i] == c;
    assert reserved[0] == '<' && reserved[1] == '>' && reserved[2] == ':' && reserved[3] == '"' && reserved[4] == '|';
    assert reserved[5] == '?' && reserved[6] == '*' && reserved[7] == '\\' && reserved[8] == '/';
  }

  /** The device names: four of three letters, and `com` and `lpt` with a digit from 1 on. */
  predicate DeviceName(s: string) {
    s in {"con", "prn", "aux", "nul"} || (|s| == 4 && s[..3] in {"com", "lpt"} && '1' <= s[3] <= '9')
  }

  lemma ReservedIsDevice(s: string)
    requires s in RESERVED_NAMES
    ensures DeviceName(s)
  {
    if |s| == 4 {
      assert (s[0] == 'c' && s[1] == 'o' && s[2] == 'm') || (s[0] == 'l' && s[1] == 'p' && s[2] == 't');
      assert s[..3] == "com" || s[..3] == "lpt";
    }
  }

  lemma WithDigit(d: char)
    requires '1' <= d <= '9'
    ensures ['c', 'o', 'm', d] in RESERVED_NAMES && ['l', 'p', 't', d] in RESERVED_NAMES
  {
    var com, lpt := ['c', 'o', 'm', d], ['l', 'p', 't', d];
    if d <= '5' {
      assert com == "com1" || com == "com2" || com == "com3" || com == "com4" || com == "com5";
      assert lpt == "lpt1" || lpt == "lpt2" || lpt == "lpt3" || lpt == "lpt4" || lpt == "lpt5";
    } else {
      assert com == "com6" || com == "com7" || com == "com8" || com == "com9";
      assert lpt == "lpt6" || lpt == "lpt7" || lpt == "lpt8" || lpt == "lpt9";
    }
  }

  lemma DeviceIsReserved(s: string)
    requires DeviceName(s)
    ensures s in RESERVED_NAMES
  {
    if |s| == 4 {
      assert s == s[..3] + [s[3]];
      var d := s[3];
      assert s == ['c', 'o', 'm', d] || s == ['l', 'p', 't', d];
      WithDigit(d);
    }
  }

  lemma ReservedAreDevices(s: string)
    ensures s in RESERVED_NAMES <==> DeviceName(s)
  {
    hide DeviceName;
    if s in RESERVED_NAMES {
      ReservedIsDevice(s);
    }
    if DeviceName(s) {
      DeviceIsReserved(s);
    }
  }

  /** The name up to its first dot. */
  predicate Base(c: string, b: string) {
    b <= c && '.' !in b && (|b| == |c| || c[|b|] == '.')
  }

  lemma {:induction false} StemIsBase(s: string)
    ensures Base(s, Stem(s))
  {
    if s != "" && s[0] != '.' {
      StemIsBase(s[1..]);
      assert s == [s[0]] + s[1..];
      var t := Stem(s[1..]);
      assert Stem(s) == [s[0]] + t;
      assert |t| < |s[1..]| ==> s[1..][|t|] == s[|t| + 1];
    }
  }

  /** A device name in any case is refused, with an extension or without one. */
  lemma DeviceNamesRefused(c: string, b: string, d: string)
    requires Base(c, b) && DeviceName(d) && Clash(b, d)
    ensures !PortableComponent(c)
  {
    hide ByteLen, IsFormatControl;
    ReservedAreDevices(d);
    LowerBase(c, b);
    LowDevice(d);
    ClashIsSameLower(b, d);
  }

  lemma LowDevice(d: string)
    requires DeviceName(d)
    ensures Lower(d) == d
  {
    if |d| == 4 {
      assert d == d[..3] + [d[3]];
    }
    assert forall i | 0 <= i < |d| :: LowerChar(d[i]) == d[i];
  }

  lemma {:induction false} LowerBase(c: string, b: string)
    requires Base(c, b)
    ensures Stem(Lower(c)) == Lower(b)
  {
    if b == "" {
      assert Lower(c) == "" || Lower(c)[0] == '.';
    } else {
      assert b[0] != '.';
      assert b == [b[0]] + b[1..];
      assert Base(c[1..], b[1..]);
      LowerBase(c[1..], b[1..]);
      assert Lower(c)[1..] == Lower(c[1..]);
      assert Lower(c)[0] == LowerChar(c[0]) && c[0] == b[0];
      assert Lower(b) == [LowerChar(b[0])] + Lower(b[1..]);
      assert LowerChar(b[0]) != '.';
    }
  }

  /** What a portable name is: its length, its characters, its end, and no device. */
  lemma PortableNameExactly(c: string)
    ensures PortableComponent(c) <==>
              && c != "" && c != "." && c != ".." && |EncodedText(c)| <= 255
              && (forall i | 0 <= i < |c| :: ComponentChar(c[i]))
              && c[|c| - 1] != '.' && c[|c| - 1] != ' '
              && forall b, d | Base(c, b) && DeviceName(d) :: !Clash(b, d)
  {
    hide ByteLen, EncodedText, ComponentChar;
    ByteLenIsEncoded(c);
    forall b, d | Base(c, b) && DeviceName(d) && Clash(b, d)
      ensures !PortableComponent(c)
    {
      DeviceNamesRefused(c, b, d);
    }
    if Stem(Lower(c)) in RESERVED_NAMES {
      var d := Stem(Lower(c));
      ReservedAreDevices(d);
      StemIsBase(c);
      LowerBase(c, Stem(c));
      LowDevice(d);
      ClashIsSameLower(Stem(c), d);
      assert Base(c, Stem(c)) && DeviceName(d) && Clash(Stem(c), d);
    }
  }

  // Manifests

  /** A digest in the model's terms, or 64 lowercase hexadecimal digits. */
  predicate HexDigest(d: Digest) {
    d.Blake3? || (|d.text| == 64 && forall i | 0 <= i < 64 ::
      d.text[i] in {'0', '1', '2', '3', '4', '5', '6', '7', '8', '9', 'a', 'b', 'c', 'd', 'e', 'f'})
  }

  lemma HexExactly(d: Digest)
    ensures WellFormedDigest(d) <==> HexDigest(d)
  {
  }

  predicate LawfulHeader(m: Manifest) {
    && m.schemaVersion == 1 && m.createdAt != 0 && m.algorithm in {"", "blake3"}
    && 16 <= |EncodedText(m.transferId)| <= 128 && |EncodedText(m.note)| <= 16384
  }

  predicate LawfulRoots(roots: seq<string>) {
    && roots != []
    && (forall i | 0 <= i < |roots| :: PortableComponent(roots[i]))
    && (forall i, j | 0 <= i < j < |roots| :: !Clash(roots[i], roots[j]))
  }

  predicate LawfulSegments(segments: seq<Segment>) {
    && segments != []
    && (forall k | 0 <= k < |segments| ::
          && segments[k].id != "" && |EncodedText(segments[k].id)| <= 128 && segments[k].kind in {Raw, TarZstd}
          && segments[k].wireSize >= 0 && HexDigest(segments[k].digest))
    && (forall k, l | 0 <= k < l < |segments| :: segments[k].id != segments[l].id)
  }

  /** The path is the root or lies below it, in some case of its letters. */
  predicate Below(p: string, root: string) {
    |root| <= |p| && Clash(p[..|root|], root) && (|root| == |p| || p[|root|] == '/')
  }

  /** Some segment carries the file; a raw one is the file. */
  predicate Carried(segments: seq<Segment>, e: Entry) {
    exists k | 0 <= k < |segments| ::
      && segments[k].id == e.segmentId
      && (segments[k].kind == Raw ==> segments[k].wireSize == e.size && segments[k].digest == e.digest)
  }

  predicate LawfulEntry(m: Manifest, e: Entry) {
    && PortablePath(e.path) && e.mode <= 511 && e.mtime >= 0
    && (exists i | 0 <= i < |m.roots| :: Below(e.path, m.roots[i]))
    && (e.kind == DirectoryEntry || e.kind == FileEntry)
    && (e.kind == DirectoryEntry ==> e.size == 0 && e.digest == Text("") && e.segmentId == "")
    && (e.kind == FileEntry ==> e.size >= 0 && e.segmentOffset >= 0 && HexDigest(e.digest) && Carried(m.segments, e))
  }

  /** Two files out of one segment come out of a pack. */
  predicate SharesPacksOnly(segments: seq<Segment>, a: Entry, b: Entry) {
    a.kind == FileEntry && b.kind == FileEntry && a.segmentId == b.segmentId ==>
      forall k | 0 <= k < |segments| && segments[k].id == a.segmentId :: segments[k].kind != Raw
  }

  /** Two entries neither clash nor share a raw segment. */
  predicate LawfulPair(m: Manifest, a: Entry, b: Entry) {
    !Clash(a.path, b.path) && SharesPacksOnly(m.segments, a, b)
  }

  predicate LawfulEntries(m: Manifest) {
    && m.entries != []
    && (forall i | 0 <= i < |m.entries| :: LawfulEntry(m, m.entries[i]))
    && (forall i, j | 0 <= i < j < |m.entries| :: LawfulPair(m, m.entries[i], m.entries[j]))
    && (forall k | 0 <= k < |m.segments| :: exists i | 0 <= i < |m.entries| :: m.entries[i].segmentId == m.segments[k].id)
  }

  lemma HeaderExactly(m: Manifest)
    ensures ValidHeader(m) <==> LawfulHeader(m)
  {
    hide ByteLen, EncodedText;
    ByteLenIsEncoded(m.transferId);
    ByteLenIsEncoded(m.note);
  }

  lemma RootsExactly(roots: seq<string>)
    ensures ValidRoots(roots) <==> LawfulRoots(roots)
  {
    hide Lower, Clash, PortableComponent;
    forall i | 0 <= i < |roots|
      ensures ValidRoot(roots[i]) <==> PortableComponent(roots[i])
    {
      NameIsRoot(roots[i]);
    }
    forall i, j | 0 <= i < j < |roots|
      ensures Lower(roots[i]) == Lower(roots[j]) <==> Clash(roots[i], roots[j])
    {
      ClashIsSameLower(roots[i], roots[j]);
    }
  }

  lemma NameIsRoot(r: string)
    ensures ValidRoot(r) <==> PortableComponent(r)
  {
  }

  lemma SegmentsExactly(segments: seq<Segment>)
    ensures ValidSegments(segments) <==> LawfulSegments(segments)
  {
    hide ByteLen, EncodedText, WellFormedDigest, HexDigest;
    forall k | 0 <= k < |segments|
      ensures ByteLen(segments[k].id) == |EncodedText(segments[k].id)|
      ensures WellFormedDigest(segments[k].digest) <==> HexDigest(segments[k].digest)
    {
      ByteLenIsEncoded(segments[k].id);
      HexExactly(segments[k].digest);
    }
  }

  lemma BelowExactly(p: string, root: string)
    requires forall i | 0 <= i < |root| :: root[i] != '/'
    ensures Lower(root) == Lower(Top(p)) <==> Below(p, root)
  {
    hide Lower, Clash;
    TopEnds(p);
    ClashIsSameLower(Top(p), root);
    if Below(p, root) {
      ClashHasNoSlash(p[..|root|], root);
      assert |Top(p)| >= |root|;
      assert |Top(p)| <= |root|;
      assert p[..|root|] == Top(p);
    }
    if Lower(root) == Lower(Top(p)) {
      SameLength(Top(p), root);
      assert p[..|root|] == Top(p);
    }
  }

  lemma SameLength(a: string, b: string)
    requires Clash(a, b)
    ensures |a| == |b|
  {
  }

  lemma ClashHasNoSlash(a: string, b: string)
    requires Clash(a, b) && forall i | 0 <= i < |b| :: b[i] != '/'
    ensures |a| == |b| && forall i | 0 <= i < |a| :: a[i] != '/'
  {
    forall i | 0 <= i < |a|
      ensures a[i] != '/'
    {
      assert CaseTwins(a[i], b[i]);
    }
  }

  lemma UnderRootExactly(roots: seq<string>, p: string)
    requires forall i | 0 <= i < |roots| :: PortableComponent(roots[i])
    ensures UnderRoot(roots, p) <==> exists i | 0 <= i < |roots| :: Below(p, roots[i])
  {
    hide Lower, PortableComponent, Below;
    forall i | 0 <= i < |roots|
      ensures Lower(roots[i]) == Lower(Top(p)) <==> Below(p, roots[i])
    {
      ComponentHasNoSlash(roots[i]);
      BelowExactly(p, roots[i]);
    }
  }

  lemma CarriedExactly(segments: seq<Segment>, e: Entry)
    requires forall k, l | 0 <= k < l < |segments| :: segments[k].id != segments[l].id
    ensures Backed(segments, e) <==> Carried(segments, e)
    ensures e.kind.FileEntry? ==>
              (RawBacked(segments, e) <==> exists k | 0 <= k < |segments| :: segments[k].id == e.segmentId && segments[k].kind == Raw)
  {
    hide FindSegment;
    forall k | 0 <= k < |segments| && segments[k].id == e.segmentId
      ensures FindSegment(segments, e.segmentId) == Some(segments[k])
    {
      FindsItself(segments, k);
    }
    if FindSegment(segments, e.segmentId).Some? {
      var k :| 0 <= k < |segments| && segments[k] == FindSegment(segments, e.segmentId).value;
    }
  }

  lemma EntryExactly(m: Manifest, e: Entry)
    requires LawfulRoots(m.roots) && LawfulSegments(m.segments)
    ensures ValidEntry(m.roots, m.segments, e) <==> LawfulEntry(m, e)
  {
    hide PortablePath, PortableComponent, UnderRoot, Backed, Carried, Below, WellFormedDigest, HexDigest, EncodedText, Clash;
    HexExactly(e.digest);
    UnderRootExactly(m.roots, e.path);
    CarriedExactly(m.segments, e);
  }

  lemma PairExactly(segments: seq<Segment>, a: Entry, b: Entry)
    requires LawfulSegments(segments)
    ensures Apart(segments, a, b) <==> !Clash(a.path, b.path) && SharesPacksOnly(segments, a, b)
  {
    hide Lower, Clash, RawBacked, EncodedText, HexDigest;
    ClashIsSameLower(a.path, b.path);
    if a.kind.FileEntry? && b.kind.FileEntry? {
      CarriedExactly(segments, a);
      CarriedExactly(segments, b);
    } else {
      RawIsFile(segments, a);
      RawIsFile(segments, b);
    }
  }

  lemma RawIsFile(segments: seq<Segment>, e: Entry)
    ensures RawBacked(segments, e) ==> e.kind.FileEntry?
  {
  }

  lemma EntriesExactly(m: Manifest)
    requires LawfulRoots(m.roots) && LawfulSegments(m.segments)
    ensures ValidEntries(m.roots, m.segments, m.entries) && AllReferenced(m.segments, m.entries) <==> LawfulEntries(m)
  {
    hide LawfulRoots, LawfulSegments, ValidEntry, LawfulEntry, Apart, LawfulPair;
    forall e: Entry
      ensures ValidEntry(m.roots, m.segments, e) <==> LawfulEntry(m, e)
    {
      EntryExactly(m, e);
    }
    forall a: Entry, b: Entry
      ensures Apart(m.segments, a, b) <==> LawfulPair(m, a, b)
    {
      PairExactly(m.segments, a, b);
      assert LawfulPair(m, a, b) <==> !Clash(a.path, b.path) && SharesPacksOnly(m.segments, a, b) by { PairSpelled(m, a, b); }
    }
    if ValidEntries(m.roots, m.segments, m.entries) {
      forall i, j | 0 <= i < j < |m.entries|
        ensures LawfulPair(m, m.entries[i], m.entries[j])
      {
        assert ApartFromEarlier(m.segments, m.entries, j);
        assert Apart(m.segments, m.entries[i], m.entries[j]);
      }
    }
    if AllReferenced(m.segments, m.entries) {
      assert forall k | 0 <= k < |m.segments| :: Referenced(m.entries, m.segments[k].id);
      assert forall k | 0 <= k < |m.segments| :: exists i | 0 <= i < |m.entries| :: m.entries[i].segmentId == m.segments[k].id;
    }
    if LawfulEntries(m) {
      assert ValidPrefix(m.roots, m.segments, m.entries, |m.entries|);
    }
  }

  lemma PairSpelled(m: Manifest, a: Entry, b: Entry)
    ensures LawfulPair(m, a, b) <==> !Clash(a.path, b.path) && SharesPacksOnly(m.segments, a, b)
  {
  }

  /** The manifests the check accepts, with every limit in numbers and every lookup, key
      and normalized path spelled out. */
  lemma ValidIsLawful(m: Manifest)
    ensures Valid(m) <==> LawfulHeader(m) && LawfulRoots(m.roots) && LawfulSegments(m.segments) && LawfulEntries(m)
  {
    hide ValidHeader, LawfulHeader, ValidRoots, LawfulRoots, ValidSegments, LawfulSegments, ValidEntries, AllReferenced, LawfulEntries;
    HeaderExactly(m);
    RootsExactly(m.roots);
    SegmentsExactly(m.segments);
    if LawfulRoots(m.roots) && LawfulSegments(m.segments) {
      EntriesExactly(m);
    }
  }
}
