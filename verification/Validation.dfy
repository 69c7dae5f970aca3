/** The manifest check as the server and the client run it, one pass per list,
    proved to accept exactly the valid manifests. */
module Validation {
  import opened Outcomes
  import opened Protocol

  /** The rules of one entry taken on its own, in the order they are tested. */
  function EntryFault(segments: seq<Segment>, rootKeys: set<string>, e: Entry): (err: Option<ErrorCode>)
    ensures err.None? <==>
              && PortablePath(e.path) && Lower(Top(e.path)) in rootKeys && e.mode <= MAX_MODE && e.mtime >= 0
              && ValidFields(segments, e)
  {
    if !PortablePath(e.path) then Some(InvalidPath)
    else if Lower(Top(e.path)) !in rootKeys then Some(InvalidPath)
    else if e.mode > MAX_MODE || e.mtime < 0 then Some(InvalidRequest)
    else match e.kind
      case DirectoryEntry =>
        if e.size != 0 || e.digest != Text("") || e.segmentId != "" then Some(InvalidRequest) else None
      case FileEntry =>
        if e.size < 0 || !WellFormedDigest(e.digest) || !Backed(segments, e) || e.segmentOffset < 0
        then Some(InvalidRequest) else None
      case OtherType(_) => Some(UnsupportedEntry)
  }

  method CheckRoots(roots: seq<string>) returns (err: Option<ErrorCode>, keys: set<string>)
    ensures err.None? <==> ValidRoots(roots)
    ensures err.None? ==> keys == set i | 0 <= i < |roots| :: Lower(roots[i])
  {
    hide ValidRoot, Lower;
    keys := {};
    if roots == [] {
      return Some(NoFiles), keys;
    }
    for n := 0 to |roots|
      invariant forall i | 0 <= i < n :: ValidRoot(roots[i])
      invariant forall i, j | 0 <= i < j < n :: Lower(roots[i]) != Lower(roots[j])
      invariant keys == set i | 0 <= i < n :: Lower(roots[i])
    {
      if !ValidRoot(roots[n]) {
        return Some(InvalidPath), keys;
      }
      if Lower(roots[n]) in keys {
        return Some(DuplicatePath), keys;
      }
      keys := keys + {Lower(roots[n])};
    }
    err := None;
  }

  method CheckSegments(segments: seq<Segment>) returns (err: Option<ErrorCode>)
    ensures err.None? <==> ValidSegments(segments)
  {
    if segments == [] {
      return Some(InvalidRequest);
    }
    var ids: set<string> := {};
    for n := 0 to |segments|
      invariant forall i | 0 <= i < n :: ValidSegment(segments[i])
      invariant forall i, j | 0 <= i < j < n :: segments[i].id != segments[j].id
      invariant forall k :: k in ids <==> exists i | 0 <= i < n :: segments[i].id == k
    {
      if segments[n].id in ids || !ValidSegment(segments[n]) {
        return Some(InvalidRequest);
      }
      ids := ids + {segments[n].id};
    }
    err := None;
  }

  method CheckEntry(roots: seq<string>, rootKeys: set<string>, segments: seq<Segment>, e: Entry)
    returns (err: Option<ErrorCode>)
    requires rootKeys == set i | 0 <= i < |roots| :: Lower(roots[i])
    ensures err.None? <==> ValidEntry(roots, segments, e)
  {
    hide PortablePath, ValidFields, Lower;
    err := EntryFault(segments, rootKeys, e);
  }

  /** The normalized paths of the first `n` entries. */
  function PathKeys(entries: seq<Entry>, n: nat): set<string>
    requires n <= |entries|
  {
    set i | 0 <= i < n :: Lower(entries[i].path)
  }

  /** The raw segments used by the first `n` entries. */
  function RawKeys(segments: seq<Segment>, entries: seq<Entry>, n: nat): set<string>
    requires n <= |entries|
  {
    set i | 0 <= i < n && RawBacked(segments, entries[i]) :: entries[i].segmentId
  }

  lemma PrefixStart(roots: seq<string>, segments: seq<Segment>, entries: seq<Entry>)
    ensures ValidPrefix(roots, segments, entries, 0)
    ensures PathKeys(entries, 0) == {} && RawKeys(segments, entries, 0) == {}
  {
  }

  /** One more entry extends a valid prefix exactly when it is valid itself and
      apart from those before it; otherwise no longer prefix is valid either. */
  lemma PrefixStep(roots: seq<string>, segments: seq<Segment>, entries: seq<Entry>, n: nat)
    requires n < |entries| && ValidPrefix(roots, segments, entries, n)
    ensures ValidPrefix(roots, segments, entries, n + 1) <==>
              ValidEntry(roots, segments, entries[n]) && ApartFromEarlier(segments, entries, n)
    ensures ValidPrefix(roots, segments, entries, |entries|) ==> ValidPrefix(roots, segments, entries, n + 1)
  {
    hide ValidEntry, ApartFromEarlier;
  }

  /** What the two key sets say about the next entry. */
  lemma KeysGrow(segments: seq<Segment>, entries: seq<Entry>, n: nat)
    requires n < |entries|
    ensures ApartFromEarlier(segments, entries, n) <==>
              && Lower(entries[n].path) !in PathKeys(entries, n)
              && !(RawBacked(segments, entries[n]) && entries[n].segmentId in RawKeys(segments, entries, n))
    ensures PathKeys(entries, n + 1) == PathKeys(entries, n) + {Lower(entries[n].path)}
    ensures RawKeys(segments, entries, n + 1) ==
              RawKeys(segments, entries, n) + (if RawBacked(segments, entries[n]) then {entries[n].segmentId} else {})
  {
    hide Lower, RawBacked;
  }

  method CheckEntries(roots: seq<string>, rootKeys: set<string>, segments: seq<Segment>, entries: seq<Entry>)
    returns (err: Option<ErrorCode>)
    requires rootKeys == set i | 0 <= i < |roots| :: Lower(roots[i])
    ensures err.None? <==> ValidEntries(roots, segments, entries)
  {
    if entries == [] {
      return Some(NoFiles);
    }
    hide ValidEntry, ValidPrefix, ApartFromEarlier, PathKeys, RawKeys, Lower, RawBacked;
    var paths: set<string> := {};
    var rawUsed: set<string> := {};
    PrefixStart(roots, segments, entries);
    for n := 0 to |entries|
      invariant ValidPrefix(roots, segments, entries, n)
      invariant paths == PathKeys(entries, n)
      invariant rawUsed == RawKeys(segments, entries, n)
    {
      PrefixStep(roots, segments, entries, n);
      err := CheckEntry(roots, rootKeys, segments, entries[n]);
      if err.Some? {
        return;
      }
      KeysGrow(segments, entries, n);
      if Lower(entries[n].path) in paths {
        return Some(DuplicatePath);
      }
      if RawBacked(segments, entries[n]) && entries[n].segmentId in rawUsed {
        return Some(InvalidRequest);
      }
      paths := paths + {Lower(entries[n].path)};
      if RawBacked(segments, entries[n]) {
        rawUsed := rawUsed + {entries[n].segmentId};
      }
    }
    err := None;
  }

  /** Every declared segment must back some entry. */
  method CheckReferences(segments: seq<Segment>, entries: seq<Entry>) returns (err: Option<ErrorCode>)
    ensures err.None? <==> AllReferenced(segments, entries)
  {
    var referenced: set<string> := {};
    for n := 0 to |entries|
      invariant forall k :: k in referenced <==> exists i | 0 <= i < n :: entries[i].segmentId == k
    {
      referenced := referenced + {entries[n].segmentId};
    }
    for n := 0 to |segments|
      invariant forall k | 0 <= k < n :: Referenced(entries, segments[k].id)
    {
      if segments[n].id !in referenced {
        return Some(InvalidRequest);
      }
    }
    err := None;
  }

  /** No two roots and no two entries differ in case only. */
  predicate NamesSeparate(m: Manifest) {
    && (forall i, j | 0 <= i < j < |m.roots| :: !Clash(m.roots[i], m.roots[j]))
    && (forall i, j | 0 <= i < j < |m.entries| :: !Clash(m.entries[i].path, m.entries[j].path))
  }

  lemma ValidNamesSeparate(m: Manifest)
    requires Valid(m)
    ensures NamesSeparate(m)
  {
    hide ValidHeader, ValidSegments, AllReferenced, ValidEntry, ValidRoot, RawBacked, Lower, Clash;
    forall i, j | 0 <= i < j < |m.roots|
      ensures !Clash(m.roots[i], m.roots[j])
    {
      ClashIsSameLower(m.roots[i], m.roots[j]);
    }
    forall i, j | 0 <= i < j < |m.entries|
      ensures !Clash(m.entries[i].path, m.entries[j].path)
    {
      ClashIsSameLower(m.entries[i].path, m.entries[j].path);
      assert ApartFromEarlier(m.segments, m.entries, j);
      assert Apart(m.segments, m.entries[i], m.entries[j]);
    }
  }

  method Validate(m: Manifest) returns (err: Option<ErrorCode>)
    ensures err.None? <==> Valid(m)
    ensures err.None? ==> NamesSeparate(m)
  {
    if !ValidHeader(m) {
      return Some(InvalidRequest);
    }
    var keys: set<string>;
    err, keys := CheckRoots(m.roots);
    if err.Some? {
      return;
    }
    err := CheckSegments(m.segments);
    if err.Some? {
      return;
    }
    err := CheckEntries(m.roots, keys, m.segments, m.entries);
    if err.Some? {
      return;
    }
    err := CheckReferences(m.segments, m.entries);
    if err.None? {
      ValidNamesSeparate(m);
    }
  }

  // Consequences

  /** Looking a segment up by its identifier finds the segment itself. */
  lemma {:induction false} FindsItself(segments: seq<Segment>, k: nat)
    requires k < |segments|
    requires forall i, j | 0 <= i < j < |segments| :: segments[i].id != segments[j].id
    ensures FindSegment(segments, segments[k].id) == Some(segments[k])
  {
    if k == 0 {
    } else {
      assert segments[0].id != segments[k].id;
      FindsItself(segments[1..], k - 1);
    }
  }

  /** In a valid manifest every raw segment backs exactly one entry, a file of the
      segment's own size and digest: the branch that rejects any other number of
      entries during materialization cannot be reached. */
  lemma RawSegmentBacksOneFile(m: Manifest, k: nat) returns (i: nat)
    requires Valid(m) && k < |m.segments| && m.segments[k].kind.Raw?
    ensures i < |m.entries| && m.entries[i].kind.FileEntry? && m.entries[i].segmentId == m.segments[k].id
    ensures m.entries[i].size == m.segments[k].wireSize && m.entries[i].digest == m.segments[k].digest
    ensures forall j | 0 <= j < |m.entries| && m.entries[j].segmentId == m.segments[k].id :: j == i
  {
    FindsItself(m.segments, k);
    assert Referenced(m.entries, m.segments[k].id);
    i :| 0 <= i < |m.entries| && m.entries[i].segmentId == m.segments[k].id;
    assert ValidEntry(m.roots, m.segments, m.entries[i]);
    assert RawBacked(m.segments, m.entries[i]);
    forall j | 0 <= j < |m.entries| && m.entries[j].segmentId == m.segments[k].id
      ensures j == i
    {
      assert ValidEntry(m.roots, m.segments, m.entries[j]);
      assert RawBacked(m.segments, m.entries[j]);
      assert j < i ==> ApartFromEarlier(m.segments, m.entries, i);
      assert i < j ==> ApartFromEarlier(m.segments, m.entries, j);
    }
  }
}
