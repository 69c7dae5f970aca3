/** The parts of materialization that write names: making the folders and extracting
    an archive, accepting only what the manifest declares. */
module Extracting {
  import opened Outcomes
  import opened Protocol
  import opened Validation
  import opened Storage
  import opened Trees
  import opened Sorting
  import opened Payloads

  datatype Result<T> = Ok(value: T) | Err(error: ErrorCode)

  method IndexEntries(entries: seq<Entry>) returns (index: map<string, seq<Entry>>)
    ensures forall id :: EntriesOf(entries, id) == if id in index then index[id] else []
  {
    index := map[];
    for i := 0 to |entries|
      invariant forall id :: EntriesOf(entries[..i], id) == if id in index then index[id] else []
    {
      assert entries[..i + 1][..i] == entries[..i];
      var e := entries[i];
      if e.kind.FileEntry? {
        index := index[e.segmentId := (if e.segmentId in index then index[e.segmentId] else []) + [e]];
      }
    }
    assert entries[..|entries|] == entries;
  }

  // Folders first

  /** Folders are there for the first `n` entries; nothing else happened. */
  predicate FoldersMade(entries: seq<Entry>, n: nat, t0: Tree, t: Tree)
    requires n <= |entries|
  {
    && (forall i | 0 <= i < n :: IsFolder(t, FolderOf(entries[i])))
    && Keeps(t0, t) && NewAreFolders(t0, t)
    && (forall q | q in t && q !in t0 :: OnTheWay(entries, q))
    && (Proper(t0) ==> Proper(t))
  }

  predicate OnTheWay(entries: seq<Entry>, q: string) {
    q != "" && exists i | 0 <= i < |entries| :: Within(FolderOf(entries[i]), q)
  }

  lemma MakeOneFolder(entries: seq<Entry>, n: nat, t0: Tree, t: Tree, now: int)
    requires n < |entries| && FoldersMade(entries, n, t0, t)
    ensures var r := MkdirAll(t, FolderOf(entries[n]), now);
            && (r.Some? ==> FoldersMade(entries, n + 1, t0, r.value))
            && (t0 == map[] ==> r.Some?)
  {
    hide MkdirAll, Proper, Within, FolderOf;
    var p := FolderOf(entries[n]);
    MkdirAllKeeps(t, p, now);
    var r := MkdirAll(t, p, now);
    if r.Some? {
      KeepsTransitive(t0, t, r.value);
      if Proper(t) {
        MkdirAllProper(t, p, now);
      }
      MkdirAllAdds(t, p, now);
      assert forall q | q in r.value && q !in t :: OnTheWay(entries, q);
    }
  }

  method MakeFolders(t0: Tree, entries: seq<Entry>, now: int) returns (r: Result<Tree>)
    ensures r.Ok? ==> FoldersMade(entries, |entries|, t0, r.value)
    ensures t0 == map[] ==> r.Ok?
  {
    hide FoldersMade, MkdirAll;
    var t := t0;
    FoldersStart(entries, t0);
    for n := 0 to |entries|
      invariant FoldersMade(entries, n, t0, t)
    {
      MakeOneFolder(entries, n, t0, t, now);
      var made := MkdirAll(t, FolderOf(entries[n]), now);
      if made.None? {
        return Err(InternalError);
      }
      t := made.value;
    }
    r := Ok(t);
  }

  lemma FoldersStart(entries: seq<Entry>, t: Tree)
    ensures FoldersMade(entries, 0, t, t)
  {
  }

  // Then the packs

  function PathsOf(es: seq<Entry>): set<string> {
    set i | 0 <= i < |es| :: es[i].path
  }

  function NamesOf(ms: seq<Member>, n: nat): set<string>
    requires n <= |ms|
  {
    set k | 0 <= k < n :: ms[k].name
  }

  /** The files can be created. */
  predicate Clear(t: Tree, declared: seq<Entry>) {
    forall i | 0 <= i < |declared| ::
      declared[i].path != "" && declared[i].path !in t && IsFolder(t, Parent(declared[i].path))
  }

  predicate Portable(declared: seq<Entry>) {
    forall i | 0 <= i < |declared| :: PortablePath(declared[i].path)
  }

  method Allow(declared: seq<Entry>) returns (allowed: map<string, Entry>)
    requires DistinctPaths(declared)
    ensures allowed.Keys == PathsOf(declared)
    ensures forall i | 0 <= i < |declared| :: allowed[declared[i].path] == declared[i]
  {
    allowed := map[];
    for n := 0 to |declared|
      invariant allowed.Keys == set i | 0 <= i < n :: declared[i].path
      invariant forall i | 0 <= i < n :: allowed[declared[i].path] == declared[i]
    {
      allowed := allowed[declared[n].path := declared[n]];
    }
  }

  predicate Acceptable(declared: seq<Entry>, seen: set<string>, mem: Member) {
    mem.regular && Declares(declared, mem) && mem.name !in seen
  }

  /** The first `n` members are declared, and distinct. */
  predicate ListedSoFar(ms: seq<Member>, n: nat, declared: seq<Entry>)
    requires n <= |ms|
  {
    && (forall k | 0 <= k < n :: ms[k].regular && Declares(declared, ms[k]))
    && (forall i, j | 0 <= i < j < n :: ms[i].name != ms[j].name)
  }

  predicate FilesOut(ms: seq<Member>, n: nat, t: Tree)
    requires n <= |ms|
  {
    forall k | 0 <= k < n :: HasFile(t, ms[k].name, ms[k].data)
  }

  /** The first `n` members are out, and nothing else happened. */
  predicate Unpacking(ms: seq<Member>, n: nat, declared: seq<Entry>, t0: Tree, t: Tree, seen: set<string>)
    requires n <= |ms|
  {
    && seen == NamesOf(ms, n)
    && ListedSoFar(ms, n, declared)
    && FilesOut(ms, n, t)
    && OnlyAt(t0, t, seen)
    && (Proper(t0) ==> Proper(t))
  }

  lemma FilesStay(ms: seq<Member>, n: nat, t: Tree, t': Tree, p: string)
    requires n <= |ms| && FilesOut(ms, n, t) && OnlyAt(t, t', {p}) && p !in NamesOf(ms, n)
    ensures FilesOut(ms, n, t')
  {
    forall k | 0 <= k < n
      ensures HasFile(t', ms[k].name, ms[k].data)
    {
      assert ms[k].name in NamesOf(ms, n);
    }
  }

  lemma CanCreate(t0: Tree, t: Tree, declared: seq<Entry>, seen: set<string>, mem: Member)
    requires Clear(t0, declared) && Acceptable(declared, seen, mem) && OnlyAt(t0, t, seen)
    ensures mem.name != "" && mem.name !in t && IsFolder(t, Parent(mem.name))
  {
  }

  lemma UnpackOne(ms: seq<Member>, n: nat, declared: seq<Entry>, t0: Tree, t: Tree, seen: set<string>, now: int)
    requires n < |ms| && Unpacking(ms, n, declared, t0, t, seen)
    requires Acceptable(declared, seen, ms[n])
    ensures var r := PutFile(t, ms[n].name, ms[n].data, now);
            && (r.Some? ==> Unpacking(ms, n + 1, declared, t0, r.value, seen + {ms[n].name}))
            && (Clear(t0, declared) ==> ms[n].name !in t && r.Some?)
  {
    hide Proper, Clear, PutFile, OnlyAt, FilesOut, HasFile, IsFolder;
    var p := ms[n].name;
    PutFilePuts(t, p, ms[n].data, now);
    var r := PutFile(t, p, ms[n].data, now);
    if Clear(t0, declared) {
      CanCreate(t0, t, declared, seen, ms[n]);
    }
    if r.Some? {
      OnlyAtTransitive(t0, t, r.value, seen, {p});
      assert NamesOf(ms, n + 1) == seen + {p};
      FilesStay(ms, n, t, r.value, p);
      OneMoreOut(ms, n, r.value);
    }
  }

  lemma OneMoreOut(ms: seq<Member>, n: nat, t: Tree)
    requires n < |ms| && FilesOut(ms, n, t) && HasFile(t, ms[n].name, ms[n].data)
    ensures FilesOut(ms, n + 1, t)
  {
  }

  lemma RejectOne(ms: seq<Member>, n: nat, declared: seq<Entry>, t0: Tree, t: Tree, seen: set<string>)
    requires n < |ms| && Unpacking(ms, n, declared, t0, t, seen)
    requires !Acceptable(declared, seen, ms[n])
    ensures !Listed(ms, declared)
  {
  }

  lemma SubsetSize(a: set<string>, b: set<string>)
    requires a <= b
    ensures |a| <= |b|
    ensures |a| == |b| ==> a == b
  {
    assert b == a + (b - a);
    assert |b| == |a| + |b - a|;
  }

  lemma UnpackedAll(ms: seq<Member>, declared: seq<Entry>, t0: Tree, t: Tree, seen: set<string>)
    requires Unpacking(ms, |ms|, declared, t0, t, seen)
    ensures seen <= PathsOf(declared) && OnlyAt(t0, t, PathsOf(declared))
    ensures |seen| == |PathsOf(declared)| <==> Listed(ms, declared)
  {
    UnpackedWithin(ms, |ms|, declared, t0, t, seen);
    SubsetSize(seen, PathsOf(declared));
    if seen == PathsOf(declared) {
      forall i | 0 <= i < |declared|
        ensures Contains(ms, declared[i].path)
      {
        assert declared[i].path in NamesOf(ms, |ms|);
      }
    }
    assert Listed(ms, declared) ==> PathsOf(declared) <= seen by {
      assert forall p | p in PathsOf(declared) && Contains(ms, p) :: p in seen;
    }
  }

  lemma UnpackedWithin(ms: seq<Member>, n: nat, declared: seq<Entry>, t0: Tree, t: Tree, seen: set<string>)
    requires n <= |ms| && Unpacking(ms, n, declared, t0, t, seen)
    ensures seen <= PathsOf(declared) && OnlyAt(t0, t, PathsOf(declared))
  {
    forall p | p in seen
      ensures p in PathsOf(declared)
    {
      var k :| 0 <= k < n && ms[k].name == p;
      assert Declares(declared, ms[k]);
    }
  }

  predicate Emptied(codec: Codec, bytes: Bytes, declared: seq<Entry>, t: Tree) {
    var ms := codec.decode(bytes);
    && ms.Some?
    && Listed(ms.value, declared)
    && forall k | 0 <= k < |ms.value| :: HasFile(t, ms.value[k].name, ms.value[k].data)
  }

  predicate Readable(codec: Codec, bytes: Bytes, declared: seq<Entry>) {
    var ms := codec.decode(bytes);
    ms.Some? && Listed(ms.value, declared)
  }

  /** Extracts one member, or says why not. */
  method ExtractMember(ms: seq<Member>, n: nat, allowed: map<string, Entry>, ghost declared: seq<Entry>, ghost t0: Tree, t: Tree,
                       seen: set<string>, now: int)
    returns (t': Tree, problem: Option<ErrorCode>)
    requires n < |ms| && Unpacking(ms, n, declared, t0, t, seen)
    requires DistinctPaths(declared) && Portable(declared)
    requires allowed.Keys == PathsOf(declared)
    requires forall i | 0 <= i < |declared| :: allowed[declared[i].path] == declared[i]
    ensures problem.None? ==> Unpacking(ms, n + 1, declared, t0, t', seen + {ms[n].name})
    ensures problem.Some? ==> t' == t && (Clear(t0, declared) ==> !Listed(ms, declared))
  {
    hide Listed, Clear, PutFile, PathsOf, PortablePath, Unpacking, OnlyAt, Proper;
    t' := t;
    var mem := ms[n];
    problem := CheckMember(allowed, declared, seen, mem);
    if problem.Some? {
      RejectOne(ms, n, declared, t0, t, seen);
      return;
    }
    UnpackOne(ms, n, declared, t0, t, seen, now);
    var put := if mem.name in t then None else PutFile(t, mem.name, mem.data, now);
    if put.None? {
      return t, Some(InternalError);
    }
    t' := put.value;
  }

  lemma UnpackingStart(ms: seq<Member>, declared: seq<Entry>, t: Tree)
    ensures Unpacking(ms, 0, declared, t, t, {})
  {
  }

  /** Extracts one archive, accepting only what the manifest declares for it. */
  method ExtractPack(codec: Codec, bytes: Bytes, t0: Tree, declared: seq<Entry>, now: int)
    returns (t: Tree, failure: Option<ErrorCode>)
    requires DistinctPaths(declared) && Portable(declared)
    ensures OnlyAt(t0, t, PathsOf(declared)) && (Proper(t0) ==> Proper(t))
    ensures failure.None? ==> Emptied(codec, bytes, declared, t)
    ensures Clear(t0, declared) ==> (failure.None? <==> Readable(codec, bytes, declared))
  {
    hide Listed, Clear, PathsOf, Portable, Unpacking, OnlyAt, Proper, DistinctPaths, HasFile;
    var allowed := Allow(declared);
    t := t0;
    var seen: set<string> := {};
    var stream := codec.decode(bytes);
    NothingWritten(t0, PathsOf(declared));
    if stream.None? {
      return t, Some(HashMismatch);
    }
    var ms := stream.value;
    UnpackingStart(ms, declared, t0);
    for n := 0 to |ms|
      invariant Unpacking(ms, n, declared, t0, t, seen)
    {
      UnpackedWithin(ms, n, declared, t0, t, seen);
      UnpackingProper(ms, n, declared, t0, t, seen);
      t, failure := ExtractMember(ms, n, allowed, declared, t0, t, seen, now);
      if failure.Some? {
        return;
      }
      seen := seen + {ms[n].name};
    }
    UnpackedAll(ms, declared, t0, t, seen);
    UnpackedFiles(ms, declared, t0, t, seen);
    failure := if |seen| != |allowed| then Some(HashMismatch) else None;
  }

  lemma NothingWritten(t: Tree, w: set<string>)
    ensures OnlyAt(t, t, w)
  {
  }

  lemma UnpackedFiles(ms: seq<Member>, declared: seq<Entry>, t0: Tree, t: Tree, seen: set<string>)
    requires Unpacking(ms, |ms|, declared, t0, t, seen)
    ensures forall k | 0 <= k < |ms| :: HasFile(t, ms[k].name, ms[k].data)
    ensures Proper(t0) ==> Proper(t)
  {
  }

  lemma UnpackingProper(ms: seq<Member>, n: nat, declared: seq<Entry>, t0: Tree, t: Tree, seen: set<string>)
    requires n <= |ms| && Unpacking(ms, n, declared, t0, t, seen)
    ensures Proper(t0) ==> Proper(t)
  {
  }

  /** The checks on one archive header, in order. */
  method CheckMember(allowed: map<string, Entry>, ghost declared: seq<Entry>, seen: set<string>, mem: Member)
    returns (problem: Option<ErrorCode>)
    requires DistinctPaths(declared) && Portable(declared)
    requires allowed.Keys == PathsOf(declared)
    requires forall i | 0 <= i < |declared| :: allowed[declared[i].path] == declared[i]
    ensures problem.None? <==> Acceptable(declared, seen, mem)
    ensures problem.Some? ==>
              problem.value == if !mem.regular then UnsupportedEntry
                               else if mem.name !in PathsOf(declared) then InvalidPath
                               else if mem.name in seen then DuplicatePath
                               else HashMismatch
  {
    hide PortablePath;
    if !mem.regular {
      return Some(UnsupportedEntry);
    }
    if !PortablePath(mem.name) {
      return Some(InvalidPath);
    }
    if mem.name !in allowed {
      return Some(InvalidPath);
    }
    if mem.name in seen {
      return Some(DuplicatePath);
    }
    if |mem.data| != allowed[mem.name].size {
      return Some(HashMismatch);
    }
    problem := None;
  }
}
