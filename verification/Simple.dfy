/** The one-request upload: files are streamed straight into the staged payload, so
    nothing is left to materialize. It is the second way into the publish step. */
module SimpleUploads {
  import opened Outcomes
  import opened Protocol
  import opened Validation
  import opened Storage
  import opened Lifecycle
  import opened Safety
  import opened MetadataStore
  import opened FileLayout
  import opened Caching
  import opened Serving
  import opened Committing
  import P = Payloads

  const FILE_MODE := 420

  /** An uploaded part: its sanitized name, its bytes as they arrive, and whether the
      stream broke off. */
  datatype Part = Part(name: string, chunks: seq<Bytes>, broken: bool)

  function Joined(chunks: seq<Bytes>): Bytes {
    if chunks == [] then [] else Joined(chunks[..|chunks| - 1]) + chunks[|chunks| - 1]
  }

  // Steps

  method StepCreate(svc: Service, id: string, ttl: int)
    requires svc.Valid() && svc.ready && EnabledSend(svc.Current(), id, PrepareStaging)
    modifies svc, svc.store, svc.layout, svc.manifests
    ensures svc.Valid() && old(svc.history) <= svc.history && svc.ready
    ensures svc.Current() == Enter(OnRows(OnStaging(old(svc.Current()), id, EMPTY_DIR),
                                          old(svc.store.rows)[id := NewRow(Unix(svc.now), ttl)]), id, Working)
  {
    hide IsRun, Coherent;
    ghost var before := svc.Current();
    svc.layout.PrepareStaging(id);
    svc.phases := svc.phases[id := Creating];
    svc.Record(before, Send(id, PrepareStaging));
    ghost var prepared := svc.Current();
    assert svc.phases[id := Working] == old(svc.phases)[id := Working];
    svc.store.CreateTransfer(id, NewRow(Unix(svc.now), ttl));
    svc.phases := svc.phases[id := Working];
    svc.Record(prepared, Send(id, InsertRow(Unix(svc.now), ttl, "", 0)));
  }

  function NewRow(at: int, ttl: int): Row {
    Row(None, Created, at, None, None, ttl, "", None, 0, 0, 0, None, map[])
  }

  /** Replaces the staged directory. */
  method StepWrite(svc: Service, id: string, dir: Dir)
    requires svc.Valid() && svc.ready && PhaseOf(svc.Current(), id).Working? && RowIn(svc.Current(), id, Created)
    modifies svc, svc.store, svc.layout, svc.manifests
    ensures svc.Valid() && old(svc.history) <= svc.history
    ensures svc.Current() == OnStaging(old(svc.Current()), id, dir)
  {
    hide IsRun, Coherent;
    ghost var before := svc.Current();
    svc.layout.PutStaging(id, dir);
    assert svc.store.rows[id := svc.store.rows[id].(segments := svc.store.rows[id].segments)] == svc.store.rows;
    svc.Record(before, Send(id, Write(dir, svc.store.rows[id].segments)));
  }

  method StepRemoveStaged(svc: Service, id: string)
    requires svc.Valid() && svc.ready && PhaseOf(svc.Current(), id).Working?
    modifies svc, svc.store, svc.layout, svc.manifests
    ensures svc.Valid() && old(svc.history) <= svc.history && svc.ready && PhaseOf(svc.Current(), id).Aborting?
    ensures svc.DiskNow() == old(svc.DiskNow()).(staging := old(svc.layout.staging) - {id})
  {
    hide IsRun, Coherent;
    ghost var before := svc.Current();
    svc.layout.RemoveStaging(id);
    svc.phases := svc.phases[id := Aborting];
    svc.Record(before, Send(id, AbortStaging));
  }

  method StepDiscard(svc: Service, id: string)
    requires svc.Valid() && svc.ready && PhaseOf(svc.Current(), id).Working?
    modifies svc, svc.store, svc.layout, svc.manifests
    ensures svc.Valid() && old(svc.history) <= svc.history
    ensures svc.DiskNow() == Purge(old(svc.DiskNow()).(staging := old(svc.layout.staging) - {id}), id)
  {
    hide IsRun, Coherent;
    StepRemoveStaged(svc, id);
    ghost var removed := svc.Current();
    svc.store.PurgeTransfer(id);
    svc.phases := svc.phases[id := Idle];
    svc.Record(removed, Send(id, AbortRow));
  }

  // What a session has staged

  function EntryOf(name: string, data: Bytes, mtime: int, segId: string): Entry {
    Entry(name, FileEntry, |data|, mtime, FILE_MODE, Blake3(data), segId, 0)
  }

  function SegmentOf(name: string, data: Bytes, segId: string): Segment {
    Segment(segId, Raw, |data|, Blake3(data), PAYLOAD_PREFIX + name)
  }

  /** Every entry is in the payload and every segment is served from it. */
  predicate Staged(dir: Dir, entries: seq<Entry>, segments: seq<Segment>) {
    && (forall i | 0 <= i < |entries| :: Holds(dir.payload, entries[i]))
    && (forall i | 0 <= i < |segments| :: Serves(dir, segments[i]))
  }

  /** A file at the top of the payload, and the raw segment that is that file. */
  predicate PlainFile(e: Entry, s: Segment) {
    e.kind.FileEntry? && PortableComponent(e.path) && s.kind.Raw? && s.wireSize == e.size
  }

  predicate Plain(entries: seq<Entry>, segments: seq<Segment>) {
    |entries| == |segments| && forall i | 0 <= i < |entries| :: PlainFile(entries[i], segments[i])
  }

  predicate NamesSeen(entries: seq<Entry>, seen: set<string>) {
    seen == set i | 0 <= i < |entries| :: Lower(entries[i].path)
  }

  /** A name is new when it clashes with no name taken before. */
  lemma NewName(entries: seq<Entry>, seen: set<string>, name: string)
    requires NamesSeen(entries, seen)
    ensures Lower(name) !in seen <==> forall i | 0 <= i < |entries| :: !Clash(entries[i].path, name)
  {
    hide Lower, Clash;
    forall i | 0 <= i < |entries|
      ensures Lower(entries[i].path) == Lower(name) <==> Clash(entries[i].path, name)
    {
      ClashIsSameLower(entries[i].path, name);
    }
  }

  lemma NameSeen(entries: seq<Entry>, seen: set<string>, e: Entry)
    requires NamesSeen(entries, seen)
    ensures NamesSeen(entries + [e], seen + {Lower(e.path)})
  {
    hide Lower;
    var more := entries + [e];
    assert more[|entries|] == e;
    assert forall i | 0 <= i < |entries| :: more[i] == entries[i];
  }

  /** A taken part, written out: a file of mode 0644 at the top of the payload, and the raw
      segment served from there. */
  predicate TakenAs(e: Entry, s: Segment, name: string, data: Bytes, mtime: int) {
    && e.path == name && e.kind == FileEntry && e.size == |data| && e.digest == Blake3(data) && e.mtime == mtime
    && e.mode == 6 * 64 + 4 * 8 + 4 && e.segmentOffset == 0 && e.segmentId == s.id
    && s.kind == Raw && s.wireSize == |data| && s.digest == Blake3(data) && s.storagePath == "payload/" + name
  }

  lemma NewFilePlain(entries: seq<Entry>, segments: seq<Segment>, name: string, data: Bytes, mtime: int, segId: string)
    requires Plain(entries, segments) && PortableComponent(name)
    ensures Plain(entries + [EntryOf(name, data, mtime, segId)], segments + [SegmentOf(name, data, segId)])
  {
    hide PortableComponent;
  }

  /** A new file leaves the others alone. */
  lemma NewFileKeeps(dir: Dir, entries: seq<Entry>, segments: seq<Segment>, name: string, n: Node)
    requires Staged(dir, entries, segments) && name !in dir.payload
    ensures Staged(dir.(payload := dir.payload[name := n]), entries, segments)
  {
    var d := dir.(payload := dir.payload[name := n]);
    forall i | 0 <= i < |entries|
      ensures Holds(d.payload, entries[i])
    {
      assert Holds(dir.payload, entries[i]);
    }
    forall i | 0 <= i < |segments|
      ensures Serves(d, segments[i])
    {
      assert Serves(dir, segments[i]);
    }
  }

  lemma NewFileStaged(dir: Dir, entries: seq<Entry>, segments: seq<Segment>, name: string, data: Bytes, mtime: int, segId: string)
    requires Staged(dir, entries, segments) && name !in dir.payload
    ensures Staged(dir.(payload := dir.payload[name := File(data, false, mtime)]),
                   entries + [EntryOf(name, data, mtime, segId)], segments + [SegmentOf(name, data, segId)])
  {
    hide Serves;
    var d := dir.(payload := dir.payload[name := File(data, false, mtime)]);
    NewFileKeeps(dir, entries, segments, name, File(data, false, mtime));
    assert Serves(d, SegmentOf(name, data, segId)) by { NewFileServed(d, name, data, mtime, segId); }
  }

  lemma NewFileServed(dir: Dir, name: string, data: Bytes, mtime: int, segId: string)
    requires name in dir.payload && dir.payload[name] == File(data, false, mtime)
    ensures Serves(dir, SegmentOf(name, data, segId))
  {
    var path := PAYLOAD_PREFIX + name;
    assert PAYLOAD_PREFIX <= path && path[|PAYLOAD_PREFIX|..] == name;
  }

  /** Reads a part to its end, or to the point where it breaks off or grows too large. */
  method ReadPart(part: Part, room: int, limited: bool) returns (data: Bytes, failure: Option<ErrorCode>)
    requires limited ==> room >= 0
    ensures failure.None? <==> Readable(part, room, limited)
    ensures failure.None? ==> data == Joined(part.chunks)
    ensures failure.Some? ==> failure.value == if limited && |Joined(part.chunks)| > room then PayloadTooLarge else NetworkError
  {
    data := [];
    for n := 0 to |part.chunks|
      invariant data == Joined(part.chunks[..n]) && (limited ==> |data| <= room)
    {
      assert part.chunks[..n + 1][..n] == part.chunks[..n];
      data := data + part.chunks[n];
      if limited && |data| > room {
        JoinedGrows(part.chunks, n + 1);
        return data, Some(PayloadTooLarge);
      }
    }
    assert part.chunks[..|part.chunks|] == part.chunks;
    failure := if part.broken then Some(NetworkError) else None;
  }

  predicate Readable(part: Part, room: int, limited: bool) {
    !part.broken && (limited ==> |Joined(part.chunks)| <= room)
  }

  lemma {:induction false} JoinedGrows(chunks: seq<Bytes>, n: nat)
    requires n <= |chunks|
    ensures |Joined(chunks[..n])| <= |Joined(chunks)|
    decreases |chunks|
  {
    if n == |chunks| {
      assert chunks[..n] == chunks;
    } else {
      var rest := chunks[..|chunks| - 1];
      JoinedGrows(rest, n);
      assert rest[..n] == chunks[..n];
    }
  }

  lemma EntryIsTaken(name: string, data: Bytes, mtime: int, segId: string)
    ensures EntryOf(name, data, mtime, segId).path == name
    ensures TakenAs(EntryOf(name, data, mtime, segId), SegmentOf(name, data, segId), name, data, mtime)
  {
  }

  class SimpleSession {
    const svc: Service
    const id: string
    const limits: Limits
    var ttl: int
    var note: string
    var roots: seq<string>
    var entries: seq<Entry>
    var segments: seq<Segment>
    var seenNames: set<string>
    var bytes: int
    var committed: bool

    ghost predicate Valid()
      reads this, svc, svc.store, svc.layout, svc.manifests
    {
      && svc.Valid() && svc.ready && Inv(svc.cfg, svc.history[0])
      && ttl == EffectiveTTL(svc.cfg, ttl)
      && (limits.maxTransferBytes > 0 ==> bytes <= limits.maxTransferBytes)
      && Plain(entries, segments) && NamesSeen(entries, seenNames)
      && (!committed ==>
            && PhaseOf(svc.Current(), id).Working? && RowIn(svc.Current(), id, Created)
            && id in svc.layout.staging && Staged(svc.layout.staging[id], entries, segments))
    }

    /** Opens a session: an empty staging directory and a CREATED row. */
    constructor (svc: Service, id: string, limits: Limits)
      requires svc.Valid() && svc.ready && Inv(svc.cfg, svc.history[0])
      requires EnabledSend(svc.Current(), id, PrepareStaging)
      modifies svc, svc.store, svc.layout, svc.manifests
      ensures Valid() && entries == [] && !committed && this.svc == svc && this.id == id
      ensures old(svc.history) <= svc.history
      ensures svc.layout.staging == old(svc.layout.staging)[id := EMPTY_DIR]
      ensures svc.store.rows == old(svc.store.rows)[id := NewRow(Unix(svc.now), svc.cfg.defaultTTL)]
      ensures var row := svc.store.rows[id];
              && row.state == Created && row.code == None && row.createdAt == svc.now / 1_000_000_000 && row.ttl == svc.cfg.defaultTTL
              && row.committedAt == None && row.expiresAt == None && row.note == "" && row.segments == map[]
      ensures ttl == svc.cfg.defaultTTL && note == "" && this.limits == limits
    {
      hide IsRun, Inv, Coherent;
      this.svc, this.id, this.limits := svc, id, limits;
      ttl, note, roots, entries, segments, seenNames, bytes, committed := svc.cfg.defaultTTL, "", [], [], [], {}, 0, false;
      new;
      RunNotEmpty(svc.cfg, svc.history);
      StepCreate(svc, id, svc.cfg.defaultTTL);
    }

    /** The name checks of a part, in order. */
    method CheckName(name: string) returns (problem: Option<ErrorCode>)
      ensures problem == if name == "" || !PortableComponent(name) then Some(InvalidPath)
                         else if Lower(name) in seenNames then Some(DuplicatePath)
                         else if |entries| >= limits.maxFiles then Some(TooManyFiles)
                         else None
    {
      hide PortableComponent, Lower;
      if name == "" || !PortableComponent(name) {
        return Some(InvalidPath);
      }
      if Lower(name) in seenNames {
        return Some(DuplicatePath);
      }
      problem := if |entries| >= limits.maxFiles then Some(TooManyFiles) else None;
    }

    /** Puts what was read into the payload. */
    method PutPart(name: string, data: Bytes, segId: string)
      requires Valid() && !committed && name !in svc.layout.staging[id].payload
      modifies svc, svc.store, svc.layout, svc.manifests
      ensures Valid() && old(svc.history) <= svc.history
      ensures Staged(svc.layout.staging[id], entries + [EntryOf(name, data, svc.now, segId)], segments + [SegmentOf(name, data, segId)])
      ensures svc.now == old(svc.now) && svc.store.rows == old(svc.store.rows) && svc.layout.live == old(svc.layout.live)
    {
      hide IsRun, Inv, Coherent, Staged, Plain, NamesSeen, EntryOf, SegmentOf, EffectiveTTL;
      ghost var before := svc.history;
      RunNotEmpty(svc.cfg, before);
      var dir := svc.layout.staging[id];
      var file := File(data, false, svc.now);
      NewFileKeeps(dir, entries, segments, name, file);
      NewFileStaged(dir, entries, segments, name, data, svc.now, segId);
      StepWrite(svc, id, dir.(payload := dir.payload[name := file]));
      assert svc.history[0] == before[0];
    }

    /** This part would be taken. */
    predicate Acceptable(part: Part)
      requires id in svc.layout.staging
      reads this, svc.layout
    {
      && part.name != "" && PortableComponent(part.name) && Lower(part.name) !in seenNames
      && |entries| < limits.maxFiles && part.name !in svc.layout.staging[id].payload
      && Readable(part, limits.maxTransferBytes - bytes, limits.maxTransferBytes > 0)
    }

    /** Checks a part and streams it into the payload. */
    method StagePart(part: Part, segId: string) returns (data: Bytes, problem: Option<ErrorCode>)
      requires Valid() && !committed
      modifies svc, svc.store, svc.layout, svc.manifests
      ensures Valid() && old(svc.history) <= svc.history
      ensures problem.None? <==> old(Acceptable(part))
      ensures problem.None? ==>
                && data == Joined(part.chunks)
                && Staged(svc.layout.staging[id], entries + [EntryOf(part.name, data, svc.now, segId)], segments + [SegmentOf(part.name, data, segId)])
      ensures svc.now == old(svc.now) && svc.store.rows == old(svc.store.rows) && svc.layout.live == old(svc.layout.live)
    {
      hide IsRun, Inv, Coherent, PortableComponent, Staged, Plain, NamesSeen, EntryOf, SegmentOf, Joined, Lower, EffectiveTTL, Readable;
      data := [];
      problem := CheckName(part.name);
      if problem.Some? {
        return;
      }
      if part.name in svc.layout.staging[id].payload {
        return [], Some(InternalError);
      }
      data, problem := ReadPart(part, limits.maxTransferBytes - bytes, limits.maxTransferBytes > 0);
      PutPart(part.name, data, segId);
    }

    /** Streams one part into the payload. The session either gains exactly this file
        or reports the failure and keeps what it had. */
    method AddFile(part: Part, segId: string) returns (problem: Option<ErrorCode>)
      requires Valid() && !committed
      modifies this, svc, svc.store, svc.layout, svc.manifests
      ensures Valid() && !committed && old(svc.history) <= svc.history
      ensures problem.None? <==> old(Acceptable(part))
      ensures problem.None? ==>
                var data := Joined(part.chunks);
                && entries == old(entries) + [EntryOf(part.name, data, svc.now, segId)]
                && segments == old(segments) + [SegmentOf(part.name, data, segId)]
                && roots == old(roots) + [part.name] && bytes == old(bytes) + |data|
                && seenNames == old(seenNames) + {Lower(part.name)}
                && TakenAs(entries[|entries| - 1], segments[|segments| - 1], part.name, data, svc.now)
      ensures problem.None? ==>
                && PortableComponent(part.name) && !part.broken && |old(entries)| < limits.maxFiles
                && (forall i | 0 <= i < |old(entries)| :: !Clash(old(entries)[i].path, part.name))
                && (limits.maxTransferBytes > 0 ==> bytes <= limits.maxTransferBytes)
      ensures problem.Some? ==>
                entries == old(entries) && segments == old(segments) && roots == old(roots) && bytes == old(bytes) && seenNames == old(seenNames)
      ensures svc.store.rows == old(svc.store.rows) && svc.layout.live == old(svc.layout.live)
      ensures note == old(note) && ttl == old(ttl)
    {
      hide IsRun, Inv, Coherent, PortableComponent, Staged, Plain, NamesSeen, EntryOf, SegmentOf, Joined, Lower, EffectiveTTL, Clash, TakenAs;
      var data: Bytes;
      data, problem := StagePart(part, segId);
      if problem.None? {
        NewFilePlain(entries, segments, part.name, data, svc.now, segId);
        NewName(entries, seenNames, part.name);
        NameSeen(entries, seenNames, EntryOf(part.name, data, svc.now, segId));
        EntryIsTaken(part.name, data, svc.now, segId);
        entries := entries + [EntryOf(part.name, data, svc.now, segId)];
        segments := segments + [SegmentOf(part.name, data, segId)];
        roots := roots + [part.name];
        seenNames := seenNames + {Lower(part.name)};
        bytes := bytes + |data|;
      }
    }

    function ManifestFor(createdAt: int): Manifest
      reads this
    {
      Manifest(1, id, createdAt, note, roots, "blake3", segments, entries)
    }

    /** Publishes what was staged. Nothing is published without a file or with an
        invalid manifest; a success publishes the complete directory. */
    method Finish(codes: seq<string>) returns (r: Reply)
      requires Valid() && !committed && |codes| == MAX_CODE_DRAWS
      modifies this, svc, svc.store, svc.layout, svc.manifests
      ensures svc.Valid() && old(svc.history) <= svc.history
      ensures (old(entries) == [] || !Protocol.Valid(old(ManifestFor(svc.now)))) ==>
                r.Rejected? && Valid() && svc.Current() == old(svc.Current())
      ensures r.Done? ==>
                var m := old(ManifestFor(svc.now));
                && committed && Protocol.Valid(m) && m.entries != [] && Plain(m.entries, m.segments)
                && id in svc.store.rows && IsCommitted(svc.store.rows[id]) && RecordsAsk(svc.store.rows[id], Ask(m, ttl, note))
                && r == Done(ResponseOf(svc.store.rows[id]), true)
                && Answers(r, svc.store.rows[id], true) && DatedAt(svc.store.rows[id], svc.now, old(ttl))
                && id in svc.layout.live && Complete(svc.layout.live[id]) && svc.layout.live[id].manifest == Some(m)
      ensures old(entries) != [] && Protocol.Valid(old(ManifestFor(svc.now))) && r.Rejected? ==>
                forall i | 0 <= i < |codes| :: CodeTaken(svc.store.rows, codes[i])
      ensures entries == old(entries) && note == old(note) && ttl == old(ttl)
    {
      hide IsRun, Inv, Coherent, Protocol.Valid, Staged, Plain, NamesSeen, EffectiveTTL;
      if entries == [] {
        return Rejected(NoFiles);
      }
      var m := ManifestFor(svc.now);
      var problem := Validate(m);
      if problem.Some? {
        return Rejected(problem.value);
      }
      InvNow(svc);
      StagedMatches(svc.layout.staging[id], m);
      MayPublish(svc.cfg, svc.Current(), id, m, ttl, note);
      var p := svc.PublishTransfer(id, m, ttl, note, codes);
      if p.Refused? {
        return Rejected(p.error);
      }
      committed := true;
      r := Done(ResponseOf(p.row), true);
    }

    /** Discards an unpublished session; a published one is left alone. */
    method Abort()
      requires Valid()
      modifies svc, svc.store, svc.layout, svc.manifests
      ensures svc.Valid() && old(svc.history) <= svc.history
      ensures committed ==> svc.Current() == old(svc.Current())
      ensures !committed ==> id !in svc.store.rows && id !in svc.layout.staging && svc.layout.live == old(svc.layout.live)
    {
      hide IsRun, Inv, Coherent, Staged;
      if committed {
        return;
      }
      StepDiscard(svc, id);
    }
  }

  lemma StagedMatches(dir: Dir, m: Manifest)
    requires Valid(m) && Staged(dir, m.entries, m.segments)
    ensures Matches(dir, m) && Complete(dir.(manifest := Some(m)))
  {
    hide Valid;
    ManifestAside(dir, m);
  }

  lemma MayPublish(c: Config, s: Sys, id: string, m: Manifest, ttl: int, note: string)
    requires s.up && PhaseOf(s, id).Working? && RowIn(s, id, Created) && id in s.disk.staging && Matches(s.disk.staging[id], m)
    requires ttl == EffectiveTTL(c, ttl)
    ensures CanStep(c, s, id, StartPublish(Ask(m, ttl, note)))
  {
    hide Matches;
  }
}
