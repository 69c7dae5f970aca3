/** Resumable uploads: the server appends to a segment at an exact offset, and the
    client resumes from the offset the server reports. The process may die after
    any durable step, and the connection may break anywhere. */
module Uploads {
  import opened Outcomes
  import opened Protocol
  import opened Storage

  /** What is durable about the segments of one transfer. */
  datatype Durable = Durable(state: State, files: map<string, Bytes>, segments: map<string, SegmentRow>, wire: int)

  function FileOf(d: Durable, id: string): Bytes {
    if id in d.files then d.files[id] else []
  }

  /** The bytes the server has acknowledged. */
  function Acknowledged(d: Durable, id: string): Bytes
    requires id in d.segments && 0 <= d.segments[id].received <= |FileOf(d, id)|
  {
    FileOf(d, id)[..d.segments[id].received]
  }

  // Sums

  ghost function SumReceived(segments: map<string, SegmentRow>): int
    decreases |segments|
  {
    if segments == map[] then 0
    else
      var id :| id in segments;
      assert |segments - {id}| < |segments| by { Smaller(segments, id); }
      segments[id].received + SumReceived(segments - {id})
  }

  lemma Smaller(segments: map<string, SegmentRow>, id: string)
    requires id in segments
    ensures |segments - {id}| < |segments|
  {
    assert (segments - {id}).Keys == segments.Keys - {id};
  }

  /** The sum does not depend on the order of summation. */
  lemma {:induction false} SumTakes(segments: map<string, SegmentRow>, id: string)
    requires id in segments
    ensures SumReceived(segments) == segments[id].received + SumReceived(segments - {id})
    decreases |segments|
  {
    var first :| first in segments && SumReceived(segments) == segments[first].received + SumReceived(segments - {first});
    if first != id {
      Smaller(segments, first);
      Smaller(segments, id);
      SumTakes(segments - {first}, id);
      SumTakes(segments - {id}, first);
      assert segments - {first} - {id} == segments - {id} - {first};
    }
  }

  lemma SumAfter(segments: map<string, SegmentRow>, id: string, row: SegmentRow)
    requires id in segments
    ensures SumReceived(segments[id := row]) == SumReceived(segments) - segments[id].received + row.received
  {
    SumTakes(segments, id);
    SumTakes(segments[id := row], id);
    assert segments[id := row] - {id} == segments - {id};
  }

  // What every durable state keeps

  predicate SegmentSound(row: SegmentRow, file: Bytes) {
    0 <= row.received <= row.expected && row.received <= |file| && (row.state.Received? ==> row.received == row.expected)
  }

  ghost predicate Sound(d: Durable) {
    && (forall id | id in d.segments :: SegmentSound(d.segments[id], FileOf(d, id)))
    && 0 <= d.wire <= SumReceived(d.segments)
  }

  /** Acknowledged bytes are never lost, changed or taken back. */
  predicate Grows(d: Durable, e: Durable) {
    && e.segments.Keys == d.segments.Keys
    && d.wire <= e.wire
    && forall id | id in d.segments :: SegmentGrows(d, e, id)
  }

  predicate SegmentGrows(d: Durable, e: Durable, id: string) {
    && id in d.segments && id in e.segments
    && 0 <= d.segments[id].received <= e.segments[id].received
    && d.segments[id].received <= |FileOf(d, id)| && e.segments[id].received <= |FileOf(e, id)|
    && e.segments[id].expected == d.segments[id].expected
    && Acknowledged(e, id)[..d.segments[id].received] == Acknowledged(d, id)
  }

  lemma GrowsTransitive(a: Durable, b: Durable, c: Durable)
    requires Grows(a, b) && Grows(b, c)
    ensures Grows(a, c)
  {
    forall id | id in a.segments
      ensures SegmentGrows(a, c, id)
    {
      assert SegmentGrows(a, b, id) && SegmentGrows(b, c, id);
      var n := a.segments[id].received;
      assert Acknowledged(c, id)[..b.segments[id].received][..n] == Acknowledged(c, id)[..n];
    }
  }

  lemma GrowsSelf(d: Durable)
    requires Sound(d)
    ensures Grows(d, d)
  {
    forall id | id in d.segments
      ensures SegmentGrows(d, d, id)
    {
      assert SegmentSound(d.segments[id], FileOf(d, id));
    }
  }

  /** A file may change past its acknowledged bytes at any time. */
  lemma TailMayChange(d: Durable, id: string, file: Bytes, state: State)
    requires Sound(d) && id in d.segments
    requires d.segments[id].received <= |file| && d.segments[id].received <= |FileOf(d, id)|
    requires file[..d.segments[id].received] == FileOf(d, id)[..d.segments[id].received]
    ensures var e := Durable(state, d.files[id := file], d.segments, d.wire); Sound(e) && Grows(d, e)
  {
    hide SumReceived;
    var e := Durable(state, d.files[id := file], d.segments, d.wire);
    forall x | x in d.segments
      ensures SegmentSound(e.segments[x], FileOf(e, x)) && SegmentGrows(d, e, x)
    {
      assert SegmentSound(d.segments[x], FileOf(d, x));
    }
  }

  /** The acknowledged length may rise to what the file holds. */
  lemma ProgressRecorded(d: Durable, id: string, received: int)
    requires Sound(d) && id in d.segments
    requires d.segments[id].received <= received <= d.segments[id].expected && received <= |FileOf(d, id)|
    ensures var e := d.(segments := d.segments[id := Advanced(d.segments[id], received)]);
            && Sound(e) && Grows(d, e)
            && e.wire + (received - d.segments[id].received) <= SumReceived(e.segments)
  {
    hide SumReceived;
    var e := d.(segments := d.segments[id := Advanced(d.segments[id], received)]);
    SumAfter(d.segments, id, Advanced(d.segments[id], received));
    forall x | x in d.segments
      ensures SegmentSound(e.segments[x], FileOf(e, x)) && SegmentGrows(d, e, x)
    {
      assert SegmentSound(d.segments[x], FileOf(d, x));
      assert FileOf(e, x) == FileOf(d, x);
    }
  }

  function Advanced(row: SegmentRow, received: int): SegmentRow {
    row.(received := received, state := if received == row.expected then SegmentState.Received else Pending)
  }

  lemma BytesCounted(d: Durable, n: int)
    requires Sound(d) && n >= 0 && d.wire + n <= SumReceived(d.segments)
    ensures Sound(d.(wire := d.wire + n)) && Grows(d, d.(wire := d.wire + n))
  {
    hide SumReceived;
    var e := d.(wire := d.wire + n);
    forall x | x in d.segments
      ensures SegmentSound(e.segments[x], FileOf(e, x)) && SegmentGrows(d, e, x)
    {
      assert SegmentSound(d.segments[x], FileOf(d, x));
      assert FileOf(e, x) == FileOf(d, x);
    }
  }

  // The server

  /** One read from the request body, and whether the disk takes it. */
  datatype Read = Read(data: Bytes, writable: bool)

  /** A request body: its reads, and whether the stream breaks off after them. */
  datatype Body = Body(parts: seq<Read>, broken: bool)

  function Sent(parts: seq<Read>): Bytes {
    if parts == [] then [] else Sent(parts[..|parts| - 1]) + parts[|parts| - 1].data
  }

  /** `Died` means the process ended before it could answer. */
  datatype Patched = Accepted(offset: int) | Rejected(offset: int, error: ErrorCode) | Died

  class Uploads {
    var now: Durable
    /** How many more durable steps this process lives. */
    var life: nat
    ghost var history: seq<Durable>

    ghost predicate Valid()
      reads this
    {
      && history != [] && history[|history| - 1] == now
      && (forall i | 0 <= i < |history| :: Sound(history[i]))
      && (forall i, j | 0 <= i <= j < |history| :: Grows(history[i], history[j]))
    }

    /** Starts on what a previous process left. */
    constructor (d: Durable, life: nat)
      requires Sound(d)
      ensures Valid() && now == d && this.life == life && history == [d]
    {
      now, this.life, history := d, life, [d];
      new;
      GrowsSelf(d);
    }

    /** The process runs on, or is started again; nothing durable changes. */
    method Restart(life: nat)
      modifies this`life
      ensures this.life == life
    {
      this.life := life;
    }

    /** The accepted offset of a segment. */
    method UploadOffset(id: string) returns (offset: Option<int>)
      ensures offset == if id in now.segments then Some(now.segments[id].received) else None
    {
      offset := if id in now.segments then Some(now.segments[id].received) else None;
    }

    /** Makes one step durable, unless the process dies first. */
    method Persist(d: Durable) returns (alive: bool)
      requires Valid() && Sound(d) && Grows(now, d)
      modifies this
      ensures Valid() && old(history) <= history
      ensures alive <==> old(life) > 0
      ensures alive ==> now == d && life == old(life) - 1
      ensures !alive ==> now == old(now)
    {
      hide Sound, Grows;
      if life == 0 {
        return false;
      }
      life := life - 1;
      forall i | 0 <= i < |history|
        ensures Grows(history[i], d)
      {
        GrowsTransitive(history[i], now, d);
      }
      assert Grows(d, d) by { GrowsSelf(d); }
      now := d;
      history := history + [d];
      alive := true;
    }

    /** Records the accepted offset, then counts the bytes. */
    method FinishPatch(id: string, newOffset: int) returns (alive: bool)
      requires Valid() && id in now.segments
      requires now.segments[id].received <= newOffset <= now.segments[id].expected && newOffset <= |FileOf(now, id)|
      modifies this
      ensures Valid() && old(history) <= history
      ensures now.files == old(now.files) && now.state == old(now.state)
      ensures now.segments == old(now.segments) || now.segments == old(now.segments)[id := Advanced(old(now.segments)[id], newOffset)]
      ensures alive ==>
                && now.segments == old(now.segments)[id := Advanced(old(now.segments)[id], newOffset)]
                && now.wire == old(now.wire) + (newOffset - old(now.segments)[id].received)
      ensures old(life) >= 2 ==> alive
    {
      hide SumReceived, Grows, Sound;
      var delta := newOffset - now.segments[id].received;
      ProgressRecorded(now, id, newOffset);
      alive := Persist(now.(segments := now.segments[id := Advanced(now.segments[id], newOffset)]));
      if alive && delta > 0 {
        BytesCounted(now, delta);
        alive := Persist(now.(wire := now.wire + delta));
      }
    }

    /** Writes to the segment's file past its acknowledged bytes. */
    method WriteFile(id: string, file: Bytes, state: State) returns (alive: bool)
      requires Valid() && id in now.segments && 0 <= now.segments[id].received <= |file|
      requires now.segments[id].received <= |FileOf(now, id)|
      requires file[..now.segments[id].received] == Acknowledged(now, id)
      modifies this
      ensures Valid() && old(history) <= history
      ensures now.segments == old(now.segments) && now.wire == old(now.wire)
      ensures now == old(now) || (now.files == old(now.files)[id := file] && now.state == state)
      ensures alive ==> now.files == old(now.files)[id := file] && now.state == state && life == old(life) - 1
      ensures alive <==> old(life) > 0
    {
      hide SumReceived, Grows, Sound;
      TailMayChange(now, id, file, state);
      alive := Persist(Durable(state, now.files[id := file], now.segments, now.wire));
    }

    lemma Known(id: string)
      requires Valid() && id in now.segments
      ensures SegmentSound(now.segments[id], FileOf(now, id))
    {
      assert Sound(history[|history| - 1]);
    }

    /** Copies the body into the aligned file until it ends, breaks off or overruns. */
    method ReceiveBody(id: string, body: Body, ghost d0: Durable) returns (r: Patched)
      requires Valid() && Sound(d0) && id in d0.segments && Filling(d0, now, id, [])
      modifies this
      ensures Valid() && old(history) <= history
      ensures Appended(d0, now, id, Sent(body.parts)) && Answered(d0, now, id, body, r)
      ensures old(life) >= |body.parts| + 2 ==> !r.Died?
      ensures now.state == old(now.state)
    {
      hide SumReceived, Sound, Grows, Filling, Appended, Answered, Booked, Acknowledged, FileOf, Sent;
      SentNone(body.parts);
      FillingFacts(d0, now, id, []);
      var offset := now.segments[id].received;
      var remaining := now.segments[id].expected - offset;
      var written := 0;
      for n := 0 to |body.parts|
        invariant Valid() && old(history) <= history
        invariant Filling(d0, now, id, Sent(body.parts[..n])) && written == |Sent(body.parts[..n])| <= remaining
        invariant forall i | 0 <= i < n :: body.parts[i].writable
        invariant life == old(life) - n && now.state == old(now.state)
      {
        SentMore(body.parts, n);
        var part := body.parts[n];
        ghost var got := Sent(body.parts[..n]);
        FillingFacts(d0, now, id, got);
        if written + |part.data| > remaining {
          SentPrefix(body.parts, n, remaining - written);
          SentPrefix(body.parts, n, |part.data|);
          assert part.data[..|part.data|] == part.data;
          r := Overrun(id, part.data[..remaining - written], d0, got, Sent(body.parts), offset + remaining);
          AnsweredOverrun(d0, now, id, body, r);
          return;
        }
        SentPrefix(body.parts, n, |part.data|);
        if !part.writable {
          SentPrefix(body.parts, n, 0);
          var alive := FinishFilled(id, d0, got, Sent(body.parts));
          r := if alive then Rejected(offset + written, InsufficientStorage) else Died;
          AnsweredCut(d0, now, id, body, r);
          return;
        }
        var alive := FillMore(id, part.data, d0, got);
        if !alive {
          FillingAppends(d0, now, id, if Filling(d0, now, id, got) then got else got + part.data, Sent(body.parts));
          AppendedFacts(d0, now, id, Sent(body.parts));
          AnsweredCut(d0, now, id, body, Died);
          return Died;
        }
        written := written + |part.data|;
      }
      assert body.parts[..|body.parts|] == body.parts;
      FillingFacts(d0, now, id, Sent(body.parts));
      var alive := FinishFilled(id, d0, Sent(body.parts), Sent(body.parts));
      r := if !alive then Died
           else if body.broken then Rejected(offset + written, NetworkError)
           else Accepted(offset + written);
      AnsweredWhole(d0, now, id, body, r);
    }

    /** Keeps what fits of an overlong body. */
    method Overrun(id: string, valid: Bytes, ghost d0: Durable, ghost got: Bytes, ghost sent: Bytes, newOffset: int) returns (r: Patched)
      requires Valid() && Sound(d0) && Filling(d0, now, id, got) && got + valid <= sent
      requires id in d0.segments && newOffset == d0.segments[id].expected == d0.segments[id].received + |got + valid|
      modifies this
      ensures Valid() && old(history) <= history
      ensures Appended(d0, now, id, sent) && id in now.segments
      ensures r.Died? || (r == Rejected(newOffset, InvalidRequest) && now.segments[id].received == newOffset && Booked(d0, now, id))
      ensures old(life) >= 3 ==> !r.Died?
      ensures now.state == old(now.state)
    {
      hide SumReceived, Sound, Grows, Filling, Appended, Acknowledged, FileOf;
      var alive := FillMore(id, valid, d0, got);
      if !alive {
        FillingAppends(d0, now, id, if Filling(d0, now, id, got) then got else got + valid, sent);
        AppendedFacts(d0, now, id, sent);
        return Died;
      }
      alive := FinishFilled(id, d0, got + valid, sent);
      r := if alive then Rejected(newOffset, InvalidRequest) else Died;
    }

    method FillMore(id: string, data: Bytes, ghost d0: Durable, ghost got: Bytes) returns (alive: bool)
      requires Valid() && Sound(d0) && id in d0.segments && Filling(d0, now, id, got)
      modifies this
      ensures Valid() && old(history) <= history
      ensures Filling(d0, now, id, got + data) || (!alive && Filling(d0, now, id, got))
      ensures alive ==> Filling(d0, now, id, got + data) && life == old(life) - 1
      ensures alive <==> old(life) > 0
      ensures now.state == old(now.state)
    {
      hide SumReceived, Grows, Sound, Filling, Acknowledged;
      FillingFacts(d0, now, id, got);
      MayFill(d0, now, id, got, data);
      ghost var before := now;
      alive := WriteFile(id, FileOf(now, id) + data, now.state);
      assert now == before || Filling(d0, now, id, got + data) by {
        if now != before {
          MoreFilled(d0, before, now, id, got, data);
        }
      }
      if alive {
        MoreFilled(d0, before, now, id, got, data);
      }
    }

    method FinishFilled(id: string, ghost d0: Durable, ghost got: Bytes, ghost sent: Bytes) returns (alive: bool)
      requires Valid() && Sound(d0) && id in d0.segments && Filling(d0, now, id, got) && got <= sent
      requires d0.segments[id].received + |got| <= d0.segments[id].expected
      modifies this
      ensures Valid() && old(history) <= history
      ensures Appended(d0, now, id, sent) && id in now.segments
      ensures alive ==> now.segments[id].received == d0.segments[id].received + |got| && Booked(d0, now, id)
      ensures old(life) >= 2 ==> alive
      ensures now.state == old(now.state)
    {
      hide SumReceived, Grows, Sound, Booked, Advanced;
      ghost var e := now;
      FillingFacts(d0, now, id, got);
      alive := FinishPatch(id, |FileOf(now, id)|);
      AdvancedFacts(e.segments[id], |FileOf(e, id)|);
      if alive {
        FinishBooks(d0, e, now, id, got);
      }
    }

    /** Drops unacknowledged bytes and marks the transfer as uploading. */
    method Align(id: string, ghost sent: Bytes) returns (alive: bool)
      requires Valid() && id in now.segments && SegmentSound(now.segments[id], FileOf(now, id))
      modifies this
      ensures Valid() && old(history) <= history
      ensures Appended(old(now), now, id, sent)
      ensures alive ==> Filling(old(now), now, id, []) && life >= old(life) - 2
      ensures old(life) >= 2 ==> alive
      ensures now.state == old(now.state) || (old(now.state).Created? && now.state.Uploading?)
      ensures alive && Uploadable(old(now)) ==> now.state.Uploading?
    {
      hide SumReceived, Grows, Sound;
      var offset := now.segments[id].received;
      alive := WriteFile(id, FileOf(now, id)[..offset], now.state);
      if alive && now.state.Created? {
        alive := WriteFile(id, FileOf(now, id), Uploading);
      }
    }

    /** Appends a request body at an exact offset. Whatever happens, the acknowledged
        bytes are the old ones followed by a prefix of the body. */
    method UploadPatch(id: string, offset: int, body: Body) returns (r: Patched)
      requires Valid()
      modifies this
      ensures Valid() && old(history) <= history
      ensures id !in old(now.segments) ==> r == Rejected(0, TransferNotFound) && now == old(now)
      ensures id in old(now.segments) && !Uploadable(old(now)) ==> r == Rejected(0, StateConflict) && now == old(now)
      ensures id in old(now.segments) && Uploadable(old(now)) && offset != old(now.segments)[id].received ==>
                r == Rejected(old(now.segments)[id].received, OffsetMismatch) && now == old(now)
      ensures id in old(now.segments) && Uploadable(old(now)) && offset == old(now.segments)[id].received ==>
                Appended(old(now), now, id, Sent(body.parts)) && Answered(old(now), now, id, body, r)
      ensures now.state == old(now.state) || (old(now.state).Created? && now.state.Uploading?)
      ensures r.Accepted? ==> now.state.Uploading?
      ensures old(life) >= |body.parts| + 4 ==> !r.Died?
    {
      hide SumReceived, Grows, Sent, Sound, Filling, Appended, Answered, Acknowledged;
      if id !in now.segments {
        return Rejected(0, TransferNotFound);
      }
      if !now.state.Created? && !now.state.Uploading? {
        return Rejected(0, StateConflict);
      }
      if offset != now.segments[id].received {
        return Rejected(now.segments[id].received, OffsetMismatch);
      }
      Known(id);
      ghost var d0 := now;
      assert Sound(history[|history| - 1]);
      var alive := Align(id, Sent(body.parts));
      if !alive {
        assert id in now.segments by { AppendedFacts(d0, now, id, Sent(body.parts)); }
        AnsweredCut(d0, now, id, body, Died);
        return Died;
      }
      r := ReceiveBody(id, body, d0);
    }
  }

  /** The file holds the acknowledged bytes followed by `got`, unacknowledged. */
  ghost predicate Filling(d: Durable, e: Durable, id: string, got: Bytes) {
    && id in d.segments && e.segments == d.segments && e.wire == d.wire
    && (forall x | x != id :: FileOf(e, x) == FileOf(d, x))
    && 0 <= d.segments[id].received <= |FileOf(d, id)|
    && FileOf(e, id) == Acknowledged(d, id) + got
  }

  lemma FillingFacts(d: Durable, e: Durable, id: string, got: Bytes)
    requires Sound(d) && Filling(d, e, id, got)
    ensures e.segments == d.segments && id in d.segments && 0 <= d.segments[id].received <= d.segments[id].expected
    ensures |FileOf(e, id)| == d.segments[id].received + |got|
  {
    assert SegmentSound(d.segments[id], FileOf(d, id));
  }

  lemma AdvancedFacts(row: SegmentRow, n: int)
    ensures Advanced(row, n).received == n && Advanced(row, n).expected == row.expected
  {
  }

  lemma FinishBooks(d: Durable, e: Durable, f: Durable, id: string, got: Bytes)
    requires Filling(d, e, id, got)
    requires f.segments == e.segments[id := Advanced(e.segments[id], |FileOf(e, id)|)]
    requires f.wire == e.wire + (|FileOf(e, id)| - e.segments[id].received)
    ensures Booked(d, f, id)
  {
  }

  lemma SentMore(parts: seq<Read>, n: nat)
    requires n < |parts|
    ensures Sent(parts[..n + 1]) == Sent(parts[..n]) + parts[n].data
  {
    assert parts[..n + 1][..n] == parts[..n];
  }

  lemma SentNone(parts: seq<Read>)
    ensures Sent(parts[..0]) == []
  {
  }

  lemma AppendedFacts(d: Durable, e: Durable, id: string, sent: Bytes)
    requires Appended(d, e, id, sent)
    ensures id in e.segments
  {
  }

  lemma AnsweredOverrun(d: Durable, e: Durable, id: string, body: Body, r: Patched)
    requires id in d.segments && id in e.segments
    requires d.segments[id].received + |Sent(body.parts)| > d.segments[id].expected
    requires r.Died? || (Booked(d, e, id) && r == Rejected(d.segments[id].expected, InvalidRequest) && e.segments[id].received == d.segments[id].expected)
    ensures Answered(d, e, id, body, r)
  {
  }

  lemma AnsweredCut(d: Durable, e: Durable, id: string, body: Body, r: Patched)
    requires id in d.segments && id in e.segments
    requires r.Died? || (Booked(d, e, id) && r == Rejected(e.segments[id].received, InsufficientStorage) && exists i | 0 <= i < |body.parts| :: !body.parts[i].writable)
    ensures Answered(d, e, id, body, r)
  {
  }

  lemma AnsweredWhole(d: Durable, e: Durable, id: string, body: Body, r: Patched)
    requires id in d.segments && id in e.segments && d.segments[id].received + |Sent(body.parts)| <= d.segments[id].expected
    requires r.Died? || (Booked(d, e, id) && e.segments[id].received == d.segments[id].received + |Sent(body.parts)| && r.offset == e.segments[id].received)
    requires r.Accepted? ==> !body.broken
    requires r.Rejected? ==> body.broken && r.error == NetworkError
    ensures Answered(d, e, id, body, r)
  {
  }

  lemma MayFill(d: Durable, e: Durable, id: string, got: Bytes, data: Bytes)
    requires Sound(d) && Filling(d, e, id, got)
    ensures var n := e.segments[id].received;
            && n <= |FileOf(e, id)| <= |FileOf(e, id) + data|
            && (FileOf(e, id) + data)[..n] == Acknowledged(e, id)
  {
    hide SumReceived;
    assert SegmentSound(d.segments[id], FileOf(d, id));
  }

  lemma MoreFilled(d: Durable, e: Durable, f: Durable, id: string, got: Bytes, data: Bytes)
    requires Filling(d, e, id, got)
    requires f.segments == e.segments && f.wire == e.wire && f.files == e.files[id := FileOf(e, id) + data]
    ensures Filling(d, f, id, got + data)
  {
    SameConcat(Acknowledged(d, id), got, data);
  }

  lemma FillingAppends(d: Durable, e: Durable, id: string, got: Bytes, sent: Bytes)
    requires Filling(d, e, id, got)
    ensures Appended(d, e, id, sent)
  {
  }

  predicate Uploadable(d: Durable) { d.state.Created? || d.state.Uploading? }

  /** The segment's acknowledged bytes grew by a prefix of `sent`; nothing else did. */
  predicate Appended(d: Durable, e: Durable, id: string, sent: Bytes) {
    && id in d.segments && e.segments.Keys == d.segments.Keys
    && (forall x | x in d.segments && x != id :: e.segments[x] == d.segments[x] && FileOf(e, x) == FileOf(d, x))
    && 0 <= d.segments[id].received <= e.segments[id].received <= d.segments[id].received + |sent|
    && e.segments[id].expected == d.segments[id].expected
    && d.segments[id].received <= |FileOf(d, id)| && e.segments[id].received <= |FileOf(e, id)|
    && Acknowledged(e, id) == Acknowledged(d, id) + sent[..e.segments[id].received - d.segments[id].received]
  }

  /** The segment's row and the transfer's byte count say how far it came; the row is
      complete at the declared length. */
  predicate Booked(d: Durable, e: Durable, id: string) {
    && id in d.segments && id in e.segments
    && (var n := e.segments[id].received;
        && e.segments[id] == d.segments[id].(received := n, state := if n == d.segments[id].expected then SegmentState.Received else Pending)
        && e.wire == d.wire + (n - d.segments[id].received))
  }

  /** An answer reports exactly what is recorded. A body that fits and can be written
      is recorded as far as it arrives; one that overruns fills the segment. */
  predicate Answered(d: Durable, e: Durable, id: string, body: Body, r: Patched) {
    && id in d.segments && id in e.segments
    && (!r.Died? ==> r.offset == e.segments[id].received && Booked(d, e, id))
    && (r.Accepted? ==> !body.broken && e.segments[id].received == d.segments[id].received + |Sent(body.parts)|)
    && (!r.Died? && (forall i | 0 <= i < |body.parts| :: body.parts[i].writable) ==>
          if d.segments[id].received + |Sent(body.parts)| > d.segments[id].expected
          then r == Rejected(d.segments[id].expected, InvalidRequest)
          else if body.broken then r == Rejected(d.segments[id].received + |Sent(body.parts)|, NetworkError)
          else r.Accepted?)
  }

  /** Reads so far, and part of the next, are a prefix of what was sent. */
  lemma {:induction false} SentPrefix(parts: seq<Read>, n: nat, k: nat)
    requires n < |parts| && k <= |parts[n].data|
    ensures Sent(parts[..n]) + parts[n].data[..k] <= Sent(parts)
    decreases |parts|
  {
    var last := |parts| - 1;
    if n < last {
      SentPrefix(parts[..last], n, k);
      assert parts[..last][..n] == parts[..n];
    } else {
      assert Sent(parts) == Sent(parts[..n]) + parts[n].data;
    }
  }

  // The client

  /** How the network treats one attempt: the offset request may fail; the body
      arrives in pieces, each with whether the disk takes it, and breaks off after them
      unless `whole`; the answer may be lost; and `life` is how many durable
      steps the server still manages, restarted if it was dead. */
  datatype Attempt = Attempt(headLost: bool, pieces: seq<(nat, bool)>, whole: bool, answerLost: bool, life: nat)

  function Least(a: nat, b: nat): nat { if a < b then a else b }

  /** The reads the server sees of `data`. */
  function Reads(data: Bytes, pieces: seq<(nat, bool)>, whole: bool): seq<Read>
    decreases |pieces|
  {
    if pieces == [] then (if whole then [Read(data, true)] else [])
    else
      var n := Least(pieces[0].0, |data|);
      [Read(data[..n], pieces[0].1)] + Reads(data[n..], pieces[1..], whole)
  }

  lemma {:induction false} SentCons(first: Read, rest: seq<Read>)
    ensures Sent([first] + rest) == first.data + Sent(rest)
    decreases |rest|
  {
    var all := [first] + rest;
    if rest == [] {
      assert all[..0] == [];
    } else {
      var shorter := rest[..|rest| - 1];
      SentCons(first, shorter);
      assert all[..|all| - 1] == [first] + shorter;
      SameConcat(first.data, Sent(shorter), rest[|rest| - 1].data);
    }
  }

  lemma SameConcat(a: Bytes, b: Bytes, c: Bytes)
    ensures a + b + c == a + (b + c)
  {
  }

  /** What arrives is a prefix of the data, and all of it when nothing broke. */
  lemma {:induction false} ReadsArePrefix(data: Bytes, pieces: seq<(nat, bool)>, whole: bool)
    ensures Sent(Reads(data, pieces, whole)) <= data
    ensures whole ==> Sent(Reads(data, pieces, whole)) == data
    decreases |pieces|
  {
    if pieces == [] {
      assert Sent([]) == [];
      SentCons(Read(data, true), []);
    } else {
      var n := Least(pieces[0].0, |data|);
      ReadsArePrefix(data[n..], pieces[1..], whole);
      SentCons(Read(data[..n], pieces[0].1), Reads(data[n..], pieces[1..], whole));
      assert data == data[..n] + data[n..];
    }
  }

  /** The segment is declared at the source's length, and the server has acknowledged
      nothing but a prefix of the source. */
  predicate Authentic(d: Durable, id: string, source: Bytes) {
    && id in d.segments && d.segments[id].expected == |source|
    && 0 <= d.segments[id].received <= |FileOf(d, id)|
    && Acknowledged(d, id) <= source
  }

  /** Appending what follows the acknowledged bytes keeps the segment authentic. */
  lemma AppendKeepsAuthentic(d: Durable, e: Durable, id: string, source: Bytes, sent: Bytes)
    requires Authentic(d, id, source) && Appended(d, e, id, sent) && sent <= source[d.segments[id].received..]
    ensures Authentic(e, id, source)
  {
    var n := d.segments[id].received;
    var k := e.segments[id].received - n;
    assert sent[..k] == source[n..][..k];
    assert source[..n] + source[n..][..k] == source[..n + k];
  }

  /** Every state a crash may have left was authentic. */
  lemma AlwaysAuthentic(u: Uploads, id: string, source: Bytes, i: nat)
    requires u.Valid() && Authentic(u.now, id, source) && i < |u.history| && id in u.history[i].segments
    ensures Authentic(u.history[i], id, source)
  {
    hide Sound;
    assert Grows(u.history[i], u.history[|u.history| - 1]);
    assert SegmentGrows(u.history[i], u.now, id);
  }

  /** Nothing goes wrong that the client does not try again after. */
  predicate Retryable(a: Attempt) {
    !a.headLost && forall i | 0 <= i < |a.pieces| :: a.pieces[i].1
  }

  /** The network and the server hold for the whole attempt. */
  predicate Clean(a: Attempt) {
    Retryable(a) && a.whole && !a.answerLost && a.life >= |a.pieces| + 5
  }

  lemma {:induction false} ReadsWritable(data: Bytes, pieces: seq<(nat, bool)>, whole: bool)
    requires forall i | 0 <= i < |pieces| :: pieces[i].1
    ensures forall i | 0 <= i < |Reads(data, pieces, whole)| :: Reads(data, pieces, whole)[i].writable
    ensures |Reads(data, pieces, whole)| <= |pieces| + 1
    decreases |pieces|
  {
    if pieces != [] {
      var n := Least(pieces[0].0, |data|);
      forall i | 0 <= i < |pieces[1..]|
        ensures pieces[1..][i].1
      {
        assert pieces[1..][i] == pieces[i + 1];
      }
      ReadsWritable(data[n..], pieces[1..], whole);
    }
  }

  /** One attempt: ask for the offset, send the rest. `None` means try again. */
  method TryOnce(u: Uploads, id: string, source: Bytes, a: Attempt) returns (done: Option<Option<ErrorCode>>)
    requires u.Valid() && Authentic(u.now, id, source)
    modifies u
    ensures u.Valid() && old(u.history) <= u.history
    ensures Authentic(u.now, id, source)
    ensures done == Some(None) ==> u.now.segments[id].received == |source|
    ensures Uploadable(old(u.now)) ==> Uploadable(u.now)
    ensures Uploadable(old(u.now)) && Retryable(a) ==> done == None || done == Some(None)
    ensures Uploadable(old(u.now)) && Clean(a) ==> done == Some(None)
  {
    hide Sound, Grows, Appended, Acknowledged, Reads;
    if a.headLost {
      return Some(Some(NetworkError));
    }
    u.Restart(a.life);
    var offset := u.UploadOffset(id);
    u.Known(id);
    done := if offset.value == |source| then Some(None)
            else if offset.value > |source| then Some(Some(StateConflict))
            else None;
    if done.Some? {
      return;
    }
    var parts := Reads(source[offset.value..], a.pieces, a.whole);
    ReadsArePrefix(source[offset.value..], a.pieces, a.whole);
    if Retryable(a) {
      ReadsWritable(source[offset.value..], a.pieces, a.whole);
    }
    ghost var d0 := u.now;
    var r := u.UploadPatch(id, offset.value, Body(parts, !a.whole));
    if Uploadable(d0) {
      AppendKeepsAuthentic(d0, u.now, id, source, Sent(parts));
    }
    if r.Died? || a.answerLost {
      return None;
    }
    if r.Accepted? {
      return if r.offset == |source| then Some(None) else None;
    }
    if r.error == OffsetMismatch || r.error == NetworkError {
      return None;
    }
    done := Some(Some(r.error));
  }

  const MAX_ATTEMPTS := 3

  predicate CleanAfterRetries(attempts: seq<Attempt>, k: nat)
    requires k < |attempts|
  {
    Clean(attempts[k]) && forall i | 0 <= i < k :: Retryable(attempts[i])
  }

  /** Uploads one segment. No error means the server has recorded the whole segment,
      byte for byte the source. */
  method UploadOne(u: Uploads, id: string, source: Bytes, attempts: seq<Attempt>) returns (failure: Option<ErrorCode>)
    requires u.Valid() && Authentic(u.now, id, source) && |attempts| == 3
    modifies u
    ensures u.Valid() && old(u.history) <= u.history
    ensures Authentic(u.now, id, source)
    ensures failure.None? ==> u.now.segments[id].received == |source| && Acknowledged(u.now, id) == source
    ensures Uploadable(old(u.now)) && (exists k | 0 <= k < |attempts| :: CleanAfterRetries(attempts, k)) ==> failure.None?
  {
    hide Sound, Grows;
    for k := 0 to MAX_ATTEMPTS
      invariant u.Valid() && old(u.history) <= u.history && Authentic(u.now, id, source)
      invariant Uploadable(old(u.now)) ==> Uploadable(u.now)
      invariant Uploadable(old(u.now)) ==> forall i | 0 <= i < k :: !CleanAfterRetries(attempts, i)
    {
      var done := TryOnce(u, id, source, attempts[k]);
      if done.Some? {
        return done.value;
      }
    }
    failure := Some(NetworkError);
  }
}
