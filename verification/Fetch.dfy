/** Downloading one immutable segment: group by group with every group proved before
    it is written, or whole with a final digest. The network may answer anything. */
module Fetching {
  import opened Outcomes
  import opened Protocol

  const GROUP_SIZE := 65536
  const MAX_ATTEMPTS := 3

  /** The segment a claim offers. */
  datatype Offer = Offer(length: nat, digest: Digest)

  datatype Opened = Stream | Failed(error: ErrorCode)

  /** What the network answers to the n-th request of each kind: opening a stream,
      reading from it, and fetching a bounded range. A read that yields too little is
      a broken stream. */
  datatype Network = Network(open: nat -> Opened, read: nat -> Bytes, range: (nat, nat, nat) -> Option<Bytes>)

  /** The proof check of one group at an offset. */
  type Verifier = (Bytes, nat) -> bool

  /** Only the authentic bytes pass the check. */
  ghost predicate SoundFor(verify: Verifier, segment: Bytes) {
    forall group: Bytes, offset: nat | verify(group, offset) ::
      offset + |group| <= |segment| && segment[offset..offset + |group|] == group
  }

  /** Every authentic group passes it. */
  ghost predicate CompleteFor(verify: Verifier, segment: Bytes) {
    forall group: Bytes, offset: nat |
      offset < |segment| && offset % GROUP_SIZE == 0 && |group| == GroupAt(offset, |segment|) &&
      segment[offset..offset + |group|] == group :: verify(group, offset)
  }

  /** The group boundary a file of this size is resumed from. */
  function ResumeAt(size: nat, length: nat): (offset: nat)
    ensures offset <= size && offset <= length && offset % GROUP_SIZE == 0
  {
    var whole := size - size % GROUP_SIZE;
    if whole > length then length - length % GROUP_SIZE else whole
  }

  function GroupAt(offset: nat, length: nat): nat
    requires offset <= length
  {
    if length - offset > GROUP_SIZE then GROUP_SIZE else length - offset
  }

  /** How many groups are still missing. */
  function Missing(offset: nat, length: nat): nat
    requires offset <= length
  {
    (length - offset + GROUP_SIZE - 1) / GROUP_SIZE
  }

  lemma MissingInNumbers(size: nat, length: nat)
    ensures var start := if size - size % 65536 <= length then size - size % 65536 else length - length % 65536;
            ResumeAt(size, length) == start && Missing(start, length) == (length - start + 65535) / 65536
  {
  }

  lemma MissingOneLess(offset: nat, length: nat)
    requires offset < length
    ensures Missing(offset + GroupAt(offset, length), length) == Missing(offset, length) - 1 >= 0
    ensures offset % GROUP_SIZE == 0 ==> (offset + GroupAt(offset, length)) % GROUP_SIZE == 0 || offset + GroupAt(offset, length) == length
  {
  }

  /** The file being downloaded, with everything it ever held. */
  class Target {
    var data: Bytes
    ghost var states: seq<Bytes>

    constructor (data: Bytes)
      ensures this.data == data && states == [data]
    {
      this.data, states := data, [data];
    }

    method Put(d: Bytes)
      modifies this
      ensures data == d && states == old(states) + [d]
    {
      data, states := d, states + [d];
    }
  }

  /** Every state from `n` on is a prefix of the segment. */
  ghost predicate AuthenticSince(states: seq<Bytes>, n: nat, segment: Bytes) {
    forall i | n <= i < |states| :: states[i] <= segment
  }

  /** What the download cost. */
  datatype Cost = Cost(iterations: nat, opens: nat, readCount: nat, ranges: nat)

  /** Three passes for each group done, two requests for each pass. */
  predicate Affordable(c: Cost, done: int, attempts: nat) {
    c.iterations <= 3 * done + attempts && c.opens + c.ranges <= 2 * c.iterations
  }

  lemma GroupFits(offset: nat, length: nat)
    requires offset < length
    ensures 0 < GroupAt(offset, length) <= length - offset
  {
  }

  lemma NoneMissing(length: nat)
    ensures Missing(length, length) == 0
  {
  }

  /** The network keeps streams open and answers every range honestly; what it streams
      may still be anything. */
  ghost predicate RangesHonestly(net: Network, segment: Bytes) {
    && (forall n :: net.open(n) == Stream)
    && (forall n :: |net.read(n)| >= GROUP_SIZE)
    && (forall n, offset: nat, want: nat | offset + want <= |segment| ::
          net.range(n, offset, want) == Some(segment[offset..offset + want]))
  }

  /** Fetches one group on the side and proves it. */
  method RepairGroup(net: Network, verify: Verifier, n: nat, offset: nat, want: nat) returns (group: Option<Bytes>)
    ensures group.Some? ==> |group.value| == want && verify(group.value, offset)
    ensures group.None? <==> (net.range(n, offset, want).None? || |net.range(n, offset, want).value| < want ||
                              !verify(net.range(n, offset, want).value[..want], offset))
  {
    var r := net.range(n, offset, want);
    if r.None? || |r.value| < want {
      return None;
    }
    if !verify(r.value[..want], offset) {
      return None;
    }
    group := Some(r.value[..want]);
  }

  /** What one pass of the loop comes to. */
  datatype Pass = Group(bytes: Bytes) | Again | Stop(error: ErrorCode)

  /** One pass: make sure of a stream, read a group, prove or repair it. */
  method FetchGroup(net: Network, verify: Verifier, offset: nat, want: nat, open0: bool, c0: Cost)
    returns (p: Pass, open: bool, c: Cost)
    ensures p.Group? ==> |p.bytes| == want && verify(p.bytes, offset)
    ensures c.iterations == c0.iterations + 1
    ensures c.opens + c.ranges <= c0.opens + c0.ranges + 2
    ensures forall segment: Bytes ::
              offset < |segment| && offset % GROUP_SIZE == 0 && want == GroupAt(offset, |segment|) && RangesHonestly(net, segment) && CompleteFor(verify, segment) ==>
              p.Group? && open && c.opens == c0.opens + (if open0 then 0 else 1)
  {
    open, c := open0, c0.(iterations := c0.iterations + 1);
    if !open {
      c := c.(opens := c.opens + 1);
      match net.open(c0.opens) {
        case Failed(error) =>
          return if error == NetworkError then Again else Stop(error), false, c;
        case Stream =>
          open := true;
      }
    }
    var buf := net.read(c.readCount);
    c := c.(readCount := c.readCount + 1);
    if |buf| < want {
      return Again, false, c;
    }
    if verify(buf[..want], offset) {
      return Group(buf[..want]), open, c;
    }
    var repaired := RepairGroup(net, verify, c.ranges, offset, want);
    c := c.(ranges := c.ranges + 1);
    forall segment: Bytes |
        offset < |segment| && offset % GROUP_SIZE == 0 && want == GroupAt(offset, |segment|) &&
        RangesHonestly(net, segment) && CompleteFor(verify, segment)
      ensures repaired.Some?
    {
      assert segment[offset..offset + want][..want] == segment[offset..offset + want];
    }
    p := if repaired.Some? then Group(repaired.value) else Again;
  }

  /** Downloads group by group. The file is never anything but a prefix of the
      authentic segment, success means the whole segment, and the cost per missing
      group is bounded. With honest range answers a corrupt stream does not fail the
      download, and the stream is opened once. */
  method FetchVerified(net: Network, verify: Verifier, offer: Offer, f: Target, ghost segment: Bytes)
    returns (failure: Option<ErrorCode>, c: Cost)
    requires SoundFor(verify, segment) && offer.length == |segment|
    requires f.data[..ResumeAt(|f.data|, offer.length)] <= segment
    modifies f
    ensures f.data <= segment && (failure.None? <==> f.data == segment)
    ensures |f.states| > |old(f.states)| && AuthenticSince(f.states, |old(f.states)|, segment)
    ensures var missing := Missing(ResumeAt(|old(f.data)|, offer.length), offer.length);
            c.iterations <= 3 * missing && c.opens + c.ranges <= 6 * missing
    ensures var size := |old(f.data)|;
            var start := if size - size % 65536 <= offer.length then size - size % 65536 else offer.length - offer.length % 65536;
            var missing := (offer.length - start + 65535) / 65536;
            c.iterations <= 3 * missing && c.opens + c.ranges <= 6 * missing
    ensures RangesHonestly(net, segment) && CompleteFor(verify, segment) ==> failure.None? && c.opens <= 1
  {
    hide RangesHonestly, CompleteFor, SoundFor, Missing, GroupAt;
    MissingInNumbers(|f.data|, offer.length);
    var offset := ResumeAt(|f.data|, offer.length);
    ghost var missing := Missing(offset, offer.length);
    f.Put(f.data[..offset]);
    var open, attempts := false, 0;
    c := Cost(0, 0, 0, 0);
    while offset < offer.length
      invariant offset <= offer.length && attempts <= MAX_ATTEMPTS && (offset % GROUP_SIZE == 0 || offset == offer.length)
      invariant offset == offer.length ==> attempts == 0
      invariant |f.data| == offset && f.data <= segment
      invariant |f.states| > |old(f.states)| && AuthenticSince(f.states, |old(f.states)|, segment)
      invariant Affordable(c, missing - Missing(offset, offer.length), attempts)
      invariant RangesHonestly(net, segment) && CompleteFor(verify, segment) ==> attempts == 0 && c.opens == if open then 1 else 0
      decreases offer.length - offset, MAX_ATTEMPTS - attempts
    {
      MissingOneLess(offset, offer.length);
      if attempts >= MAX_ATTEMPTS {
        return Some(HashMismatch), c;
      }
      GroupFits(offset, offer.length);
      var want := GroupAt(offset, offer.length);
      var p: Pass;
      p, open, c := FetchGroup(net, verify, offset, want, open, c);
      if p.Stop? {
        return Some(p.error), c;
      }
      if p.Again? {
        attempts := attempts + 1;
      } else {
        OnlyAuthentic(verify, segment, p.bytes, offset);
        assert f.data + p.bytes <= segment;
        f.Put(f.data + p.bytes);
        offset, attempts := offset + want, 0;
      }
    }
    NoneMissing(offer.length);
    failure := None;
  }

  lemma OnlyAuthentic(verify: Verifier, segment: Bytes, group: Bytes, offset: nat)
    requires SoundFor(verify, segment) && verify(group, offset)
    ensures offset + |group| <= |segment| && segment[offset..offset + |group|] == group
  {
  }

  // Without a verification tree

  /** What the network delivers to one whole-segment attempt: a refusal, or bytes and
      whether the stream broke off after them. */
  datatype Delivery = Refused(error: ErrorCode) | Delivered(bytes: Bytes, broken: bool)

  /** What an attempt keeps of the file on disk: a file longer than the segment is dropped. */
  function Kept(f: Option<Bytes>, length: nat): Bytes {
    if f.Some? && |f.value| <= length then f.value else []
  }

  /** Nothing on disk can stand for the empty segment: without a file, opening the
      target to hash it fails, and nothing is ever requested. */
  predicate Hashable(f: Option<Bytes>, length: nat) {
    length > 0 || f == Some([])
  }

  /** Honest attempts from offset `n` of the segment: the network may fail, and a
      stream may break off, but what arrives is the segment's, and some attempt ends it. */
  predicate Resumes(segment: Bytes, n: nat, deliveries: seq<Delivery>)
    requires n <= |segment|
    decreases |deliveries|
  {
    || n == |segment|
    || (deliveries != [] &&
        match deliveries[0]
        case Refused(error) => error == NetworkError && Resumes(segment, n, deliveries[1..])
        case Delivered(bytes, broken) =>
          && bytes <= segment[n..]
          && if broken then |deliveries| > 1 && Resumes(segment, n + |bytes|, deliveries[1..])
             else n + |bytes| == |segment|)
  }

  predicate Authentic(offer: Offer, segment: Bytes) {
    |segment| == offer.length && offer.digest == Blake3(segment)
  }

  /** From what is on disk, honest attempts lead to the segment. */
  predicate Completable(offer: Offer, segment: Bytes, f: Option<Bytes>, deliveries: seq<Delivery>) {
    var kept := Kept(f, offer.length);
    Authentic(offer, segment) && kept <= segment && Resumes(segment, |kept|, deliveries)
  }

  /** A first answer that completes what is kept is an honest attempt. */
  lemma FirstAnswerCompletes(offer: Offer, f: Option<Bytes>, rest: Bytes, deliveries: seq<Delivery>)
    requires deliveries != [] && deliveries[0] == Delivered(rest, false) && Authentic(offer, Kept(f, offer.length) + rest)
    ensures Completable(offer, Kept(f, offer.length) + rest, f, deliveries)
  {
    var kept := Kept(f, offer.length);
    assert (kept + rest)[|kept|..] == rest;
  }

  /** One attempt: resume what is kept, then check length and digest. `again` asks for
      another attempt; `deliveries` starts with this attempt's answer. */
  method AttemptSegment(offer: Offer, f0: Option<Bytes>, deliveries: seq<Delivery>)
    returns (f: Option<Bytes>, again: bool, failure: Option<ErrorCode>)
    requires deliveries != []
    ensures !again && failure.None? ==> f.Some? && Authentic(offer, f.value)
    ensures forall segment: Bytes | Completable(offer, segment, f0, deliveries) && Hashable(f0, offer.length) ::
              if again then Completable(offer, segment, f, deliveries[1..]) && Hashable(f, offer.length)
              else failure.None? && f == Some(segment)
    ensures f0.Some? && Authentic(offer, f0.value) ==> !again && failure.None? && f == f0
    ensures !Hashable(f0, offer.length) ==> !again && failure == Some(DestinationExists)
    ensures again ==> Hashable(f0, offer.length) && (|deliveries| == 1 ==> f.None?)
  {
    hide Resumes;
    var last := |deliveries| == 1;
    f, again, failure := f0, false, None;
    if f.Some? && |f.value| > offer.length {
      f := None;
    }
    var offset := if f.Some? then |f.value| else 0;
    assert offset == |Kept(f0, offer.length)|;
    forall segment: Bytes | Completable(offer, segment, f0, deliveries)
      ensures offset < offer.length ==> Helps(segment, offset, deliveries)
    {
      ResumesHelps(segment, offset, deliveries);
    }
    if offset < offer.length {
      var d := deliveries[0];
      if d.Refused? {
        again := d.error == NetworkError && !last;
        failure := if again then None else Some(d.error);
        return;
      }
      f := Some((if f.Some? then f.value else []) + d.bytes);
      if d.broken {
        again := !last;
        failure := if again then None else Some(NetworkError);
        return;
      }
    }
    if f.None? {
      return f, false, Some(DestinationExists);
    }
    if !Authentic(offer, f.value) {
      f, again := None, true;
    }
  }

  /** What an honest answer contributes. */
  predicate Helps(segment: Bytes, n: nat, deliveries: seq<Delivery>)
    requires n < |segment| && deliveries != []
  {
    match deliveries[0]
    case Refused(error) => error == NetworkError && |deliveries| > 1 && Resumes(segment, n, deliveries[1..])
    case Delivered(bytes, broken) =>
      && bytes <= segment[n..]
      && segment[..n] + bytes == segment[..n + |bytes|]
      && if broken then |deliveries| > 1 && Resumes(segment, n + |bytes|, deliveries[1..])
         else n + |bytes| == |segment|
  }

  lemma ResumesHelps(segment: Bytes, n: nat, deliveries: seq<Delivery>)
    requires n <= |segment| && Resumes(segment, n, deliveries) && deliveries != []
    ensures n < |segment| ==> Helps(segment, n, deliveries)
  {
    if n < |segment| && deliveries[0].Delivered? {
      var bytes := deliveries[0].bytes;
      assert bytes == segment[n..][..|bytes|];
      assert segment[..n] + segment[n..][..|bytes|] == segment[..n + |bytes|];
    }
  }

  /** Without a file and without another attempt there is nothing to hope for. */
  lemma NothingLeft(offer: Offer, segment: Bytes)
    ensures !(Completable(offer, segment, None, []) && Hashable(None, offer.length))
  {
  }

  /** Downloads the segment and checks its digest at the end. Whatever was on disk
      before and whatever arrives, no error means the authentic bytes. When honest
      attempts complete what is kept, the download succeeds exactly when the segment is
      not empty or an empty file is there already. `f` is `None` while the file does not
      exist. */
  method FetchSegment(offer: Offer, f0: Option<Bytes>, deliveries: seq<Delivery>) returns (f: Option<Bytes>, failure: Option<ErrorCode>)
    requires |deliveries| == 3
    ensures failure.None? ==> f.Some? && |f.value| == offer.length && Blake3(f.value) == offer.digest
    ensures forall segment: Bytes | Completable(offer, segment, f0, deliveries) ::
              && (failure.None? <==> Hashable(f0, offer.length))
              && (failure.None? ==> f == Some(segment))
    ensures forall rest: Bytes | deliveries[0] == Delivered(rest, false) && Authentic(offer, Kept(f0, offer.length) + rest) ::
              && (failure.None? <==> Hashable(f0, offer.length))
              && (failure.None? ==> f == Some(Kept(f0, offer.length) + rest))
    ensures f0.Some? && Authentic(offer, f0.value) ==> failure.None? && f == f0
    ensures !Hashable(f0, offer.length) ==> failure == Some(DestinationExists)
  {
    forall rest: Bytes | deliveries[0] == Delivered(rest, false) && Authentic(offer, Kept(f0, offer.length) + rest)
      ensures Completable(offer, Kept(f0, offer.length) + rest, f0, deliveries)
    {
      FirstAnswerCompletes(offer, f0, rest, deliveries);
    }
    f := f0;
    var again := true;
    for attempt := 0 to MAX_ATTEMPTS
      invariant attempt == 0 ==> f == f0
      invariant attempt == MAX_ATTEMPTS ==> f.None?
      invariant attempt > 0 ==> Hashable(f0, offer.length) && !(f0.Some? && Authentic(offer, f0.value))
      invariant forall segment: Bytes | Completable(offer, segment, f0, deliveries) && Hashable(f0, offer.length) ::
                  Completable(offer, segment, f, deliveries[attempt..]) && Hashable(f, offer.length)
    {
      hide Completable, Kept, Resumes, Hashable;
      assert deliveries[attempt..][1..] == deliveries[attempt + 1..];
      f, again, failure := AttemptSegment(offer, f, deliveries[attempt..]);
      if !again {
        return;
      }
    }
    forall segment: Bytes
      ensures !(Completable(offer, segment, f0, deliveries) && Hashable(f0, offer.length))
    {
      NothingLeft(offer, segment);
      assert deliveries[MAX_ATTEMPTS..] == [];
    }
    failure := Some(HashMismatch);
  }
}
