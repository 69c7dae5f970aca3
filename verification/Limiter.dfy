/** The limiter for failed sign-ins: a token bucket per client address, refilled by
    time and drained by failures. Time is in minutes and tokens are real numbers. */
module Limiting {

  datatype Bucket = Bucket(tokens: real, last: real)

  type Buckets = map<string, Bucket>

  const DEFAULT_PER_MINUTE := 20
  const MAX_BUCKETS := 4096
  const IDLE_MINUTES := 10.0

  function Min(a: real, b: real): real { if a < b then a else b }

  /** The tokens a bucket holds at `t`. */
  function Refilled(rate: real, b: Bucket, t: real): real {
    Min(rate, b.tokens + (t - b.last) * rate)
  }

  /** What a key may spend at `t`; a key without a bucket may spend a full one. */
  function Level(rate: real, buckets: Buckets, key: string, t: real): real {
    if key in buckets then Refilled(rate, buckets[key], t) else rate
  }

  predicate BucketOK(rate: real, b: Bucket, now: real) {
    0.0 <= b.tokens <= rate && b.last <= now
  }

  predicate BucketsOK(rate: real, buckets: Buckets, now: real) {
    forall key | key in buckets :: BucketOK(rate, buckets[key], now)
  }

  // Refilling

  lemma NotNegative(a: real, b: real)
    requires 0.0 <= a && 0.0 <= b
    ensures 0.0 <= a * b
  {
  }

  lemma Grow(rate: real, d: real, e: real)
    requires rate > 0.0 && d <= e
    ensures d * rate <= e * rate
  {
    NotNegative(e - d, rate);
    assert (e - d) * rate == e * rate - d * rate;
  }

  /** Refilling in two steps is refilling once. */
  lemma RefillTwice(rate: real, b: Bucket, now: real, t: real)
    requires rate > 0.0 && b.last <= now <= t
    ensures Refilled(rate, Bucket(Refilled(rate, b, now), now), t) == Refilled(rate, b, t)
  {
    assert (now - b.last) * rate + (t - now) * rate == (t - b.last) * rate;
    Grow(rate, 0.0, t - now);
  }

  /** A full bucket stays full. */
  lemma FullStaysFull(rate: real, now: real, t: real)
    requires rate > 0.0 && now <= t
    ensures Refilled(rate, Bucket(rate, now), t) == rate
  {
    Grow(rate, 0.0, t - now);
  }

  /** Ten idle minutes refill any bucket, so forgetting it shows nowhere. */
  lemma IdleIsFull(rate: real, b: Bucket, now: real, t: real)
    requires rate > 0.0 && BucketOK(rate, b, now) && now - b.last > IDLE_MINUTES && now <= t
    ensures Refilled(rate, b, t) == rate
  {
    Grow(rate, 1.0, t - b.last);
  }

  lemma RefillRises(rate: real, b: Bucket, now: real, t: real)
    requires rate > 0.0 && BucketOK(rate, b, now) && now <= t
    ensures 0.0 <= Refilled(rate, b, now) <= Refilled(rate, b, t) <= rate
    ensures Refilled(rate, b, t) <= Refilled(rate, b, now) + (t - now) * rate
  {
    var x, y := (now - b.last) * rate, (t - now) * rate;
    NotNegative(now - b.last, rate);
    NotNegative(t - now, rate);
    assert x + y == (t - b.last) * rate;
  }

  /** Two sets of buckets no future request can tell apart. */
  ghost predicate SameLevels(rate: real, a: Buckets, b: Buckets, now: real) {
    forall key: string, t: real | now <= t :: Level(rate, a, key, t) == Level(rate, b, key, t)
  }

  // One key's record

  /** An attempt that was let through: still open, found wrong at some time, or found
      right. */
  datatype Turn = Open | Wrong(told: real) | Right

  function Told(wrong: bool, t: real): Turn { if wrong then Wrong(t) else Right }

  datatype Asked = Asked(at: real, turn: Turn)

  type Log = seq<Asked>

  function One(b: bool): nat { if b then 1 else 0 }

  /** Attempts let through and not answered yet. */
  function Opens(log: Log): nat {
    if log == [] then 0 else Opens(log[..|log| - 1]) + One(log[|log| - 1].turn.Open?)
  }

  /** Failures of attempts that asked at `s` or later. */
  function Wrongs(log: Log, s: real): nat {
    if log == [] then 0
    else Wrongs(log[..|log| - 1], s) + One(log[|log| - 1].turn.Wrong? && s <= log[|log| - 1].at)
  }

  /** Failures of attempts that asked from `s` to `e`. */
  function Failures(log: Log, s: real, e: real): nat {
    if log == [] then 0
    else Failures(log[..|log| - 1], s, e) + One(log[|log| - 1].turn.Wrong? && s <= log[|log| - 1].at <= e)
  }

  /** Failures of attempts that asked from `s` to `e`, and attempts that may still fail. */
  function Charges(log: Log, s: real, e: real): nat {
    if log == [] then 0
    else Charges(log[..|log| - 1], s, e) + One(!log[|log| - 1].turn.Right? && s <= log[|log| - 1].at <= e)
  }

  lemma {:induction false} CountsBounded(log: Log, s: real, e: real)
    ensures Failures(log, s, e) <= Charges(log, s, e) <= Wrongs(log, s) + Opens(log)
  {
    if log != [] {
      CountsBounded(log[..|log| - 1], s, e);
    }
  }

  lemma {:induction false} NoneLater(log: Log, s: real, last: real)
    requires (forall i | 0 <= i < |log| :: log[i].at <= last) && last < s
    ensures Wrongs(log, s) == 0
  {
    if log != [] {
      NoneLater(log[..|log| - 1], s, last);
    }
  }

  /** A window that ends after the last question counts no more than one that ends there. */
  lemma {:induction false} WindowEnds(log: Log, s: real, e: real, last: real)
    requires (forall i | 0 <= i < |log| :: log[i].at <= last) && last <= e
    ensures Charges(log, s, e) == Charges(log, s, last)
  {
    if log != [] {
      WindowEnds(log[..|log| - 1], s, e, last);
    }
  }

  lemma CountsAppend(log: Log, x: Asked)
    requires x.turn.Open?
    ensures Opens(log + [x]) == Opens(log) + 1
    ensures forall s: real :: Wrongs(log + [x], s) == Wrongs(log, s)
    ensures forall s: real, e: real :: Charges(log + [x], s, e) == Charges(log, s, e) + One(s <= x.at <= e)
  {
    assert (log + [x])[..|log|] == log;
  }

  /** An answer closes an attempt. */
  lemma {:induction false} CountsUpdate(log: Log, i: nat, turn: Turn, s: real, e: real)
    requires i < |log| && log[i].turn.Open? && !turn.Open?
    ensures var after := log[i := log[i].(turn := turn)];
            && Opens(after) == Opens(log) - 1
            && Wrongs(after, s) == Wrongs(log, s) + One(turn.Wrong? && s <= log[i].at)
            && Failures(after, s, e) == Failures(log, s, e) + One(turn.Wrong? && s <= log[i].at <= e)
            && Charges(after, s, e) <= Charges(log, s, e)
  {
    var n := |log| - 1;
    var after := log[i := log[i].(turn := turn)];
    if i == n {
      assert after[..n] == log[..n];
    } else {
      assert after[..n] == log[..n][i := log[i].(turn := turn)];
      CountsUpdate(log[..n], i, turn, s, e);
    }
  }

  // When failures are recorded

  /** Failures recorded from `s` to `e`, whenever their attempts asked. */
  function Recorded(log: Log, s: real, e: real): nat {
    if log == [] then 0
    else Recorded(log[..|log| - 1], s, e) + One(log[|log| - 1].turn.Wrong? && s <= log[|log| - 1].turn.told <= e)
  }

  /** Attempts that asked before `s` and were not answered before `s`, unless rightly. */
  function Pending(log: Log, s: real): nat {
    if log == [] then 0
    else Pending(log[..|log| - 1], s) + One(Spans(log[|log| - 1], s))
  }

  predicate Spans(x: Asked, s: real) {
    x.at < s && (x.turn.Open? || (x.turn.Wrong? && s <= x.turn.told))
  }

  /** Never more attempts than `peak` were open at once; answers follow questions. */
  ghost predicate SpansOK(log: Log, peak: nat, now: real) {
    && (forall i | 0 <= i < |log| :: log[i].at <= now && (log[i].turn.Wrong? ==> log[i].at <= log[i].turn.told <= now))
    && Opens(log) <= peak
    && forall s: real :: Pending(log, s) <= peak
  }

  lemma {:induction false} PendingLater(log: Log, s: real, now: real)
    requires (forall i | 0 <= i < |log| :: log[i].turn.Wrong? ==> log[i].turn.told <= now) && now < s
    ensures Pending(log, s) <= Opens(log)
  {
    if log != [] {
      PendingLater(log[..|log| - 1], s, now);
    }
  }

  lemma SpansLater(log: Log, peak: nat, now: real, t: real)
    requires SpansOK(log, peak, now) && now <= t
    ensures SpansOK(log, peak, t)
  {
    hide Opens, Pending;
  }

  lemma SpansAsked(log: Log, peak: nat, now: real, high: nat)
    requires SpansOK(log, peak, now) && peak <= high && Opens(log) + 1 <= high
    ensures SpansOK(log + [Asked(now, Open)], high, now)
  {
    hide Opens;
    var x := Asked(now, Open);
    var after := log + [x];
    CountsAppend(log, x);
    assert after[..|log|] == log;
    forall s: real
      ensures Pending(after, s) <= high
    {
      assert Pending(after, s) == Pending(log, s) + One(Spans(x, s));
      if now < s {
        PendingLater(log, s, now);
      }
    }
  }

  lemma {:induction false} PendingUpdate(log: Log, i: nat, turn: Turn, s: real)
    requires i < |log| && log[i].turn.Open? && !turn.Open?
    ensures Pending(log[i := log[i].(turn := turn)], s) <= Pending(log, s)
  {
    var n := |log| - 1;
    var after := log[i := log[i].(turn := turn)];
    if i == n {
      assert after[..n] == log[..n];
    } else {
      assert after[..n] == log[..n][i := log[i].(turn := turn)];
      PendingUpdate(log[..n], i, turn, s);
    }
  }

  lemma SpansAnswered(log: Log, peak: nat, now: real, i: nat, wrong: bool)
    requires SpansOK(log, peak, now) && i < |log| && log[i].turn.Open?
    ensures SpansOK(log[i := log[i].(turn := Told(wrong, now))], peak, now)
  {
    hide Opens, Pending;
    var turn := Told(wrong, now);
    var after := log[i := log[i].(turn := turn)];
    CountsUpdate(log, i, turn, 0.0, 0.0);
    forall s: real
      ensures Pending(after, s) <= peak
    {
      PendingUpdate(log, i, turn, s);
    }
  }

  /** A failure recorded in a window asked in it or was open when it began. */
  lemma {:induction false} RecordedSplit(log: Log, s: real, e: real)
    requires forall i | 0 <= i < |log| :: log[i].turn.Wrong? ==> log[i].at <= log[i].turn.told
    ensures Recorded(log, s, e) <= Failures(log, s, e) + Pending(log, s)
  {
    if log != [] {
      RecordedSplit(log[..|log| - 1], s, e);
    }
  }

  // How many failures may still come

  function Max(a: real, b: real): real { if a < b then b else a }

  /** A product, kept apart from the linear arithmetic of the proofs. */
  function Times(a: real, b: real): real { a * b }

  lemma TimesLe(a: real, b: real, z: real)
    requires 0.0 <= z && a <= b
    ensures Times(a, z) <= Times(b, z)
  {
    NotNegative(b - a, z);
    assert (b - a) * z == b * z - a * z;
  }

  lemma TimesMinus(a: real, b: real, z: real)
    ensures Times(b - a, z) == Times(b, z) - Times(a, z)
  {
  }

  lemma TimesUnit(z: real)
    ensures Times(1.0, z) == z && Times(0.0, z) == 0.0
  {
  }

  lemma TokensCost(d: real, z: real)
    requires 1.0 <= z && 0.0 <= d
    ensures d <= Times(d, z)
  {
    NotNegative(d, z - 1.0);
    assert d * (z - 1.0) == d * z - d;
  }

  lemma PartCosts(y: real, z: real)
    requires 1.0 <= z && 0.0 <= y <= 1.0
    ensures Times(y, z) <= y + z - 1.0
  {
    NotNegative(1.0 - y, z - 1.0);
    assert (1.0 - y) * (z - 1.0) == z - 1.0 - y * z + y;
  }

  /** With at most `k` attempts open at once, the failures that a bucket of `x` tokens
      and `q` open attempts can still lead to before it is refilled. Below one token only
      the open ones are left, but a refill up to one token would let `k` through. */
  function Threat(k: nat, x: real, q: nat): real {
    if x >= 1.0 then x + k as real - 1.0 else Max(Times(x, k as real), q as real)
  }

  /** What a window of `t` minutes allows. */
  function Allowance(rate: real, k: nat, t: real): real {
    rate + (k as real - 1.0) + Times(Times(t, rate), k as real)
  }

  lemma ThreatBounds(rate: real, k: nat, x: real, q: nat)
    requires 1 <= k && q <= k && 0.0 <= x <= rate && rate >= 1.0
    ensures q as real <= Threat(k, x, q) <= rate + k as real - 1.0
  {
    hide Times;
    var z := k as real;
    if x < 1.0 {
      TimesLe(x, 1.0, z);
      TimesUnit(z);
    }
  }

  /** A refill adds at most `k` failures for each token. */
  lemma ThreatRises(k: nat, x: real, y: real, q: nat)
    requires 1 <= k && q <= k && 0.0 <= x <= y
    ensures Threat(k, y, q) <= Threat(k, x, q) + Times(y - x, k as real)
  {
    hide Times;
    var z := k as real;
    TimesMinus(x, y, z);
    TimesLe(x, y, z);
    if y < 1.0 {
    } else if x < 1.0 {
      TimesMinus(1.0, y, z);
      TimesUnit(z);
      TokensCost(y - 1.0, z);
    } else {
      TokensCost(y - x, z);
    }
  }

  /** A failure takes itself out of the threat. */
  lemma ThreatSpent(k: nat, x: real, q: nat)
    requires 1 <= q <= k && 0.0 <= x
    ensures Threat(k, Max(0.0, x - 1.0), q - 1) + 1.0 <= Threat(k, x, q)
  {
    hide Times;
    var z := k as real;
    TimesUnit(z);
    if 1.0 <= x < 2.0 {
      PartCosts(x - 1.0, z);
    }
  }

  /** A right answer only lowers the threat. */
  lemma ThreatAnswered(k: nat, x: real, q: nat)
    requires q >= 1
    ensures Threat(k, x, q - 1) <= Threat(k, x, q)
  {
    hide Times;
  }

  lemma AllowanceGrows(rate: real, k: nat, t: real, u: real)
    requires rate > 0.0 && t <= u
    ensures Allowance(rate, k, t) <= Allowance(rate, k, u)
    ensures Allowance(rate, k, u) == Allowance(rate, k, t) + Times(Times(u - t, rate), k as real)
  {
    hide Times;
    TimesLe(t, u, rate);
    TimesLe(Times(t, rate), Times(u, rate), k as real);
    TimesMinus(t, u, rate);
    TimesMinus(Times(t, rate), Times(u, rate), k as real);
  }

  lemma AllowedAtOnce(rate: real, k: nat)
    ensures Allowance(rate, k, 0.0) == rate + k as real - 1.0
  {
  }

  // What is kept for each key

  /** What has failed since `s` and what still threatens stay within the allowance. */
  predicate Covered(rate: real, k: nat, b: Bucket, log: Log, s: real) {
    Wrongs(log, s) as real + Threat(k, b.tokens, Opens(log)) <= Allowance(rate, k, b.last - s)
  }

  predicate WindowOK(rate: real, k: nat, log: Log, s: real, e: real) {
    Charges(log, s, e) as real <= Allowance(rate, k, e - s)
  }

  ghost predicate AllCovered(rate: real, b: Bucket, log: Log, peak: nat) {
    forall k: nat, s: real | 1 <= k && peak <= k && s <= b.last :: Covered(rate, k, b, log, s)
  }

  ghost predicate AllWindowsOK(rate: real, log: Log, peak: nat) {
    forall k: nat, s: real, e: real | 1 <= k && peak <= k && s <= e :: WindowOK(rate, k, log, s, e)
  }

  /** `peak` bounds the attempts that were ever open at once. */
  ghost predicate KeyOK(rate: real, b: Bucket, log: Log, peak: nat) {
    && rate >= 1.0 && 0.0 <= b.tokens <= rate
    && (forall i | 0 <= i < |log| :: log[i].at <= b.last)
    && Opens(log) <= peak
    && AllCovered(rate, b, log, peak)
    && AllWindowsOK(rate, log, peak)
  }

  /** A key without a bucket has a full one. */
  function BucketOf(rate: real, buckets: Buckets, key: string, now: real): Bucket {
    if key in buckets then buckets[key] else Bucket(rate, now)
  }

  lemma FreshKey(rate: real, now: real)
    requires rate >= 1.0
    ensures KeyOK(rate, Bucket(rate, now), [], 0)
  {
    forall k: nat, s: real | 1 <= k && s <= now
      ensures Covered(rate, k, Bucket(rate, now), [], s)
    {
      AllowanceGrows(rate, k, 0.0, now - s);
      ThreatBounds(rate, k, rate, 0);
    }
    forall k: nat, s: real, e: real | 1 <= k && s <= e
      ensures WindowOK(rate, k, [], s, e)
    {
      AllowanceGrows(rate, k, 0.0, e - s);
    }
  }

  /** Time passes, the bucket fills at most at its rate. */
  lemma CoveredLater(rate: real, b: Bucket, c: Bucket, log: Log, peak: nat, k: nat, s: real)
    requires KeyOK(rate, b, log, peak) && 1 <= k && peak <= k && s <= c.last
    requires b.last <= c.last && b.tokens <= c.tokens <= rate && c.tokens <= b.tokens + Times(c.last - b.last, rate)
    ensures Covered(rate, k, c, log, s)
  {
    hide AllWindowsOK, Threat, Wrongs, Allowance, Times;
    var q := Opens(log);
    if s <= b.last {
      assert Covered(rate, k, b, log, s);
      ThreatRises(k, b.tokens, c.tokens, q);
      AllowanceGrows(rate, k, b.last - s, c.last - s);
      TimesLe(c.tokens - b.tokens, Times(c.last - b.last, rate), k as real);
    } else {
      NoneLater(log, s, b.last);
      ThreatBounds(rate, k, c.tokens, q);
      AllowanceGrows(rate, k, 0.0, c.last - s);
      AllowedAtOnce(rate, k);
    }
  }

  lemma KeyLater(rate: real, b: Bucket, c: Bucket, log: Log, peak: nat)
    requires KeyOK(rate, b, log, peak)
    requires b.last <= c.last && b.tokens <= c.tokens <= rate && c.tokens <= b.tokens + Times(c.last - b.last, rate)
    ensures KeyOK(rate, c, log, peak)
  {
    hide Covered, WindowOK;
    forall k: nat, s: real | 1 <= k && peak <= k && s <= c.last
      ensures Covered(rate, k, c, log, s)
    {
      CoveredLater(rate, b, c, log, peak, k, s);
    }
  }

  /** An attempt let through at the bucket's time. */
  lemma KeyAsked(rate: real, b: Bucket, log: Log, peak: nat, high: nat)
    requires KeyOK(rate, b, log, peak) && b.tokens >= 1.0 && peak <= high && Opens(log) + 1 <= high
    ensures KeyOK(rate, b, log + [Asked(b.last, Open)], high)
  {
    hide Threat, Allowance, Wrongs, Charges, Opens;
    var x := Asked(b.last, Open);
    var after := log + [x];
    CountsAppend(log, x);
    forall k: nat, s: real | 1 <= k && high <= k && s <= b.last
      ensures Covered(rate, k, b, after, s)
    {
      assert Covered(rate, k, b, log, s);
      AskedThreat(k, b.tokens, Opens(log));
    }
    forall k: nat, s: real, e: real | 1 <= k && high <= k && s <= e
      ensures WindowOK(rate, k, after, s, e)
    {
      if s <= b.last <= e {
        assert Covered(rate, k, b, after, s);
        WindowEnds(after, s, e, b.last);
        CountsBounded(after, s, b.last);
        ThreatBounds(rate, k, b.tokens, Opens(after));
        AllowanceGrows(rate, k, b.last - s, e - s);
      } else {
        assert WindowOK(rate, k, log, s, e);
      }
    }
  }

  lemma AskedThreat(k: nat, x: real, q: nat)
    requires x >= 1.0
    ensures Threat(k, x, q + 1) == Threat(k, x, q)
  {
  }

  /** An answered attempt; a wrong one is charged to the bucket. */
  lemma KeyAnswered(rate: real, b: Bucket, log: Log, peak: nat, i: nat, wrong: bool, t: real)
    requires KeyOK(rate, b, log, peak) && i < |log| && log[i].turn.Open?
    ensures KeyOK(rate, if wrong then Spent(b) else b, log[i := log[i].(turn := Told(wrong, t))], peak)
  {
    hide Threat, Allowance, Wrongs, Charges, Opens, Failures;
    var turn := Told(wrong, t);
    var c := if wrong then Spent(b) else b;
    var after := log[i := log[i].(turn := turn)];
    CountsUpdate(log, i, turn, 0.0, 0.0);
    forall k: nat, s: real | 1 <= k && peak <= k && s <= b.last
      ensures Covered(rate, k, c, after, s)
    {
      assert Covered(rate, k, b, log, s);
      CountsUpdate(log, i, turn, s, 0.0);
      if wrong {
        ThreatSpent(k, b.tokens, Opens(log));
      } else {
        ThreatAnswered(k, b.tokens, Opens(log));
      }
    }
    forall k: nat, s: real, e: real | 1 <= k && peak <= k && s <= e
      ensures WindowOK(rate, k, after, s, e)
    {
      assert WindowOK(rate, k, log, s, e);
      CountsUpdate(log, i, turn, s, e);
    }
  }

  function Spent(b: Bucket): Bucket {
    Bucket(if b.tokens - 1.0 < 0.0 then 0.0 else b.tokens - 1.0, b.last)
  }

  /** Refilling a bucket now is refilling it later. */
  lemma TopUp(rate: real, earlier: Buckets, found: Buckets, key: string, now: real)
    requires rate > 0.0 && BucketsOK(rate, found, now) && SameLevels(rate, earlier, found, now) && key in found
    ensures var b := Bucket(Refilled(rate, found[key], now), now);
            && b.tokens == Level(rate, earlier, key, now)
            && BucketsOK(rate, found[key := b], now) && SameLevels(rate, earlier, found[key := b], now)
  {
    var b := Bucket(Refilled(rate, found[key], now), now);
    assert BucketOK(rate, found[key], now);
    RefillRises(rate, found[key], now, now);
    assert Level(rate, earlier, key, now) == Level(rate, found, key, now);
    forall t: real | now <= t
      ensures Refilled(rate, found[key], t) == Refilled(rate, b, t)
    {
      RefillTwice(rate, found[key], now, t);
    }
    forall k: string, t: real | now <= t
      ensures Level(rate, earlier, k, t) == Level(rate, found[key := b], k, t)
    {
      assert Level(rate, earlier, k, t) == Level(rate, found, k, t);
    }
  }

  lemma OthersTopUp(rate: real, earlier: Buckets, found: Buckets, key: string, now: real, b: Bucket)
    requires OthersKept(rate, earlier, found, key, now)
    ensures OthersKept(rate, earlier, found[key := b], key, now)
  {
  }

  // The limiter

  /** Nothing of another key's bucket changed, unless ten idle minutes had filled it. */
  predicate OthersKept(rate: real, a: Buckets, b: Buckets, key: string, now: real) {
    && (forall k | k in b && k != key :: k in a && b[k] == a[k])
    && (forall k | k in a && k != key && k !in b :: now - a[k].last > IDLE_MINUTES)
  }

  function LogIn(logs: map<string, Log>, key: string): Log {
    if key in logs then logs[key] else []
  }

  function PeakIn(peaks: map<string, nat>, key: string): nat {
    if key in peaks then peaks[key] else 0
  }

  class Limiter {
    const perMinute: int
    var buckets: Buckets
    var now: real
    /** For the statements: what each key asked, and how many of its attempts were ever
        open at once. */
    ghost var logs: map<string, Log>
    ghost var peaks: map<string, nat>

    ghost function Rate(): real { perMinute as real }

    ghost function LogOf(key: string): Log
      reads this
    {
      LogIn(logs, key)
    }

    ghost function PeakOf(key: string): nat
      reads this
    {
      PeakIn(peaks, key)
    }

    ghost predicate KeyValid(key: string)
      reads this
    {
      KeyOK(Rate(), BucketOf(Rate(), buckets, key, now), LogOf(key), PeakOf(key)) && SpansOK(LogOf(key), PeakOf(key), now)
    }

    ghost predicate Valid()
      reads this
    {
      perMinute > 0 && BucketsOK(Rate(), buckets, now) && forall key: string :: KeyValid(key)
    }

    /** A limit that is not positive stands for the default. */
    constructor (perMinute: int, now: real)
      ensures Valid() && buckets == map[] && logs == map[] && peaks == map[] && this.now == now
      ensures this.perMinute == if perMinute <= 0 then 20 else perMinute
    {
      this.perMinute := if perMinute <= 0 then DEFAULT_PER_MINUTE else perMinute;
      buckets, this.now, logs, peaks := map[], now, map[], map[];
      new;
      FreshKey(Rate(), now);
    }

    method Tick(t: real)
      requires Valid() && now <= t
      modifies this`now
      ensures Valid() && now == t
    {
      hide SpansOK, KeyOK;
      ghost var before := now;
      forall key: string
        ensures KeyOK(Rate(), BucketOf(Rate(), buckets, key, t), LogOf(key), PeakOf(key)) && SpansOK(LogOf(key), PeakOf(key), t)
      {
        assert KeyValid(key);
        SpansLater(LogOf(key), PeakOf(key), before, t);
        WaitingKey(Rate(), buckets, key, before, t, LogOf(key), PeakOf(key));
      }
      forall key | key in buckets
        ensures BucketOK(Rate(), buckets[key], t)
      {
        assert BucketOK(Rate(), buckets[key], before);
      }
      now := t;
    }

    /** Drops every bucket idle for more than ten minutes. No later request can tell. */
    method Evict()
      requires perMinute > 0 && BucketsOK(Rate(), buckets, now)
      modifies this`buckets
      ensures BucketsOK(Rate(), buckets, now) && SameLevels(Rate(), old(buckets), buckets, now)
      ensures buckets == map k | k in old(buckets) && now - old(buckets)[k].last <= 10.0 :: old(buckets)[k]
    {
      buckets := map k | k in buckets && now - buckets[k].last <= IDLE_MINUTES :: buckets[k];
      forall key: string, t: real | now <= t
        ensures Level(Rate(), old(buckets), key, t) == Level(Rate(), buckets, key, t)
      {
        if key in old(buckets) && key !in buckets {
          IdleIsFull(Rate(), old(buckets)[key], now, t);
        }
      }
    }

    /** Makes sure the key has a bucket. A new one among too many drops the idle ones. */
    method FindBucket(key: string)
      requires perMinute > 0 && BucketsOK(Rate(), buckets, now)
      modifies this`buckets
      ensures BucketsOK(Rate(), buckets, now) && SameLevels(Rate(), old(buckets), buckets, now)
      ensures key in buckets && buckets[key] == BucketOf(Rate(), old(buckets), key, now)
      ensures OthersKept(Rate(), old(buckets), buckets, key, now)
      ensures key in old(buckets) || |old(buckets)| <= 4096 ==> forall k | k in old(buckets) :: k in buckets
      ensures key !in old(buckets) && |old(buckets)| > 4096 ==>
                forall k | k in old(buckets) :: k in buckets <==> now - old(buckets)[k].last <= 10.0
    {
      if key !in buckets {
        if |buckets| > MAX_BUCKETS {
          Evict();
        }
        ghost var kept := buckets;
        buckets := buckets[key := Bucket(perMinute as real, now)];
        forall t: real | now <= t
          ensures Level(Rate(), buckets, key, t) == Rate()
        {
          FullStaysFull(Rate(), now, t);
        }
      }
    }

    /** Whether another attempt may be processed. Asking changes what no key may
        spend, now or later. */
    method Allow(key: string) returns (ok: bool)
      requires perMinute > 0 && BucketsOK(Rate(), buckets, now)
      modifies this`buckets
      ensures ok <==> Level(Rate(), old(buckets), key, now) >= 1.0
      ensures BucketsOK(Rate(), buckets, now) && SameLevels(Rate(), old(buckets), buckets, now)
      ensures key in buckets && buckets[key] == Bucket(Level(Rate(), old(buckets), key, now), now)
      ensures OthersKept(Rate(), old(buckets), buckets, key, now)
      ensures key in old(buckets) || |old(buckets)| <= 4096 ==> forall k | k in old(buckets) :: k in buckets
      ensures key !in old(buckets) && |old(buckets)| > 4096 ==>
                forall k | k in old(buckets) :: k in buckets <==> now - old(buckets)[k].last <= 10.0
    {
      hide SameLevels, BucketsOK, Level, OthersKept, Refilled;
      var rate := perMinute as real;
      ghost var earlier := buckets;
      FindBucket(key);
      ghost var found := buckets;
      var tokens := Refilled(rate, buckets[key], now);
      buckets := buckets[key := Bucket(tokens, now)];
      TopUp(rate, earlier, found, key, now);
      OthersTopUp(rate, earlier, found, key, now, Bucket(tokens, now));
      ok := tokens >= 1.0;
    }

    /** Takes a token, never below zero. */
    method Fail(key: string)
      requires perMinute > 0 && BucketsOK(Rate(), buckets, now)
      modifies this`buckets
      ensures BucketsOK(Rate(), buckets, now)
      ensures buckets == old(buckets)[key := Spent(BucketOf(Rate(), old(buckets), key, now))]
    {
      var b := if key in buckets then buckets[key] else Bucket(perMinute as real, now);
      var tokens := b.tokens - 1.0;
      buckets := buckets[key := Bucket(if tokens < 0.0 then 0.0 else tokens, b.last)];
    }

    /** An attempt asks. If it is let through it stays open until it is answered; other
        attempts, of this key too, may ask meanwhile. */
    method Ask(key: string) returns (ok: bool)
      requires Valid()
      modifies this
      ensures Valid() && now == old(now) && (ok <==> Level(Rate(), old(buckets), key, now) >= 1.0)
      ensures SameLevels(Rate(), old(buckets), buckets, now)
      ensures key in buckets && buckets[key] == Bucket(Level(Rate(), old(buckets), key, now), now)
      ensures !ok ==> logs == old(logs) && peaks == old(peaks)
      ensures ok ==>
                && logs == old(logs)[key := old(LogOf(key)) + [Asked(now, Open)]]
                && peaks == old(peaks)[key := MaxNat(old(PeakOf(key)), Opens(old(LogOf(key))) + 1)]
    {
      hide SpansOK, KeyOK, SameLevels, Opens;
      ghost var before, log, peak := buckets, LogOf(key), PeakOf(key);
      forall k: string
        ensures KeyOK(Rate(), BucketOf(Rate(), before, k, now), LogIn(logs, k), PeakIn(peaks, k)) && SpansOK(LogIn(logs, k), PeakIn(peaks, k), now)
      {
        assert KeyValid(k);
      }
      ok := Allow(key);
      forall k: string
        ensures KeyOK(Rate(), BucketOf(Rate(), buckets, k, now), LogIn(logs, k), PeakIn(peaks, k)) && SpansOK(LogIn(logs, k), PeakIn(peaks, k), now)
      {
        assert KeyOK(Rate(), BucketOf(Rate(), before, k, now), LogIn(logs, k), PeakIn(peaks, k)) && SpansOK(LogIn(logs, k), PeakIn(peaks, k), now);
        if k == key {
          AskingKey(Rate(), before, key, now, log, peak);
        } else {
          OtherKey(Rate(), before, buckets, key, k, now, LogOf(k), PeakOf(k));
        }
      }
      assert KeyOK(Rate(), BucketOf(Rate(), buckets, key, now), LogIn(logs, key), PeakIn(peaks, key));
      if ok {
        KeyAsked(Rate(), buckets[key], log, peak, MaxNat(peak, Opens(log) + 1));
        SpansAsked(log, peak, now, MaxNat(peak, Opens(log) + 1));
        logs := logs[key := log + [Asked(now, Open)]];
        peaks := peaks[key := MaxNat(peak, Opens(log) + 1)];
        forall k: string
          ensures KeyValid(k)
        {
        }
      }
    }

    /** An open attempt turns out wrong, and is charged, or right. */
    method Answer(key: string, ghost i: nat, wrong: bool)
      requires Valid() && i < |LogOf(key)| && LogOf(key)[i].turn.Open?
      modifies this
      ensures Valid() && now == old(now) && peaks == old(peaks)
      ensures logs == old(logs)[key := old(LogOf(key))[i := old(LogOf(key))[i].(turn := Told(wrong, now))]]
      ensures buckets == if wrong then old(buckets)[key := Spent(BucketOf(Rate(), old(buckets), key, now))] else old(buckets)
    {
      hide SpansOK, KeyOK;
      ghost var before, log := buckets, LogOf(key);
      forall k: string
        ensures KeyOK(Rate(), BucketOf(Rate(), before, k, now), LogIn(logs, k), PeakIn(peaks, k)) && SpansOK(LogIn(logs, k), PeakIn(peaks, k), now)
      {
        assert KeyValid(k);
      }
      KeyAnswered(Rate(), BucketOf(Rate(), buckets, key, now), log, PeakOf(key), i, wrong, now);
      SpansAnswered(log, PeakOf(key), now, i, wrong);
      if wrong {
        Fail(key);
      }
      forall k: string | k != key
        ensures KeyOK(Rate(), BucketOf(Rate(), buckets, k, now), LogIn(logs, k), PeakIn(peaks, k)) && SpansOK(LogIn(logs, k), PeakIn(peaks, k), now)
      {
        assert KeyOK(Rate(), BucketOf(Rate(), before, k, now), LogIn(logs, k), PeakIn(peaks, k)) && SpansOK(LogIn(logs, k), PeakIn(peaks, k), now);
      }
      logs := logs[key := log[i := log[i].(turn := Told(wrong, now))]];
      forall k: string
        ensures KeyValid(k)
      {
      }
    }

    /** One sign-in attempt on its own: asked first, charged if the credential is wrong.
        A refused attempt is not even checked. */
    method Attempt(key: string, wrong: bool) returns (allowed: bool)
      requires Valid()
      modifies this
      ensures Valid() && now == old(now) && (allowed <==> Level(Rate(), old(buckets), key, now) >= 1.0)
      ensures PeakOf(key) == if allowed then MaxNat(old(PeakOf(key)), Opens(old(LogOf(key))) + 1) else old(PeakOf(key))
      ensures LogOf(key) == if allowed then old(LogOf(key)) + [Asked(now, Told(wrong, now))] else old(LogOf(key))
      ensures key in buckets
      ensures var b := Bucket(Level(Rate(), old(buckets), key, now), now);
              buckets[key] == if allowed && wrong then Spent(b) else b
    {
      hide SpansOK, KeyOK, SameLevels, Opens;
      ghost var log := LogOf(key);
      allowed := Ask(key);
      if allowed {
        Answer(key, |log|, wrong);
        assert (log + [Asked(now, Open)])[|log| := Asked(now, Told(wrong, now))]
            == log + [Asked(now, Told(wrong, now))];
      }
    }

    /** While at most `k` attempts of a key are open at once, no window of T minutes has
        more than `perMinute + (k - 1) + k * perMinute * T` attempts that failed. */
    lemma FailuresBounded(key: string, k: nat, s: real, e: real)
      requires Valid() && s <= e && 1 <= k && PeakOf(key) <= k
      ensures Failures(LogOf(key), s, e) as real <= Allowance(Rate(), k, e - s)
    {
      assert KeyValid(key);
      assert WindowOK(Rate(), k, LogOf(key), s, e);
      CountsBounded(LogOf(key), s, e);
    }

    /** Counted when they are recorded, they are at most `k` more: those that were open
        when the window began. */
    lemma RecordedBounded(key: string, k: nat, s: real, e: real)
      requires Valid() && s <= e && 1 <= k && PeakOf(key) <= k
      ensures Recorded(LogOf(key), s, e) as real <= Allowance(Rate(), k, e - s) + k as real
    {
      hide KeyOK, Allowance;
      FailuresBounded(key, k, s, e);
      assert KeyValid(key);
      RecordedSplit(LogOf(key), s, e);
    }

    /** One after another, they are at most `perMinute * (1 + T)`. */
    lemma SequentialFailuresBounded(key: string, s: real, e: real)
      requires Valid() && s <= e && PeakOf(key) <= 1
      ensures Failures(LogOf(key), s, e) as real <= Rate() * (1.0 + (e - s))
    {
      FailuresBounded(key, 1, s, e);
      assert Rate() * (1.0 + (e - s)) == Rate() + (e - s) * Rate();
    }
  }

  function MaxNat(a: nat, b: nat): nat { if a < b then b else a }

  lemma WaitingKey(rate: real, buckets: Buckets, key: string, now: real, t: real, log: Log, peak: nat)
    requires KeyOK(rate, BucketOf(rate, buckets, key, now), log, peak) && now <= t
    ensures KeyOK(rate, BucketOf(rate, buckets, key, t), log, peak)
  {
    if key !in buckets {
      TimesLe(0.0, t - now, rate);
      TimesUnit(rate);
      KeyLater(rate, Bucket(rate, now), Bucket(rate, t), log, peak);
    }
  }

  lemma AskingKey(rate: real, buckets: Buckets, key: string, now: real, log: Log, peak: nat)
    requires KeyOK(rate, BucketOf(rate, buckets, key, now), log, peak) && BucketsOK(rate, buckets, now)
    ensures KeyOK(rate, Bucket(Level(rate, buckets, key, now), now), log, peak)
  {
    var b := BucketOf(rate, buckets, key, now);
    var x := Level(rate, buckets, key, now);
    assert key in buckets ==> BucketOK(rate, b, now);
    assert x == Refilled(rate, b, now) && b.tokens <= x <= rate && x <= b.tokens + Times(now - b.last, rate) by {
      hide SpansOK, KeyOK;
      RefillOnce(rate, b, now);
      if key !in buckets {
        FullStaysFull(rate, now, now);
      }
    }
    KeyLater(rate, b, Bucket(x, now), log, peak);
  }

  lemma RefillOnce(rate: real, b: Bucket, now: real)
    requires rate >= 1.0 && 0.0 <= b.tokens <= rate && b.last <= now
    ensures b.tokens <= Refilled(rate, b, now) <= rate
    ensures Refilled(rate, b, now) <= b.tokens + Times(now - b.last, rate)
  {
    NotNegative(now - b.last, rate);
  }

  /** Eviction gives a key the full bucket it had earned. */
  lemma OtherKey(rate: real, a: Buckets, b: Buckets, key: string, k: string, now: real, log: Log, peak: nat)
    requires KeyOK(rate, BucketOf(rate, a, k, now), log, peak) && OthersKept(rate, a, b, key, now) && k != key
    ensures KeyOK(rate, BucketOf(rate, b, k, now), log, peak)
  {
    if k in a && k !in b {
      assert Times(now - a[k].last, rate) == (now - a[k].last) * rate;
      Grow(rate, 1.0, now - a[k].last);
      KeyLater(rate, a[k], Bucket(rate, now), log, peak);
    }
  }

  // Overlapping attempts

  function Repeat(x: Asked, n: nat): Log { seq(n, i => x) }

  lemma {:induction false} CountsRepeat(log: Log, x: Asked, n: nat, s: real, e: real)
    ensures Opens(log + Repeat(x, n)) == Opens(log) + (if x.turn.Open? then n else 0)
    ensures Failures(log + Repeat(x, n), s, e) == Failures(log, s, e) + (if x.turn.Wrong? && s <= x.at <= e then n else 0)
  {
    if n == 0 {
      assert log + Repeat(x, 0) == log;
    } else {
      var all := log + Repeat(x, n);
      assert all[..|all| - 1] == log + Repeat(x, n - 1);
      CountsRepeat(log, x, n - 1, s, e);
    }
  }

  lemma {:induction false} FailuresEnd(log: Log, s: real, e: real, last: real)
    requires (forall i | 0 <= i < |log| :: log[i].at <= last) && last <= e
    ensures Failures(log, s, e) == Failures(log, s, last)
  {
    if log != [] {
      FailuresEnd(log[..|log| - 1], s, e, last);
    }
  }

  lemma LevelAtOnce(rate: real, buckets: Buckets, key: string, now: real)
    requires key in buckets && buckets[key].last == now && buckets[key].tokens <= rate
    ensures Level(rate, buckets, key, now) == buckets[key].tokens
  {
    assert (now - now) * rate == 0.0;
  }

  lemma LevelIsBounded(rate: real, buckets: Buckets, key: string, now: real)
    ensures Level(rate, buckets, key, now) <= rate
  {
  }

  /** What `n` attempts that asked together leave. */
  ghost predicate AskedSoFar(l: Limiter, key: string, level: real, log: Log, peak: nat, n: nat)
    reads l
  {
    && l.Valid() && Level(l.Rate(), l.buckets, key, l.now) == level
    && l.LogOf(key) == log + Repeat(Asked(l.now, Open), n)
    && (n > 0 ==> key in l.buckets && l.buckets[key] == Bucket(level, l.now))
    && l.PeakOf(key) == if n == 0 then peak else MaxNat(peak, Opens(log) + n)
  }

  method AskOneMore(l: Limiter, key: string, ghost level: real, ghost log: Log, ghost peak: nat, ghost n: nat)
    requires AskedSoFar(l, key, level, log, peak, n) && 1.0 <= level <= l.Rate()
    modifies l
    ensures l.now == old(l.now) && AskedSoFar(l, key, level, log, peak, n + 1)
  {
    hide SpansOK, KeyOK, SameLevels, Level, Opens, BucketsOK, Repeat;
    CountsRepeat(log, Asked(l.now, Open), n, 0.0, 0.0);
    RepeatMore(log, Asked(l.now, Open), n);
    var ok := l.Ask(key);
    LevelAtOnce(l.Rate(), l.buckets, key, l.now);
  }

  lemma RepeatMore(log: Log, x: Asked, n: nat)
    ensures log + Repeat(x, n) + [x] == log + Repeat(x, n + 1)
  {
  }

  lemma NoneAsked(l: Limiter, key: string)
    requires l.Valid()
    ensures AskedSoFar(l, key, Level(l.Rate(), l.buckets, key, l.now), l.LogOf(key), l.PeakOf(key), 0)
  {
    assert l.LogOf(key) + Repeat(Asked(l.now, Open), 0) == l.LogOf(key);
  }

  /** `n` attempts of one key ask before any of them is answered. One whole token lets
      them all through. */
  method AskTogether(l: Limiter, key: string, n: nat)
    requires l.Valid() && Level(l.Rate(), l.buckets, key, l.now) >= 1.0
    modifies l
    ensures l.now == old(l.now)
    ensures AskedSoFar(l, key, old(Level(l.Rate(), l.buckets, key, l.now)), old(l.LogOf(key)), old(l.PeakOf(key)), n)
  {
    hide SpansOK, KeyOK, SameLevels, Level, Opens, BucketsOK, Repeat;
    ghost var level, log, peak := Level(l.Rate(), l.buckets, key, l.now), l.LogOf(key), l.PeakOf(key);
    LevelIsBounded(l.Rate(), l.buckets, key, l.now);
    NoneAsked(l, key);
    hide AskedSoFar;
    for i := 0 to n
      invariant l.now == old(l.now) && AskedSoFar(l, key, level, log, peak, i)
    {
      AskOneMore(l, key, level, log, peak, i);
    }
  }

  /** Attempts that asked together turn out wrong together. Charging stops at zero. */
  method FailTogether(l: Limiter, key: string, n: nat, ghost log: Log, ghost at: real)
    requires l.Valid() && l.LogOf(key) == log + Repeat(Asked(at, Open), n) && key in l.buckets
    modifies l
    ensures l.Valid() && l.now == old(l.now) && l.PeakOf(key) == old(l.PeakOf(key))
    ensures l.LogOf(key) == log + Repeat(Asked(at, Wrong(l.now)), n)
    ensures key in l.buckets
    ensures l.buckets[key] == Bucket(Max(0.0, old(l.buckets)[key].tokens - n as real), old(l.buckets)[key].last)
  {
    hide SpansOK, KeyOK;
    assert l.KeyValid(key);
    ghost var b := l.buckets[key];
    assert b.tokens >= 0.0 by { TokensOK(l, key); }
    for i := 0 to n
      invariant l.Valid() && l.now == old(l.now) && l.PeakOf(key) == old(l.PeakOf(key))
      invariant l.LogOf(key) == log + (Repeat(Asked(at, Wrong(l.now)), i) + Repeat(Asked(at, Open), n - i))
      invariant key in l.buckets && l.buckets[key] == Bucket(Max(0.0, b.tokens - i as real), b.last)
    {
      ghost var k := |log| + i;
      ghost var before := l.LogOf(key);
      l.Answer(key, k, true);
      assert before[k := Asked(at, Wrong(l.now))] == log + (Repeat(Asked(at, Wrong(l.now)), i + 1) + Repeat(Asked(at, Open), n - (i + 1)));
    }
  }

  lemma TokensOK(l: Limiter, key: string)
    requires l.Valid() && key in l.buckets
    ensures l.buckets[key].tokens >= 0.0
  {
    assert l.KeyValid(key);
  }

  /** Any number of attempts that ask before the first of them fails is let through on
      one whole token, and all of them fail. */
  method FailOverlapping(l: Limiter, key: string, n: nat)
    requires l.Valid() && Level(l.Rate(), l.buckets, key, l.now) >= 1.0 && n > 0
    modifies l
    ensures l.Valid() && l.now == old(l.now)
    ensures l.LogOf(key) == old(l.LogOf(key)) + Repeat(Asked(l.now, Wrong(l.now)), n)
    ensures Failures(l.LogOf(key), l.now, l.now) == old(Failures(l.LogOf(key), l.now, l.now)) + n
    ensures key in l.buckets && l.buckets[key] == Bucket(Max(0.0, Level(l.Rate(), old(l.buckets), key, l.now) - n as real), l.now)
    ensures l.PeakOf(key) == MaxNat(old(l.PeakOf(key)), Opens(old(l.LogOf(key))) + n)
  {
    hide SpansOK, KeyOK, Level, Opens;
    ghost var log := l.LogOf(key);
    AskTogether(l, key, n);
    FailTogether(l, key, n, log, l.now);
    CountsRepeat(log, Asked(l.now, Wrong(l.now)), n, l.now, l.now);
  }

  /** The record of a key none of whose attempts is open. */
  ghost predicate Spree(l: Limiter, key: string, k: nat, failures: int, tokens: real)
    reads l
  {
    && l.Valid() && l.PeakOf(key) <= k && Opens(l.LogOf(key)) == 0
    && (forall i | 0 <= i < |l.LogOf(key)| :: l.LogOf(key)[i].at <= l.now)
    && Failures(l.LogOf(key), 0.0, l.now) == failures
    && Level(l.Rate(), l.buckets, key, l.now) == tokens
  }

  method FailMore(l: Limiter, key: string, k: nat, n: nat, ghost failures: int, ghost tokens: real)
    requires Spree(l, key, k, failures, tokens) && tokens >= 1.0 && 1 <= n <= k && l.now >= 0.0
    modifies l
    ensures l.now == old(l.now) && Spree(l, key, k, failures + n, Max(0.0, tokens - n as real))
    ensures key in l.buckets && l.buckets[key] == Bucket(Max(0.0, tokens - n as real), l.now)
  {
    hide SpansOK, KeyOK, Level, Opens, Failures;
    ghost var log := l.LogOf(key);
    LevelIsBounded(l.Rate(), l.buckets, key, l.now);
    FailOverlapping(l, key, n);
    CountsRepeat(log, Asked(l.now, Wrong(l.now)), n, 0.0, l.now);
    LevelAtOnce(l.Rate(), l.buckets, key, l.now);
  }

  /** A full bucket lets all but its last token's worth of attempts fail one by one, and
      the last token lets `k` fail at once. */
  method DrainBucket(l: Limiter, key: string, k: nat)
    requires l.Valid() && l.buckets == map[] && l.logs == map[] && l.peaks == map[] && l.now == 0.0 && k > 0
    modifies l
    ensures l.now == 0.0 && Spree(l, key, k, l.perMinute + (k - 1), 0.0)
    ensures key in l.buckets && l.buckets[key] == Bucket(0.0, l.now)
  {
    FreshSpree(l, key, k);
    hide SpansOK, KeyOK, Level, Opens, Failures, Spree;
    var perMinute := l.perMinute;
    for i := 1 to perMinute
      invariant l.now == 0.0
      invariant Spree(l, key, k, i - 1, (perMinute - (i - 1)) as real)
    {
      FailMore(l, key, k, 1, i - 1, (perMinute - (i - 1)) as real);
    }
    FailMore(l, key, k, k, perMinute - 1, 1.0);
  }

  /** After `j` refilled tokens, each of them spent by `k` attempts at once. */
  ghost predicate Drained(l: Limiter, key: string, k: nat, step: real, j: nat)
    reads l
  {
    && l.now == step * j as real && Spree(l, key, k, l.perMinute + (k - 1) + k * j, 0.0)
    && key in l.buckets && l.buckets[key] == Bucket(0.0, l.now)
  }

  /** Once an empty bucket holds one token again, `k` attempts at once fail on it. */
  method FailOnRefill(l: Limiter, key: string, k: nat, step: real, ghost j: nat)
    requires Drained(l, key, k, step, j) && k > 0 && step > 0.0 && step * l.Rate() == 1.0
    modifies l
    ensures Drained(l, key, k, step, j + 1)
  {
    hide SpansOK, KeyOK, Level, Opens, Failures;
    ghost var earlier, failures := l.now, l.perMinute + (k - 1) + k * j;
    StepsAddUp(step, j, k);
    l.Tick(l.now + step);
    RefillToOne(l, key, k, failures, earlier, step);
    FailMore(l, key, k, k, failures, 1.0);
  }

  lemma StepsAddUp(step: real, j: nat, k: nat)
    requires step > 0.0
    ensures 0.0 <= step * j as real && step * (j + 1) as real == step * j as real + step
    ensures k * (j + 1) == k * j + k
  {
  }

  /** The bound is reached: for every limit, every `k` and every number `m` of refilled
      tokens, `k` attempts at a time fail exactly as often as the allowance says. */
  method ReachAllowance(perMinute: int, k: nat, m: nat, key: string) returns (l: Limiter)
    requires perMinute > 0 && k > 0
    ensures fresh(l) && l.Valid() && l.perMinute == perMinute && l.PeakOf(key) <= k && l.now * l.Rate() == m as real
    ensures Failures(l.LogOf(key), 0.0, l.now) == perMinute + (k - 1) + k * m
    ensures Failures(l.LogOf(key), 0.0, l.now) as real == Allowance(l.Rate(), k, l.now)
  {
    hide Drained, Spree, Allowance, Failures, KeyOK, BucketsOK;
    l := new Limiter(perMinute, 0.0);
    DrainBucket(l, key, k);
    var step := 1.0 / perMinute as real;
    DrainedFirst(l, key, k, step);
    for j := 0 to m
      invariant fresh(l) && l.perMinute == perMinute && Drained(l, key, k, step, j)
    {
      FailOnRefill(l, key, k, step, j);
    }
    AllowanceReached(l, key, k, step, m);
  }

  lemma DrainedFirst(l: Limiter, key: string, k: nat, step: real)
    requires l.now == 0.0 && Spree(l, key, k, l.perMinute + (k - 1), 0.0)
    requires key in l.buckets && l.buckets[key] == Bucket(0.0, l.now)
    ensures Drained(l, key, k, step, 0)
  {
  }

  lemma AllowanceReached(l: Limiter, key: string, k: nat, step: real, m: nat)
    requires Drained(l, key, k, step, m) && step * l.Rate() == 1.0
    ensures l.Valid() && l.PeakOf(key) <= k && l.now * l.Rate() == m as real
    ensures Failures(l.LogOf(key), 0.0, l.now) == l.perMinute + (k - 1) + k * m
    ensures Failures(l.LogOf(key), 0.0, l.now) as real == Allowance(l.Rate(), k, l.now)
  {
    hide SpansOK, KeyOK, Level, Opens, Failures;
    assert l.now * l.Rate() == (step * l.Rate()) * m as real;
    assert m as real * k as real == (k * m) as real;
  }

  lemma {:induction false} RecordedRepeat(log: Log, x: Asked, n: nat, s: real, e: real)
    requires x.turn.Wrong? && s <= x.turn.told <= e
    ensures Recorded(log + Repeat(x, n), s, e) == Recorded(log, s, e) + n
  {
    if n == 0 {
      assert log + Repeat(x, 0) == log;
    } else {
      var all := log + Repeat(x, n);
      assert all[..|all| - 1] == log + Repeat(x, n - 1);
      RecordedRepeat(log, x, n - 1, s, e);
    }
  }

  /** An hour later a bucket is full again, whatever was charged at its old time. */
  lemma FullAfterHour(rate: real, buckets: Buckets, key: string)
    requires key in buckets && buckets[key].last == 0.0 && buckets[key].tokens >= 0.0 && rate >= 1.0
    ensures Level(rate, buckets, key, 60.0) == rate
  {
  }

  /** Of one key, `k` attempts ask and are found wrong only an hour later, when the
      bucket is full again for those that ask then. */
  method FailLate(l: Limiter, key: string, k: nat)
    requires l.Valid() && l.buckets == map[] && l.logs == map[] && l.peaks == map[] && l.now == 0.0 && k > 0
    modifies l
    ensures l.Valid() && l.now == 60.0 && Level(l.Rate(), l.buckets, key, l.now) == l.Rate()
    ensures l.LogOf(key) == Repeat(Asked(0.0, Wrong(60.0)), k) && l.PeakOf(key) == k && Opens(l.LogOf(key)) == 0
  {
    FreshSpree(l, key, k);
    hide SpansOK, KeyOK, Level, Opens, Failures, BucketsOK;
    assert l.LogOf(key) == [] && l.PeakOf(key) == 0;
    NoneOpen();
    AskTogether(l, key, k);
    assert l.buckets[key].tokens >= 0.0 by { TokensOK(l, key); }
    l.Tick(60.0);
    FailTogether(l, key, k, [], 0.0);
    assert [] + Repeat(Asked(0.0, Wrong(60.0)), k) == Repeat(Asked(0.0, Wrong(60.0)), k);
    assert l.buckets[key].tokens >= 0.0 by { TokensOK(l, key); }
    FullAfterHour(l.Rate(), l.buckets, key);
    CountsRepeat([], Asked(0.0, Wrong(60.0)), k, 0.0, 0.0);
  }

  lemma NoneOpen()
    ensures Opens([]) == 0
  {
  }

  /** Counted when they are recorded, the bound with its `k` more is reached too, at one
      instant, for every limit and every `k`. */
  method ReachRecorded(perMinute: int, k: nat, key: string) returns (l: Limiter)
    requires perMinute > 0 && k > 0
    ensures fresh(l) && l.Valid() && l.perMinute == perMinute && l.PeakOf(key) <= k
    ensures Recorded(l.LogOf(key), l.now, l.now) as real == Allowance(l.Rate(), k, 0.0) + k as real
  {
    hide SpansOK, KeyOK, Level, Opens, Recorded, Allowance;
    l := new Limiter(perMinute, 0.0);
    FailLate(l, key, k);
    RecordedRepeat([], Asked(0.0, Wrong(60.0)), k, 60.0, 60.0);
    NothingRecorded();
    assert [] + l.LogOf(key) == l.LogOf(key);
    for i := 1 to perMinute
      invariant fresh(l) && l.Valid() && l.perMinute == perMinute && l.now == 60.0 && l.PeakOf(key) <= k
      invariant Opens(l.LogOf(key)) == 0 && Recorded(l.LogOf(key), 60.0, 60.0) == k + (i - 1)
      invariant Level(l.Rate(), l.buckets, key, l.now) == (perMinute - (i - 1)) as real
    {
      FailRecorded(l, key, k, 1);
    }
    FailRecorded(l, key, k, k);
    AllowedAtOnce(perMinute as real, k);
  }

  lemma NothingRecorded()
    ensures Recorded([], 60.0, 60.0) == 0
  {
  }

  method FailRecorded(l: Limiter, key: string, k: nat, n: nat)
    requires l.Valid() && l.PeakOf(key) <= k && Opens(l.LogOf(key)) == 0 && 1 <= n <= k
    requires Level(l.Rate(), l.buckets, key, l.now) >= 1.0
    modifies l
    ensures l.Valid() && l.now == old(l.now) && l.PeakOf(key) <= k && Opens(l.LogOf(key)) == 0
    ensures Recorded(l.LogOf(key), l.now, l.now) == old(Recorded(l.LogOf(key), l.now, l.now)) + n
    ensures Level(l.Rate(), l.buckets, key, l.now) == Max(0.0, old(Level(l.Rate(), l.buckets, key, l.now)) - n as real)
  {
    hide SpansOK, KeyOK, Level, Opens, Failures, Recorded;
    ghost var log := l.LogOf(key);
    LevelIsBounded(l.Rate(), l.buckets, key, l.now);
    FailOverlapping(l, key, n);
    CountsRepeat(log, Asked(l.now, Wrong(l.now)), n, l.now, l.now);
    RecordedRepeat(log, Asked(l.now, Wrong(l.now)), n, l.now, l.now);
    LevelAtOnce(l.Rate(), l.buckets, key, l.now);
  }

  lemma FreshSpree(l: Limiter, key: string, k: nat)
    requires l.Valid() && l.buckets == map[] && l.logs == map[] && l.peaks == map[]
    ensures Spree(l, key, k, 0, l.Rate())
  {
  }

  lemma RefillToOne(l: Limiter, key: string, k: nat, failures: int, earlier: real, step: real)
    requires l.Valid() && l.now == earlier + step && step > 0.0 && step * l.Rate() == 1.0
    requires key in l.buckets && l.buckets[key] == Bucket(0.0, earlier)
    requires l.PeakOf(key) <= k && Opens(l.LogOf(key)) == 0
    requires (forall i | 0 <= i < |l.LogOf(key)| :: l.LogOf(key)[i].at <= earlier) && Failures(l.LogOf(key), 0.0, earlier) == failures
    ensures Spree(l, key, k, failures, 1.0)
  {
    FailuresEnd(l.LogOf(key), 0.0, l.now, earlier);
    assert (l.now - earlier) * l.Rate() == 1.0;
    assert l.Rate() >= 1.0;
  }
}
