/** Segment identifiers: a prefix and a counter padded to four digits. */
module Naming {
  import opened Protocol

  function DigitChar(d: nat): char
    requires d < 10
  {
    (('0' as int) + d) as char
  }

  function Digits(n: nat): (s: string)
    ensures |s| > 0
  {
    if n < 10 then [DigitChar(n)] else Digits(n / 10) + [DigitChar(n % 10)]
  }

  function Zeros(k: nat): (s: string)
    ensures |s| == k
  {
    if k == 0 then "" else "0" + Zeros(k - 1)
  }

  function Padded(n: nat): string {
    var d := Digits(n);
    if |d| < 4 then Zeros(4 - |d|) + d else d
  }

  function RawId(n: nat): string { "r-" + Padded(n) }

  function PackId(n: nat): string { "p-" + Padded(n) }

  /** Reads a number back. */
  function ValueOf(s: string): int {
    if s == "" then 0 else ValueOf(s[..|s| - 1]) * 10 + (s[|s| - 1] as int - '0' as int)
  }

  lemma {:induction false} DigitsValue(n: nat)
    ensures ValueOf(Digits(n)) == n
  {
    if n >= 10 {
      DigitsValue(n / 10);
      var s := Digits(n);
      assert s[..|s| - 1] == Digits(n / 10);
    } else {
      assert Digits(n)[..0] == "";
    }
  }

  lemma {:induction false} ZerosValue(k: nat, s: string)
    ensures ValueOf(Zeros(k) + s) == ValueOf(s)
    decreases k, |s|
  {
    if s != "" {
      var t := Zeros(k) + s;
      assert t[..|t| - 1] == Zeros(k) + s[..|s| - 1];
      ZerosValue(k, s[..|s| - 1]);
    } else if k > 0 {
      assert Zeros(k) + "" == Zeros(k);
      AllZeros(k);
    }
  }

  lemma {:induction false} AllZeros(k: nat)
    ensures ValueOf(Zeros(k)) == 0
    ensures forall i | 0 <= i < k :: Zeros(k)[i] == '0'
  {
    if k > 0 {
      AllZeros(k - 1);
      ZerosSnoc(k - 1);
      assert Zeros(k)[..k - 1] == Zeros(k - 1);
    }
  }

  lemma {:induction false} ZerosSnoc(k: nat)
    ensures Zeros(k + 1) == Zeros(k) + "0"
  {
    if k > 0 {
      ZerosSnoc(k - 1);
    }
  }

  /** Different counters give different identifiers. */
  lemma PaddedInjective(a: nat, b: nat)
    requires Padded(a) == Padded(b)
    ensures a == b
  {
    DigitsValue(a);
    DigitsValue(b);
    var x, y := Digits(a), Digits(b);
    if |x| < 4 {
      ZerosValue(4 - |x|, x);
    }
    if |y| < 4 {
      ZerosValue(4 - |y|, y);
    }
  }

  lemma IdsDiffer(a: nat, b: nat)
    ensures RawId(a) != PackId(b)
    ensures RawId(a) == RawId(b) ==> a == b
    ensures PackId(a) == PackId(b) ==> a == b
  {
    assert RawId(a)[0] == 'r' && PackId(b)[0] == 'p';
    if RawId(a) == RawId(b) {
      assert RawId(a)[2..] == Padded(a) && RawId(b)[2..] == Padded(b);
      PaddedInjective(a, b);
    }
    if PackId(a) == PackId(b) {
      assert PackId(a)[2..] == Padded(a) && PackId(b)[2..] == Padded(b);
      PaddedInjective(a, b);
    }
  }

  /** An identifier is its prefix and its number in at least four decimal digits. */
  lemma IdsInDigits(n: nat)
    ensures RawId(n)[..2] == "r-" && PackId(n)[..2] == "p-" && RawId(n)[2..] == PackId(n)[2..] && |RawId(n)| >= 6
    ensures ValueOf(RawId(n)[2..]) == n && forall i | 2 <= i < |RawId(n)| :: '0' <= RawId(n)[i] <= '9'
    ensures n < 10000 ==> |RawId(n)| == 6
  {
    hide Padded, ValueOf;
    PaddedInDigits(n);
    assert RawId(n)[2..] == Padded(n) && PackId(n)[2..] == Padded(n);
  }

  lemma PaddedInDigits(n: nat)
    ensures ValueOf(Padded(n)) == n && |Padded(n)| >= 4 && (n < 10000 ==> |Padded(n)| == 4)
    ensures forall i | 0 <= i < |Padded(n)| :: '0' <= Padded(n)[i] <= '9'
  {
    hide Digits, ValueOf, Zeros;
    var d := Digits(n);
    DigitsValue(n);
    DigitsAreDigits(n);
    if |d| < 4 {
      ZerosValue(4 - |d|, d);
      AllZeros(4 - |d|);
    }
    assert Pow10(4) == 10000;
    if n < 10000 {
      DigitsShort(n, 4);
    }
  }

  lemma {:induction false} DigitsAreDigits(n: nat)
    ensures forall i | 0 <= i < |Digits(n)| :: '0' <= Digits(n)[i] <= '9'
  {
    if n >= 10 {
      DigitsAreDigits(n / 10);
    }
  }

  // How long they get

  function Pow10(k: nat): nat {
    if k == 0 then 1 else 10 * Pow10(k - 1)
  }

  lemma {:induction false} DigitsShort(n: nat, k: nat)
    requires k > 0 && n < Pow10(k)
    ensures |Digits(n)| <= k
  {
    if n >= 10 {
      assert k > 1;
      DigitsShort(n / 10, k - 1);
    }
  }

  predicate Ascii(s: string) {
    forall i | 0 <= i < |s| :: s[i] < '\U{0080}'
  }

  lemma {:induction false} AsciiLength(s: string)
    requires Ascii(s)
    ensures ByteLen(s) == |s|
  {
    if s != "" {
      AsciiLength(s[1..]);
    }
  }

  lemma {:induction false} DigitsAscii(n: nat)
    ensures Ascii(Digits(n))
  {
    if n >= 10 {
      DigitsAscii(n / 10);
    }
  }

  /** Go's int counts no further. */
  const MAX_INT := 0x7FFF_FFFF_FFFF_FFFF

  lemma IdsShort(n: nat)
    requires n <= MAX_INT
    ensures 0 < ByteLen(RawId(n)) <= 128 && 0 < ByteLen(PackId(n)) <= 128
  {
    assert Pow10(10) == 10000000000;
    assert Pow10(19) == 10000000000000000000;
    DigitsShort(n, 19);
    DigitsAscii(n);
    var d := Digits(n);
    if |d| < 4 {
      AllZeros(4 - |d|);
    }
    AsciiLength(RawId(n));
    AsciiLength(PackId(n));
  }
}
