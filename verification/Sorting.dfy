/** Stable sorting by path, as the plan and the manifest are sorted. */
module Sorting {

  /** Code point order, which is also the byte order of the UTF-8 encodings. */
  predicate StrLeq(a: string, b: string) {
    a == "" || (b != "" && (a[0] < b[0] || (a[0] == b[0] && StrLeq(a[1..], b[1..]))))
  }

  /** A text is at most another if it begins it, or is smaller where they first differ. */
  lemma {:induction false} StrLeqExactly(a: string, b: string)
    ensures StrLeq(a, b) <==> a <= b || exists i :: 0 <= i < |a| && i < |b| && a[..i] == b[..i] && a[i] < b[i]
  {
    if a != "" && b != "" {
      StrLeqExactly(a[1..], b[1..]);
      assert a == [a[0]] + a[1..] && b == [b[0]] + b[1..];
      if i :| 0 <= i < |a[1..]| && i < |b[1..]| && a[1..][..i] == b[1..][..i] && a[1..][i] < b[1..][i] {
        if a[0] == b[0] {
          assert a[..i + 1] == [a[0]] + a[1..][..i] && b[..i + 1] == [b[0]] + b[1..][..i];
          assert a[i + 1] < b[i + 1];
        }
      }
      if a[0] < b[0] {
        assert a[..0] == b[..0];
      }
      if i :| 0 <= i < |a| && i < |b| && a[..i] == b[..i] && a[i] < b[i] {
        if i > 0 {
          assert a[0] == a[..i][0] == b[..i][0];
          assert a[1..][..i - 1] == a[..i][1..] && b[1..][..i - 1] == b[..i][1..];
          assert a[1..][i - 1] < b[1..][i - 1];
        }
      }
    }
  }

  lemma StrLeqTotal(a: string, b: string)
    ensures StrLeq(a, b) || StrLeq(b, a)
  {
  }

  lemma StrLeqTransitive(a: string, b: string, c: string)
    requires StrLeq(a, b) && StrLeq(b, c)
    ensures StrLeq(a, c)
  {
  }

  ghost predicate SortedBy<T>(xs: seq<T>, key: T -> string) {
    forall i, j | 0 <= i < j < |xs| :: StrLeq(key(xs[i]), key(xs[j]))
  }

  function Insert<T>(x: T, xs: seq<T>, key: T -> string): (r: seq<T>)
    ensures multiset(r) == multiset{x} + multiset(xs)
  {
    if xs == [] then [x]
    else if StrLeq(key(x), key(xs[0])) then
      assert [x] + xs == [x] + xs;
      [x] + xs
    else
      assert xs == [xs[0]] + xs[1..];
      [xs[0]] + Insert(x, xs[1..], key)
  }

  function Sort<T>(xs: seq<T>, key: T -> string): (r: seq<T>)
    ensures multiset(r) == multiset(xs)
  {
    if xs == [] then []
    else
      assert xs == [xs[0]] + xs[1..];
      Insert(xs[0], Sort(xs[1..], key), key)
  }

  lemma {:induction false} InsertSorted<T>(x: T, xs: seq<T>, key: T -> string)
    requires SortedBy(xs, key)
    ensures SortedBy(Insert(x, xs, key), key)
  {
    if xs == [] {
    } else if StrLeq(key(x), key(xs[0])) {
      forall j | 0 <= j < |xs|
        ensures StrLeq(key(x), key(xs[j]))
      {
        if j > 0 {
          StrLeqTransitive(key(x), key(xs[0]), key(xs[j]));
        }
      }
    } else {
      StrLeqTotal(key(x), key(xs[0]));
      InsertSorted(x, xs[1..], key);
      var rest := Insert(x, xs[1..], key);
      forall j | 0 <= j < |rest|
        ensures StrLeq(key(xs[0]), key(rest[j]))
      {
        assert rest[j] in multiset(rest);
        if rest[j] != x {
          assert rest[j] in multiset(xs[1..]);
          var k :| 0 <= k < |xs[1..]| && xs[1..][k] == rest[j];
          assert xs[k + 1] == rest[j];
        }
      }
    }
  }

  lemma {:induction false} SortSorts<T>(xs: seq<T>, key: T -> string)
    ensures SortedBy(Sort(xs, key), key)
  {
    if xs == [] {
    } else {
      SortSorts(xs[1..], key);
      InsertSorted(xs[0], Sort(xs[1..], key), key);
    }
  }

  lemma SortedPrefix<T>(xs: seq<T>, n: nat, key: T -> string)
    requires n < |xs| && SortedBy(xs, key)
    ensures SortedBy(xs[..n], key)
    ensures forall x | x in xs[..n] :: StrLeq(key(x), key(xs[n]))
  {
    var rest := xs[..n];
    forall i, j | 0 <= i < j < |rest|
      ensures StrLeq(key(rest[i]), key(rest[j]))
    {
      assert rest[i] == xs[i] && rest[j] == xs[j];
    }
    forall x | x in rest
      ensures StrLeq(key(x), key(xs[n]))
    {
      var i :| 0 <= i < |rest| && rest[i] == x;
      assert xs[i] == x;
    }
  }

  lemma SortedSnoc<T>(xs: seq<T>, x: T, key: T -> string)
    requires SortedBy(xs, key) && forall y | y in xs :: StrLeq(key(y), key(x))
    ensures SortedBy(xs + [x], key)
  {
    var all := xs + [x];
    forall i, j | 0 <= i < j < |all|
      ensures StrLeq(key(all[i]), key(all[j]))
    {
      assert all[i] == xs[i] && all[i] in xs;
      assert j < |xs| ==> all[j] == xs[j];
    }
  }

  lemma SameElements<T>(xs: seq<T>, ys: seq<T>)
    requires multiset(xs) == multiset(ys)
    ensures |xs| == |ys|
    ensures forall x :: x in xs <==> x in ys
  {
    assert |multiset(xs)| == |multiset(ys)|;
    forall x
      ensures x in xs <==> x in ys
    {
      assert x in multiset(xs) <==> x in multiset(ys);
    }
  }

  predicate Pairwise<T(!new)>(xs: seq<T>, r: (T, T) -> bool) {
    forall i, j | 0 <= i < |xs| && 0 <= j < |xs| && i != j :: r(xs[i], xs[j])
  }

  function Without<T>(xs: seq<T>, k: nat): seq<T>
    requires k < |xs|
  {
    xs[..k] + xs[k + 1..]
  }

  lemma WithoutElements<T>(xs: seq<T>, k: nat)
    requires k < |xs|
    ensures multiset(xs) == multiset(Without(xs, k)) + multiset{xs[k]}
  {
    assert xs == xs[..k] + ([xs[k]] + xs[k + 1..]);
  }

  lemma PairwiseWithout<T(!new)>(xs: seq<T>, k: nat, r: (T, T) -> bool)
    requires k < |xs| && Pairwise(xs, r)
    ensures Pairwise(Without(xs, k), r)
    ensures forall y | y in Without(xs, k) :: r(y, xs[k]) && r(xs[k], y)
  {
    var rest := Without(xs, k);
    assert forall i | 0 <= i < |rest| :: rest[i] == xs[if i < k then i else i + 1];
  }

  /** What holds of any two elements holds in any order. */
  lemma {:induction false} PairwiseInAnyOrder<T(!new)>(xs: seq<T>, ys: seq<T>, r: (T, T) -> bool)
    requires multiset(xs) == multiset(ys) && Pairwise(ys, r)
    ensures Pairwise(xs, r)
    decreases |xs|, 0
  {
    if xs != [] {
      var n := |xs| - 1;
      var x := xs[n];
      assert xs == xs[..n] + [x];
      assert x in multiset(ys);
      var k :| 0 <= k < |ys| && ys[k] == x;
      WithoutElements(ys, k);
      PairwiseWithout(ys, k, r);
      var rest := Without(ys, k);
      AddedLast(xs[..n], x, rest, r);
    }
  }

  lemma {:induction false} AddedLast<T(!new)>(xs: seq<T>, x: T, rest: seq<T>, r: (T, T) -> bool)
    requires multiset(xs + [x]) == multiset(rest) + multiset{x} && Pairwise(rest, r)
    requires forall y | y in rest :: r(y, x) && r(x, y)
    ensures Pairwise(xs + [x], r)
    decreases |xs|, 1
  {
    assert multiset(xs) == multiset(rest) by {
      assert multiset(xs) == multiset(xs + [x]) - multiset{x};
      assert multiset(rest) == multiset(rest) + multiset{x} - multiset{x};
    }
    PairwiseInAnyOrder(xs, rest, r);
    SameElements(xs, rest);
    var all := xs + [x];
    forall i, j | 0 <= i < |all| && 0 <= j < |all| && i != j
      ensures r(all[i], all[j])
    {
      if i < |xs| && j < |xs| {
        assert all[i] == xs[i] && all[j] == xs[j];
      } else if i < |xs| {
        assert all[i] in xs;
      } else {
        assert all[j] in xs;
      }
    }
  }

  // Totals

  function SumOf<T>(xs: seq<T>, weight: T -> int): int {
    if xs == [] then 0 else SumOf(xs[..|xs| - 1], weight) + weight(xs[|xs| - 1])
  }

  lemma {:induction false} SumOfBoth<T>(xs: seq<T>, ys: seq<T>, weight: T -> int)
    ensures SumOf(xs + ys, weight) == SumOf(xs, weight) + SumOf(ys, weight)
  {
    if ys == [] {
      assert xs + ys == xs;
    } else {
      var n := |ys| - 1;
      assert (xs + ys)[..|xs + ys| - 1] == xs + ys[..n];
      SumOfBoth(xs, ys[..n], weight);
    }
  }

  lemma SumOfOne<T>(x: T, weight: T -> int)
    ensures SumOf([x], weight) == weight(x)
  {
    assert [x][..0] == [];
  }

  lemma SumWithout<T>(xs: seq<T>, k: nat, weight: T -> int)
    requires k < |xs|
    ensures SumOf(xs, weight) == SumOf(Without(xs, k), weight) + weight(xs[k])
  {
    hide SumOf;
    var before, after := xs[..k], xs[k + 1..];
    assert xs == before + ([xs[k]] + after);
    SumOfOne(xs[k], weight);
    SumOfBoth(before, [xs[k]] + after, weight);
    SumOfBoth([xs[k]], after, weight);
    SumOfBoth(before, after, weight);
  }

  lemma SameRest<T>(xs: seq<T>, ys: seq<T>, k: nat)
    requires multiset(xs) == multiset(ys) && xs != [] && k < |ys| && ys[k] == xs[|xs| - 1]
    ensures multiset(xs[..|xs| - 1]) == multiset(Without(ys, k))
  {
    var n := |xs| - 1;
    assert xs == xs[..n] + [xs[n]];
    assert multiset(xs[..n]) == multiset(xs) - multiset{xs[n]};
    WithoutElements(ys, k);
    assert multiset(Without(ys, k)) == multiset(ys) - multiset{xs[n]};
  }

  /** A total is the same in any order. */
  lemma {:induction false} SumInAnyOrder<T>(xs: seq<T>, ys: seq<T>, weight: T -> int)
    requires multiset(xs) == multiset(ys)
    ensures SumOf(xs, weight) == SumOf(ys, weight)
  {
    SameElements(xs, ys);
    if xs != [] {
      var n := |xs| - 1;
      assert xs[n] in ys;
      var k :| 0 <= k < |ys| && ys[k] == xs[n];
      SameRest(xs, ys, k);
      hide Without;
      SumInAnyOrder(xs[..n], Without(ys, k), weight);
      SumWithout(ys, k, weight);
    }
  }
}
