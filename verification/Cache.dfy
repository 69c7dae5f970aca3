/** A bounded number of published manifests kept in memory, oldest out first. */
module Caching {
  import opened Outcomes
  import opened Protocol

  predicate NoRepeats(order: seq<string>) {
    forall i, j | 0 <= i < j < |order| :: order[i] != order[j]
  }

  /** `order` lists exactly the cached identifiers, each once, within the limit. */
  ghost predicate Coherent(limit: nat, order: seq<string>, items: map<string, Manifest>) {
    && NoRepeats(order)
    && (forall id :: id in order <==> id in items)
    && |order| <= limit
  }

  class ManifestCache {
    const limit: nat
    var order: seq<string>
    var items: map<string, Manifest>

    ghost predicate Valid()
      reads this
    {
      limit > 0 && Coherent(limit, order, items)
    }

    constructor (limit: nat)
      requires limit > 0
      ensures Valid() && this.limit == limit && items == map[]
    {
      this.limit := limit;
      order, items := [], map[];
    }

    method Get(id: string) returns (m: Option<Manifest>)
      ensures m == if id in items then Some(items[id]) else None
    {
      m := if id in items then Some(items[id]) else None;
    }

    /** The new entry is there, every other survivor is unchanged, and an entry is
        dropped only to keep within the limit, the oldest first. */
    method Put(id: string, m: Manifest) returns (ghost evicted: set<string>)
      requires Valid()
      modifies this`order, this`items
      ensures Valid() && id !in evicted
      ensures items == (old(items) - evicted)[id := m]
      ensures id in old(items) || |old(order)| < limit ==> evicted == {}
      ensures id !in old(items) && |old(order)| == limit ==> evicted == {old(order)[0]}
    {
      evicted := {};
      if id !in items {
        order := order + [id];
        while |order| > limit
          invariant NoRepeats(order) && 0 < |order| && order[|order| - 1] == id
          invariant forall k | k != id :: k in order <==> k in items
          invariant id !in items && id !in evicted
          invariant items == old(items) - evicted
          invariant |order| > limit ==> order == old(order) + [id] && evicted == {}
          invariant |order| <= limit + 1
          invariant |old(order)| < limit ==> order == old(order) + [id] && evicted == {}
          invariant |order| <= limit && |old(order)| == limit ==> evicted == {old(order)[0]}
          decreases |order|
        {
          var oldest := order[0];
          assert oldest in order && oldest != id;
          OldestGone(order);
          order := order[1..];
          items := items - {oldest};
          evicted := evicted + {oldest};
        }
      }
      items := items[id := m];
    }

    method Drop(id: string)
      requires Valid()
      modifies this`order, this`items
      ensures Valid() && items == old(items) - {id}
    {
      items := items - {id};
      for i := 0 to |order|
        invariant order == old(order) && items == old(items) - {id}
        invariant forall j | 0 <= j < i :: order[j] != id
      {
        if order[i] == id {
          RemovedAt(order, i);
          order := order[..i] + order[i + 1..];
          return;
        }
      }
    }
  }

  lemma OldestGone(order: seq<string>)
    requires NoRepeats(order) && 0 < |order|
    ensures NoRepeats(order[1..])
    ensures forall k :: k in order[1..] <==> k in order && k != order[0]
  {
    forall k
      ensures k in order[1..] <==> k in order && k != order[0]
    {
      if k in order && k != order[0] {
        var i :| 0 <= i < |order| && order[i] == k;
        assert order[1..][i - 1] == k;
      }
    }
  }

  lemma RemovedAt(order: seq<string>, i: nat)
    requires NoRepeats(order) && i < |order|
    ensures var rest := order[..i] + order[i + 1..];
            NoRepeats(rest) && |rest| == |order| - 1
            && forall k :: k in rest <==> k in order && k != order[i]
  {
    var rest := order[..i] + order[i + 1..];
    assert forall j | 0 <= j < |rest| :: rest[j] == if j < i then order[j] else order[j + 1];
    forall k
      ensures k in rest <==> k in order && k != order[i]
    {
      if k in order && k != order[i] {
        var j :| 0 <= j < |order| && order[j] == k;
        assert rest[if j < i then j else j - 1] == k;
      }
    }
  }
}
