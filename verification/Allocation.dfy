/** Which interrupted commits the startup pass gives a code, as a function of the order
    in which it visits the rows and of the codes it draws. */
module Allocation {
  import opened Outcomes
  import opened Protocol
  import opened Storage
  import opened Lifecycle
  import opened Safety
  import opened Recovery

  type Draws = string -> seq<string>

  // The pass over the rows

  /** The publish transaction the pass runs for an interrupted commit. */
  function Finish(c: Config, rows: Rows, x: Slice, id: string, codes: seq<string>, at: int): Publication
    requires Interrupted(x)
  {
    var r, m := x.row.value, x.live.value.manifest.value;
    Publish(rows, id, at, EffectiveTTL(c, r.ttl), m, TotalBytes(m.entries), codes)
  }

  /** The rows after one visit; `x` is what the pass found of the transfer. */
  function VisitedRow(c: Config, rows: Rows, x: Slice, id: string, codes: seq<string>, at: int): Rows {
    if Interrupted(x) then AfterPublish(rows, id, Finish(c, rows, x, id, codes, at))
    else if Purged(x) then rows - {id}
    else if x.row.Some? && (x.row.value.state.Verifying? || (PreCommit(x.row.value.state) && x.staging.None?))
    then rows[id := FailedRow(x.row.value)]
    else rows
  }

  function RowsAfter(c: Config, d: Disk, order: seq<string>, draws: Draws, at: int): Rows {
    if order == [] then d.rows
    else
      var n := |order| - 1;
      VisitedRow(c, RowsAfter(c, d, order[..n], draws, at), SliceOf(d, order[n]), order[n], draws(order[n]), at)
  }

  predicate RefusedAt(c: Config, rows: Rows, x: Slice, id: string, codes: seq<string>, at: int) {
    Interrupted(x) && Finish(c, rows, x, id, codes, at).Refused?
  }

  /** The interrupted commits that met no free code at their turn. */
  function RefusedAfter(c: Config, d: Disk, order: seq<string>, draws: Draws, at: int): set<string> {
    if order == [] then {}
    else
      var n := |order| - 1;
      RefusedAfter(c, d, order[..n], draws, at) +
      if RefusedAt(c, RowsAfter(c, d, order[..n], draws, at), SliceOf(d, order[n]), order[n], draws(order[n]), at)
      then {order[n]} else {}
  }

  /** Every row is visited once. */
  predicate Visits(order: seq<string>, ids: set<string>) {
    && (forall i | 0 <= i < |order| :: order[i] in ids)
    && (forall i, j | 0 <= i < j < |order| :: order[i] != order[j])
  }

  predicate VisitsAll(order: seq<string>, ids: set<string>) {
    Visits(order, ids) && forall id | id in ids :: id in order
  }

  // What a visit does to codes

  predicate Drawn(codes: seq<string>, x: string) { x in codes }

  /** The code a visit hands out is the first of its own draws that is free then. */
  lemma {:induction false} FirstOfItsDraws(rows: Rows, codes: seq<string>) returns (k: nat)
    requires FirstFree(rows, codes).Some?
    ensures k < |codes| && FirstFree(rows, codes) == Some(codes[k]) && !CodeTaken(rows, codes[k])
    ensures forall i | 0 <= i < k :: CodeTaken(rows, codes[i])
  {
    hide CodeTaken;
    if CodeTaken(rows, codes[0]) {
      k := FirstOfItsDraws(rows, codes[1..]);
      forall i | 0 <= i < k + 1
        ensures CodeTaken(rows, codes[i])
      {
        assert i > 0 ==> codes[1..][i - 1] == codes[i];
      }
      k := k + 1;
    } else {
      k := 0;
    }
  }

  /** How a row may stand while the pass runs: untouched before its visit; afterwards
      with its old code, or, for an interrupted commit without one, one of its draws. */
  predicate RowStands(d: Disk, order: seq<string>, draws: Draws, rows: Rows, id: string) {
    if id !in order then Get(rows, id) == Get(d.rows, id)
    else
      && id in d.rows
      && (!Purged(SliceOf(d, id)) ==> id in rows)
      && (id in rows ==>
            || rows[id].code == d.rows[id].code
            || (Interrupted(SliceOf(d, id)) && d.rows[id].code.None? && rows[id].code.Some? && Drawn(draws(id), rows[id].code.value)))
  }

  lemma VisitStands(c: Config, d: Disk, order: seq<string>, draws: Draws, at: int, rows: Rows, id: string)
    requires RowStands(d, order, draws, rows, id) && id !in order && id in d.rows
    ensures RowStands(d, order + [id], draws, VisitedRow(c, rows, SliceOf(d, id), id, draws(id), at), id)
  {
    hide LivePayloadValid, TotalBytes, FirstFree;
    var x := SliceOf(d, id);
    if Interrupted(x) && Finish(c, rows, x, id, draws(id), at).Published? {
      var k := FirstOfItsDraws(rows, draws(id));
    }
  }

  lemma VisitApart(c: Config, d: Disk, order: seq<string>, draws: Draws, at: int, rows: Rows, id: string, j: string)
    requires RowStands(d, order, draws, rows, j) && j != id
    ensures RowStands(d, order + [id], draws, VisitedRow(c, rows, SliceOf(d, id), id, draws(id), at), j)
  {
    hide LivePayloadValid, TotalBytes, FirstFree, Interrupted, Purged;
  }

  lemma {:induction false} RowsStand(c: Config, d: Disk, order: seq<string>, draws: Draws, at: int, j: string)
    requires Visits(order, d.rows.Keys)
    ensures RowStands(d, order, draws, RowsAfter(c, d, order, draws, at), j)
  {
    hide VisitedRow, Interrupted, Purged;
    if order != [] {
      var n := |order| - 1;
      RowsStand(c, d, order[..n], draws, at, j);
      var rows := RowsAfter(c, d, order[..n], draws, at);
      assert order == order[..n] + [order[n]];
      if j == order[n] {
        VisitStands(c, d, order[..n], draws, at, rows, j);
      } else {
        VisitApart(c, d, order[..n], draws, at, rows, order[n], j);
      }
    }
  }

  /** A commit is refused by what happens at its turn, and later turns do not matter. */
  lemma {:induction false} RefusedAtItsTurn(c: Config, d: Disk, order: seq<string>, draws: Draws, at: int, id: string) returns (k: nat)
    requires Visits(order, d.rows.Keys) && id in order
    ensures k < |order| && order[k] == id
    ensures id in RefusedAfter(c, d, order, draws, at) <==>
              RefusedAt(c, RowsAfter(c, d, order[..k], draws, at), SliceOf(d, id), id, draws(id), at)
  {
    hide RefusedAt, RowsAfter;
    var n := |order| - 1;
    if order[n] == id {
      k := n;
      RefusedAreVisited(c, d, order[..n], draws, at);
    } else {
      assert id in order[..n];
      k := RefusedAtItsTurn(c, d, order[..n], draws, at, id);
      assert order[..n][..k] == order[..k];
    }
  }

  lemma {:induction false} RefusedAreVisited(c: Config, d: Disk, order: seq<string>, draws: Draws, at: int)
    ensures forall id | id in RefusedAfter(c, d, order, draws, at) :: id in order
  {
    hide RefusedAt, RowsAfter;
    if order != [] {
      RefusedAreVisited(c, d, order[..|order| - 1], draws, at);
    }
  }

  lemma TurnDecides(c: Config, rows: Rows, x: Slice, id: string, codes: seq<string>, at: int)
    requires Interrupted(x) && id in rows && rows[id] == x.row.value
    ensures RefusedAt(c, rows, x, id, codes, at) <==>
              x.row.value.code.Some? || forall k | 0 <= k < |codes| :: CodeTaken(rows, codes[k])
  {
    hide LivePayloadValid, TotalBytes, CodeTaken;
    if !RefusedAt(c, rows, x, id, codes, at) {
      var k := FirstOfItsDraws(rows, codes);
    }
  }

  // What can be told beforehand

  /** A row the pass keeps carries the code. */
  predicate KeptCode(d: Disk, x: string) {
    exists j | j in d.rows :: d.rows[j].code == Some(x) && !Purged(SliceOf(d, j))
  }

  /** No other interrupted commit draws the code. */
  ghost predicate DrawnAlone(d: Disk, draws: Draws, id: string, x: string) {
    forall j | j in d.rows && j != id && Interrupted(SliceOf(d, j)) :: !Drawn(draws(j), x)
  }

  /** A code free at the start that no other commit draws is free at this one's turn. */
  lemma StaysFree(c: Config, d: Disk, order: seq<string>, draws: Draws, at: int, id: string, x: string)
    requires Visits(order, d.rows.Keys) && id !in order && !CodeTaken(d.rows, x) && DrawnAlone(d, draws, id, x)
    ensures !CodeTaken(RowsAfter(c, d, order, draws, at), x)
  {
    hide RowsAfter, Interrupted, Purged;
    var rows := RowsAfter(c, d, order, draws, at);
    forall j | j in rows
      ensures rows[j].code != Some(x)
    {
      RowsStand(c, d, order, draws, at, j);
      assert j in d.rows ==> d.rows[j].code != Some(x);
    }
  }

  /** A code some kept row carries stays taken. */
  lemma StaysTaken(c: Config, d: Disk, order: seq<string>, draws: Draws, at: int, x: string)
    requires Visits(order, d.rows.Keys) && KeptCode(d, x)
    ensures CodeTaken(RowsAfter(c, d, order, draws, at), x)
  {
    hide RowsAfter, Interrupted, Purged;
    var j :| j in d.rows && d.rows[j].code == Some(x) && !Purged(SliceOf(d, j));
    RowsStand(c, d, order, draws, at, j);
    assert j in RowsAfter(c, d, order, draws, at);
  }

  lemma Turn(c: Config, d: Disk, order: seq<string>, draws: Draws, at: int, id: string) returns (before: seq<string>)
    requires Visits(order, d.rows.Keys) && id in order && Interrupted(SliceOf(d, id))
    ensures Visits(before, d.rows.Keys) && id !in before
    ensures id in RefusedAfter(c, d, order, draws, at) <==>
              || d.rows[id].code.Some?
              || forall n | 0 <= n < |draws(id)| :: CodeTaken(RowsAfter(c, d, before, draws, at), draws(id)[n])
  {
    hide RefusedAt, RefusedAfter, RowsAfter, Interrupted, CodeTaken;
    var k := RefusedAtItsTurn(c, d, order, draws, at, id);
    before := order[..k];
    RowsStand(c, d, before, draws, at, id);
    TurnDecides(c, RowsAfter(c, d, before, draws, at), SliceOf(d, id), id, draws(id), at);
  }

  /** An interrupted commit without a code gets one, in any order, if one of its draws
      is free at the start and drawn by no other. */
  lemma FreeDrawSuffices(c: Config, d: Disk, order: seq<string>, draws: Draws, at: int, id: string, n: nat)
    requires Visits(order, d.rows.Keys) && id in order && Interrupted(SliceOf(d, id)) && d.rows[id].code.None?
    requires n < |draws(id)| && !CodeTaken(d.rows, draws(id)[n]) && DrawnAlone(d, draws, id, draws(id)[n])
    ensures id !in RefusedAfter(c, d, order, draws, at)
  {
    hide RefusedAfter, RowsAfter, Interrupted, CodeTaken, DrawnAlone;
    var before := Turn(c, d, order, draws, at, id);
    StaysFree(c, d, before, draws, at, id, draws(id)[n]);
  }

  /** An interrupted commit is refused, in any order, if kept rows carry all its draws. */
  lemma TakenDrawsRefuse(c: Config, d: Disk, order: seq<string>, draws: Draws, at: int, id: string)
    requires Visits(order, d.rows.Keys) && id in order && Interrupted(SliceOf(d, id))
    requires d.rows[id].code.Some? || forall n | 0 <= n < |draws(id)| :: KeptCode(d, draws(id)[n])
    ensures id in RefusedAfter(c, d, order, draws, at)
  {
    hide RefusedAfter, RowsAfter, Interrupted, CodeTaken, KeptCode;
    var before := Turn(c, d, order, draws, at, id);
    if d.rows[id].code.None? {
      forall n | 0 <= n < |draws(id)|
        ensures CodeTaken(RowsAfter(c, d, before, draws, at), draws(id)[n])
      {
        StaysTaken(c, d, before, draws, at, draws(id)[n]);
      }
    }
  }

  /** No code drawn for an interrupted commit is drawn for another one, or carried by a
      row the pass removes. */
  ghost predicate DrawsApart(d: Disk, draws: Draws) {
    forall id, n | id in d.rows && Interrupted(SliceOf(d, id)) && 0 <= n < |draws(id)| ::
      && DrawnAlone(d, draws, id, draws(id)[n])
      && (CodeTaken(d.rows, draws(id)[n]) ==> KeptCode(d, draws(id)[n]))
  }

  /** No code can be found for the commit on this disk. */
  predicate Hopeless(d: Disk, draws: Draws, id: string) {
    && id in d.rows && Interrupted(SliceOf(d, id))
    && (d.rows[id].code.Some? || forall n | 0 <= n < |draws(id)| :: CodeTaken(d.rows, draws(id)[n]))
  }

  /** With draws apart the refused commits are known before the pass starts. */
  lemma RefusedExactly(c: Config, d: Disk, order: seq<string>, draws: Draws, at: int, id: string)
    requires VisitsAll(order, d.rows.Keys) && DrawsApart(d, draws)
    ensures id in RefusedAfter(c, d, order, draws, at) <==> Hopeless(d, draws, id)
  {
    hide RefusedAfter, RowsAfter, Interrupted, CodeTaken, KeptCode, DrawnAlone;
    if id in d.rows && Interrupted(SliceOf(d, id)) {
      if Hopeless(d, draws, id) {
        TakenDrawsRefuse(c, d, order, draws, at, id);
      } else {
        var n :| 0 <= n < |draws(id)| && !CodeTaken(d.rows, draws(id)[n]);
        FreeDrawSuffices(c, d, order, draws, at, id, n);
      }
    } else {
      RefusedAreInterrupted(c, d, order, draws, at);
    }
  }

  lemma {:induction false} RefusedAreInterrupted(c: Config, d: Disk, order: seq<string>, draws: Draws, at: int)
    ensures forall id | id in RefusedAfter(c, d, order, draws, at) :: id in d.rows && Interrupted(SliceOf(d, id))
  {
    hide RowsAfter, Finish;
    if order != [] {
      RefusedAreInterrupted(c, d, order[..|order| - 1], draws, at);
      InterruptedHasRow(d, order[|order| - 1]);
    }
  }

  /** The stores agree after the pass exactly when every commit for which no code can be
      found is an open upload with its staging directory: a condition on the disk and
      the draws alone. */
  lemma AgreementForeseen(c: Config, d: Disk, d': Disk, order: seq<string>, draws: Draws, at: int)
    requires VisitsAll(order, d.rows.Keys) && DrawsApart(d, draws)
    requires Reconciled(c, d, d', at, RefusedAfter(c, d, order, draws, at))
    ensures Agrees(d') <==>
              forall id | id in d.rows && Hopeless(d, draws, id) :: !d.rows[id].state.Verifying? && id in d.staging
  {
    hide RefusedAfter, Hopeless, DrawsApart, Reconciled, Agrees;
    var refused := RefusedAfter(c, d, order, draws, at);
    PassReachesAgreement(c, d, d', at, refused);
    forall id
      ensures id in refused <==> Hopeless(d, draws, id)
    {
      RefusedExactly(c, d, order, draws, at, id);
    }
    forall id | Hopeless(d, draws, id)
      ensures id in d.rows
    {
      HopelessHasRow(d, draws, id);
    }
  }

  lemma HopelessHasRow(d: Disk, draws: Draws, id: string)
    requires Hopeless(d, draws, id)
    ensures id in d.rows
  {
  }

  /** Every interrupted commit has a free draw of its own. */
  ghost predicate FreeDraws(d: Disk, draws: Draws) {
    forall id | id in d.rows && Interrupted(SliceOf(d, id)) ::
      && d.rows[id].code.None?
      && exists n | 0 <= n < |draws(id)| :: !CodeTaken(d.rows, draws(id)[n]) && DrawnAlone(d, draws, id, draws(id)[n])
  }

  /** Then nothing is refused, in any order, and the stores agree afterwards. */
  lemma FreeDrawsAgree(c: Config, d: Disk, d': Disk, order: seq<string>, draws: Draws, at: int)
    requires Visits(order, d.rows.Keys) && FreeDraws(d, draws)
    requires Reconciled(c, d, d', at, RefusedAfter(c, d, order, draws, at))
    ensures RefusedAfter(c, d, order, draws, at) == {} && Agrees(d')
  {
    hide Reconciled, Agrees, Interrupted, CodeTaken, DrawnAlone, RefusedAfter;
    var refused := RefusedAfter(c, d, order, draws, at);
    RefusedAreInterrupted(c, d, order, draws, at);
    RefusedAreVisited(c, d, order, draws, at);
    forall id
      ensures id !in refused
    {
      if id in order && id in d.rows && Interrupted(SliceOf(d, id)) {
        var n :| 0 <= n < |draws(id)| && !CodeTaken(d.rows, draws(id)[n]) && DrawnAlone(d, draws, id, draws(id)[n]);
        FreeDrawSuffices(c, d, order, draws, at, id, n);
      }
    }
    PassReachesAgreement(c, d, d', at, refused);
  }

  /** A finished commit was published at its turn, and never touched again. */
  lemma {:induction false} PublishedAtItsTurn(c: Config, d: Disk, order: seq<string>, draws: Draws, at: int, id: string) returns (k: nat)
    requires Visits(order, d.rows.Keys) && id in order && Interrupted(SliceOf(d, id)) && id !in RefusedAfter(c, d, order, draws, at)
    ensures k < |order| && order[k] == id
    ensures var p := Finish(c, RowsAfter(c, d, order[..k], draws, at), SliceOf(d, id), id, draws(id), at);
            p.Published? && id in RowsAfter(c, d, order, draws, at) && RowsAfter(c, d, order, draws, at)[id] == p.row
  {
    hide Finish, Interrupted, Purged, Publish;
    var n := |order| - 1;
    if order[n] == id {
      k := n;
    } else {
      assert id in order[..n];
      k := PublishedAtItsTurn(c, d, order[..n], draws, at, id);
      assert order[..n][..k] == order[..k];
    }
  }

  /** Its code is the first of its own draws that no row carried at its turn. */
  lemma FinishedUnderOwnDraw(c: Config, d: Disk, order: seq<string>, draws: Draws, at: int, id: string) returns (k: nat, n: nat)
    requires Visits(order, d.rows.Keys) && id in order && Interrupted(SliceOf(d, id)) && id !in RefusedAfter(c, d, order, draws, at)
    ensures k < |order| && order[k] == id && n < |draws(id)| && d.rows[id].code.None?
    ensures id in RowsAfter(c, d, order, draws, at) && RowsAfter(c, d, order, draws, at)[id].code == Some(draws(id)[n])
    ensures var meanwhile := RowsAfter(c, d, order[..k], draws, at);
            !CodeTaken(meanwhile, draws(id)[n]) && forall i | 0 <= i < n :: CodeTaken(meanwhile, draws(id)[i])
    ensures !KeptCode(d, draws(id)[n])
  {
    hide RowsAfter, RefusedAfter, CodeTaken, FirstFree, TotalBytes, LivePayloadValid, KeptCode;
    k := PublishedAtItsTurn(c, d, order, draws, at, id);
    var rows := RowsAfter(c, d, order[..k], draws, at);
    assert id !in order[..k];
    RowsStand(c, d, order[..k], draws, at, id);
    n := FirstOfItsDraws(rows, draws(id));
    if KeptCode(d, draws(id)[n]) {
      StaysTaken(c, d, order[..k], draws, at, draws(id)[n]);
    }
  }
}
