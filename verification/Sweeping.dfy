/** What one cleanup pass achieves, as a function of the disk and the clock. */
module Sweeping {
  import opened Outcomes
  import opened Protocol
  import opened Storage
  import opened Lifecycle

  function StagingDeadline(c: Config, now: int): int {
    Unix(now - c.stagingTTLMinutes * MINUTE)
  }

  /** Committed rows past their expiry expire; open rows past the staging timeout
      are abandoned. */
  function MarkedRow(c: Config, r: Row, now: int): Row {
    if Due(r, now) then r.(state := Expired)
    else if Stale(r, StagingDeadline(c, now)) then r.(state := Abandoned)
    else r
  }

  function MarkedRows(c: Config, rows: Rows, now: int): Rows {
    map id | id in rows :: MarkedRow(c, rows[id], now)
  }

  /** The transfers the pass deletes. */
  function Doomed(c: Config, d: Disk, now: int): set<string> {
    set id | id in d.rows && Terminal(MarkedRow(c, d.rows[id], now).state) && !Pinned(d.claims, id, now)
  }

  function ClaimsWithout(claims: Claims, gone: set<string>): Claims {
    map cid | cid in claims && claims[cid].transferId !in gone :: claims[cid]
  }

  function Swept(c: Config, d: Disk, now: int): Disk {
    var gone := Doomed(c, d, now);
    Disk(MarkedRows(c, d.rows, now) - gone, ClaimsWithout(d.claims, gone), d.staging - gone, d.live - gone, map[])
  }

  // What a pass never does

  /** An unexpired committed transfer keeps its row and its directories. */
  lemma UnexpiredStays(c: Config, d: Disk, now: int, id: string)
    requires id in d.rows && d.rows[id].state.Committed? && d.rows[id].expiresAt.Some? && Before(now, d.rows[id].expiresAt.value)
    ensures id in Swept(c, d, now).rows && Swept(c, d, now).rows[id] == d.rows[id]
    ensures id in d.live ==> id in Swept(c, d, now).live && Swept(c, d, now).live[id] == d.live[id]
  {
    SecondsAgree(now, d.rows[id].expiresAt.value);
  }

  /** A leased transfer keeps its row, its live directory and its claim. */
  lemma LeasedStays(c: Config, d: Disk, now: int, cid: string)
    requires cid in d.claims && d.claims[cid].completedAt.None? && Before(now, d.claims[cid].leaseUntil)
    requires d.claims[cid].transferId in d.rows
    ensures var id := d.claims[cid].transferId;
            && id in Swept(c, d, now).rows
            && (id in d.live ==> id in Swept(c, d, now).live && Swept(c, d, now).live[id] == d.live[id])
            && cid in Swept(c, d, now).claims && Swept(c, d, now).claims[cid] == d.claims[cid]
  {
    SecondsAgree(now, d.claims[cid].leaseUntil);
    assert Pinned(d.claims, d.claims[cid].transferId, now);
  }

  /** Exactly the terminal transfers without a running lease go, with both their
      directories and all their claims. */
  lemma DeletedExactly(c: Config, d: Disk, now: int, id: string)
    requires id in d.rows
    ensures id !in Swept(c, d, now).rows <==>
              && (Terminal(d.rows[id].state) || Due(d.rows[id], now) || Stale(d.rows[id], StagingDeadline(c, now)))
              && !Pinned(d.claims, id, now)
    ensures id !in Swept(c, d, now).rows ==>
              && id !in Swept(c, d, now).live && id !in Swept(c, d, now).staging
              && forall cid | cid in Swept(c, d, now).claims :: Swept(c, d, now).claims[cid].transferId != id
  {
  }

  /** A second pass at the same instant changes nothing. */
  lemma SweepTwice(c: Config, d: Disk, now: int)
    ensures Swept(c, Swept(c, d, now), now) == Swept(c, d, now)
  {
    hide Due, Stale, Active, Terminal;
    var d1 := Swept(c, d, now);
    MarkTwice(c, d, now);
    var gone, again := Doomed(c, d, now), Doomed(c, d1, now);
    forall id | id in d1.rows
      ensures id !in again
    {
      StillPinned(d.claims, gone, id, now);
      assert d1.rows[id] == MarkedRows(c, d.rows, now)[id];
    }
    assert again == {};
    assert MarkedRows(c, d1.rows, now) == d1.rows;
    assert d1.rows - {} == d1.rows && d1.staging - {} == d1.staging && d1.live - {} == d1.live;
    assert ClaimsWithout(d1.claims, {}) == d1.claims;
  }

  lemma MarkTwice(c: Config, d: Disk, now: int)
    ensures forall r: Row :: MarkedRow(c, MarkedRow(c, r, now), now) == MarkedRow(c, r, now)
  {
  }

  lemma StillPinned(claims: Claims, gone: set<string>, id: string, now: int)
    requires id !in gone
    ensures Pinned(ClaimsWithout(claims, gone), id, now) <==> Pinned(claims, id, now)
  {
    hide Active;
    if Pinned(claims, id, now) {
      var cid :| cid in claims && claims[cid].transferId == id && Active(claims[cid], now);
      assert cid in ClaimsWithout(claims, gone);
    }
  }

  // The pass in numbers

  /** Some unfinished claim on the transfer has not come to the end of its lease. */
  predicate Leased(claims: Claims, id: string, now: int) {
    exists cid | cid in claims ::
      claims[cid].transferId == id && claims[cid].completedAt.None? && now < 1_000_000_000 * claims[cid].leaseUntil
  }

  lemma LeasedIsPinned(claims: Claims, id: string, now: int)
    ensures Leased(claims, id, now) <==> Pinned(claims, id, now)
  {
    forall cid | cid in claims
      ensures now < 1_000_000_000 * claims[cid].leaseUntil <==> claims[cid].leaseUntil > Unix(now)
    {
      SecondsAgree(now, claims[cid].leaseUntil);
    }
    if Leased(claims, id, now) {
      var cid :| cid in claims && claims[cid].transferId == id && claims[cid].completedAt.None? && now < 1_000_000_000 * claims[cid].leaseUntil;
      assert Active(claims[cid], now);
    }
    if Pinned(claims, id, now) {
      var cid :| cid in claims && claims[cid].transferId == id && Active(claims[cid], now);
    }
  }

  /** Row and directories are as before, the row's state apart. */
  predicate Stays(d: Disk, d': Disk, id: string, st: State) {
    && id in d.rows && id in d'.rows && d'.rows[id] == d.rows[id].(state := st)
    && (id in d.staging <==> id in d'.staging) && (id in d.staging ==> d'.staging[id] == d.staging[id])
    && (id in d.live <==> id in d'.live) && (id in d.live ==> d'.live[id] == d.live[id])
  }

  predicate Vanishes(d': Disk, id: string) {
    && id !in d'.rows && id !in d'.staging && id !in d'.live
    && forall cid | cid in d'.claims :: d'.claims[cid].transferId != id
  }

  /** What the pass makes of one transfer: an open one is abandoned when it is older than
      the staging timeout, a committed one expires in its expiry second, and what is
      terminal goes unless a lease runs. */
  predicate AfterSweep(c: Config, d: Disk, d': Disk, id: string, now: int) {
    id in d.rows ==>
      var r := d.rows[id];
      match r.state
      case Created | Uploading | Verifying =>
        if r.createdAt >= now / 1_000_000_000 - 60 * c.stagingTTLMinutes then Stays(d, d', id, r.state)
        else if Leased(d.claims, id, now) then Stays(d, d', id, Abandoned)
        else Vanishes(d', id)
      case Committed =>
        if r.expiresAt.None? || now < 1_000_000_000 * r.expiresAt.value then Stays(d, d', id, Committed)
        else if Leased(d.claims, id, now) then Stays(d, d', id, Expired)
        else Vanishes(d', id)
      case Expired | Failed | Abandoned =>
        if Leased(d.claims, id, now) then Stays(d, d', id, r.state) else Vanishes(d', id)
      case Deleting | Deleted => Stays(d, d', id, r.state)
  }

  lemma DeadlineInSeconds(c: Config, now: int)
    ensures StagingDeadline(c, now) == now / 1_000_000_000 - 60 * c.stagingTTLMinutes
  {
    var m := c.stagingTTLMinutes;
    assert now - m * MINUTE == now - (60 * m) * 1_000_000_000;
  }

  lemma SweptInNumbers(c: Config, d: Disk, now: int)
    ensures forall id :: AfterSweep(c, d, Swept(c, d, now), id, now)
  {
    hide AfterSweep, Swept;
    forall id
      ensures AfterSweep(c, d, Swept(c, d, now), id, now)
    {
      SweptOne(c, d, now, id);
    }
  }

  lemma SweptStays(c: Config, d: Disk, now: int, id: string)
    requires id in d.rows
    ensures Terminal(MarkedRow(c, d.rows[id], now).state) && !Pinned(d.claims, id, now) ==> Vanishes(Swept(c, d, now), id)
    ensures !(Terminal(MarkedRow(c, d.rows[id], now).state) && !Pinned(d.claims, id, now)) ==>
              Stays(d, Swept(c, d, now), id, MarkedRow(c, d.rows[id], now).state)
  {
    hide Pinned, StagingDeadline, Due, Stale, Terminal;
  }

  lemma MarkedInNumbers(c: Config, r: Row, now: int)
    ensures MarkedRow(c, r, now).state ==
              if r.state in {Created, Uploading, Verifying} && r.createdAt < now / 1_000_000_000 - 60 * c.stagingTTLMinutes then Abandoned
              else if r.state == Committed && r.expiresAt.Some? && now >= 1_000_000_000 * r.expiresAt.value then Expired
              else r.state
  {
    DeadlineInSeconds(c, now);
    hide StagingDeadline;
    if r.expiresAt.Some? {
      SecondsAgree(now, r.expiresAt.value);
    }
  }

  lemma SweptOne(c: Config, d: Disk, now: int, id: string)
    ensures AfterSweep(c, d, Swept(c, d, now), id, now)
  {
    hide Pinned, Leased, Swept, MarkedRow, Stays, Vanishes;
    LeasedIsPinned(d.claims, id, now);
    if id in d.rows {
      SweptStays(c, d, now, id);
      MarkedInNumbers(c, d.rows[id], now);
    }
  }
}
