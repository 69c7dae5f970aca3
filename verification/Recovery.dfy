/** What the startup pass must achieve, one transfer at a time, and what follows. */
module Recovery {
  import opened Outcomes
  import opened Protocol
  import opened Storage
  import opened Lifecycle
  import opened Safety

  /** All the disk holds about one identifier, the trash apart. */
  datatype Slice = Slice(row: Option<Row>, staging: Option<Dir>, live: Option<Dir>)

  const GONE := Slice(None, None, None)

  function SliceOf(d: Disk, id: string): Slice {
    Slice(Get(d.rows, id), Get(d.staging, id), Get(d.live, id))
  }

  predicate LiveOK(live: Option<Dir>) {
    live.Some? && LivePayloadValid(live.value)
  }

  /** The rename into live happened, the commit transaction did not. */
  predicate Interrupted(x: Slice) {
    x.row.Some? && PreCommit(x.row.value.state) && LiveOK(x.live)
  }

  /** The pass removes the row and the directories. */
  predicate Purged(x: Slice) {
    x.row.Some? && (x.row.value.state.Deleting? || (x.row.value.state.Committed? && !LiveOK(x.live)))
  }

  function FailedRow(r: Row): Row {
    r.(state := Failed, lastError := Some(InternalError))
  }

  /** The commit is finished as asked: only the code is the pass's own. */
  predicate Finished(c: Config, x: Slice, r': Row, at: int)
    requires Interrupted(x)
  {
    var r, m := x.row.value, x.live.value.manifest.value;
    r'.code.Some? && r' == PublishedRow(r, r'.code.value, at, EffectiveTTL(c, r.ttl), m, TotalBytes(m.entries))
  }

  /** From `x` the pass run at second `at` leads to `y`. */
  predicate Settles(c: Config, x: Slice, y: Slice, at: int, refused: bool) {
    if x.row.None? then y == GONE
    else if Interrupted(x) then
      if refused then y == x else y.row.Some? && y == x.(row := y.row) && Finished(c, x, y.row.value, at)
    else if Purged(x) then y == GONE
    else if x.row.value.state.Verifying? then y == Slice(Some(FailedRow(x.row.value)), None, None)
    else if PreCommit(x.row.value.state) && x.staging.None? then y == x.(row := Some(FailedRow(x.row.value)))
    else y == x
  }

  function KeptClaims(d: Disk, done: set<string>): Claims {
    map cid | cid in d.claims && !(d.claims[cid].transferId in done && Purged(SliceOf(d, d.claims[cid].transferId)))
      :: d.claims[cid]
  }

  /** The whole pass, from `d` to `d'`; `refused` are the interrupted commits for
      which no code could be allocated. */
  ghost predicate Reconciled(c: Config, d: Disk, d': Disk, at: int, refused: set<string>) {
    && (forall id :: Settles(c, SliceOf(d, id), SliceOf(d', id), at, id in refused))
    && (forall id | id in refused :: Interrupted(SliceOf(d, id)))
    && d'.claims == KeptClaims(d, d.rows.Keys)
    && d'.trash == map[]
  }

  // The two stores agree

  predicate SliceAgrees(x: Slice) {
    match x.row
    case None => x == GONE
    case Some(r) =>
      && !r.state.Verifying? && !r.state.Deleting?
      && (r.state.Committed? ==> LiveOK(x.live))
      && (r.state.Created? || r.state.Uploading? ==> x.staging.Some?)
  }

  /** No row is left half way, every committed transfer has its payload, every open
      upload has its staging directory, and nothing on disk lacks a row. */
  ghost predicate Agrees(d: Disk) {
    (forall id :: SliceAgrees(SliceOf(d, id))) && d.trash == map[]
  }

  lemma SettledAgrees(c: Config, x: Slice, y: Slice, at: int, refused: bool)
    requires Settles(c, x, y, at, refused) && (refused ==> Interrupted(x))
    ensures SliceAgrees(y) <==> (refused ==> !x.row.value.state.Verifying? && x.staging.Some?)
    ensures !refused ==> !Interrupted(y) && !Purged(y)
  {
    hide LivePayloadValid, TotalBytes;
  }

  /** The pass brings any disk to agreement, whatever was lost, unless it could not
      allocate a code for an interrupted commit. */
  lemma PassReachesAgreement(c: Config, d: Disk, d': Disk, at: int, refused: set<string>)
    requires Reconciled(c, d, d', at, refused)
    ensures Agrees(d') <==>
              forall id | id in refused :: !d.rows[id].state.Verifying? && id in d.staging
  {
    hide Settles, Interrupted, SliceAgrees;
    forall id
      ensures SliceAgrees(SliceOf(d', id)) <==>
                (id in refused ==> id in d.rows && !d.rows[id].state.Verifying? && id in d.staging)
    {
      assert Settles(c, SliceOf(d, id), SliceOf(d', id), at, id in refused);
      SettledAgrees(c, SliceOf(d, id), SliceOf(d', id), at, id in refused);
      InterruptedHasRow(d, id);
    }
    forall id | id in refused
      ensures id in d.rows
    {
      InterruptedHasRow(d, id);
    }
  }

  lemma InterruptedHasRow(d: Disk, id: string)
    ensures Interrupted(SliceOf(d, id)) ==> id in d.rows
  {
    hide LivePayloadValid;
  }

  // A second pass

  lemma SettledStays(c: Config, x: Slice, y: Slice, z: Slice, at: int, at': int, first: bool, second: bool)
    requires Settles(c, x, y, at, first) && Settles(c, y, z, at', second)
    requires (first ==> Interrupted(x)) && (second ==> Interrupted(y))
    ensures !Purged(y) && (second ==> first) && (!first || second ==> z == y)
  {
    hide LivePayloadValid, TotalBytes;
  }

  lemma SameSlicesSameDisk(d: Disk, d': Disk)
    requires forall id :: SliceOf(d', id) == SliceOf(d, id)
    ensures d'.rows == d.rows && d'.staging == d.staging && d'.live == d.live
  {
    forall id
      ensures id in d'.rows <==> id in d.rows
      ensures id in d'.staging <==> id in d.staging
      ensures id in d'.live <==> id in d.live
      ensures id in d.rows ==> d'.rows[id] == d.rows[id]
      ensures id in d.staging ==> d'.staging[id] == d.staging[id]
      ensures id in d.live ==> d'.live[id] == d.live[id]
    {
      assert SliceOf(d', id) == SliceOf(d, id);
    }
  }

  /** Another pass, whenever it runs and whatever codes it draws, touches nothing but
      the commits the first one could not give a code: it finishes them or leaves them. */
  lemma SecondPassChangesNothing(c: Config, d: Disk, d1: Disk, d2: Disk, at: int, at': int, first: set<string>, second: set<string>)
    requires Reconciled(c, d, d1, at, first) && Reconciled(c, d1, d2, at', second)
    ensures second <= first
    ensures forall id | id !in first || id in second :: SliceOf(d2, id) == SliceOf(d1, id)
    ensures d2.claims == d1.claims && d2.trash == d1.trash
    ensures first == {} ==> d2 == d1
  {
    hide Settles, Interrupted, SliceOf, Purged;
    forall id
      ensures !Purged(SliceOf(d1, id)) && (id in second ==> id in first)
      ensures id !in first || id in second ==> SliceOf(d2, id) == SliceOf(d1, id)
    {
      assert Settles(c, SliceOf(d, id), SliceOf(d1, id), at, id in first);
      SettledStays(c, SliceOf(d, id), SliceOf(d1, id), SliceOf(d2, id), at, at', id in first, id in second);
    }
    assert d2.claims == d1.claims;
    if first == {} {
      SameSlicesSameDisk(d1, d2);
    }
  }

  // The order of the pass

  /** Equal but for the code and the two commit times, which keep their distance. */
  predicate SameButCode(y: Slice, z: Slice) {
    && z == y.(row := z.row)
    && (y.row.Some? <==> z.row.Some?)
    && (y.row.Some? ==>
          var r, r' := y.row.value, z.row.value;
          && r' == r.(code := r'.code, committedAt := r'.committedAt, expiresAt := r'.expiresAt)
          && (r == r' || (r.committedAt.Some? && r.expiresAt.Some? && r'.committedAt.Some? && r'.expiresAt.Some?
                          && r.expiresAt.value - r.committedAt.value == r'.expiresAt.value - r'.committedAt.value)))
  }

  lemma SettledTwice(c: Config, x: Slice, y: Slice, z: Slice, at: int, at': int)
    requires Settles(c, x, y, at, false) && Settles(c, x, z, at', false)
    ensures SameButCode(y, z)
  {
    hide LivePayloadValid, TotalBytes;
  }

  /** Whatever order the rows come in, and whenever the pass runs, it ends the same but
      for the codes and commit times of the commits it finishes, and for the commits one
      of the two passes could not give a code. */
  lemma OrderChoosesOnlyCodes(c: Config, d: Disk, d1: Disk, d2: Disk, at: int, at': int, refused1: set<string>, refused2: set<string>)
    requires Reconciled(c, d, d1, at, refused1) && Reconciled(c, d, d2, at', refused2)
    ensures d1.claims == d2.claims && d1.trash == d2.trash
    ensures forall id | id !in refused1 + refused2 :: SameButCode(SliceOf(d1, id), SliceOf(d2, id))
    ensures forall id | id in refused1 * refused2 :: SliceOf(d1, id) == SliceOf(d2, id)
  {
    hide Settles, SliceOf, SameButCode, Purged, Interrupted;
    forall id
      ensures id !in refused1 + refused2 ==> SameButCode(SliceOf(d1, id), SliceOf(d2, id))
      ensures id in refused1 * refused2 ==> SliceOf(d1, id) == SliceOf(d2, id)
    {
      assert Settles(c, SliceOf(d, id), SliceOf(d1, id), at, id in refused1);
      assert Settles(c, SliceOf(d, id), SliceOf(d2, id), at', id in refused2);
      if id !in refused1 + refused2 {
        SettledTwice(c, SliceOf(d, id), SliceOf(d1, id), SliceOf(d2, id), at, at');
      }
      if id in refused1 * refused2 {
        RefusedTwice(c, SliceOf(d, id), SliceOf(d1, id), SliceOf(d2, id), at, at');
      }
    }
  }

  lemma RefusedTwice(c: Config, x: Slice, y: Slice, z: Slice, at: int, at': int)
    requires Interrupted(x) && Settles(c, x, y, at, true) && Settles(c, x, z, at', true)
    ensures y == z
  {
  }

  // What becomes of a damaged payload

  /** The `i`-th declared entry is not in the payload, or its file has another size. */
  predicate EntryLost(dir: Dir, i: int) {
    && dir.manifest.Some? && 0 <= i < |dir.manifest.value.entries|
    && var e := dir.manifest.value.entries[i];
       e.path !in dir.payload || (e.kind.FileEntry? && dir.payload[e.path].File? && |dir.payload[e.path].data| != e.size)
  }

  /** The transfer's live directory is missing, or lacks its manifest or an entry. */
  predicate PayloadLost(live: Dirs, id: string) {
    id !in live || live[id].manifest.None? || exists i | 0 <= i < |live[id].manifest.value.entries| :: EntryLost(live[id], i)
  }

  /** The manifest is valid, and every entry is there: the files as files, at their sizes. */
  predicate PayloadThere(live: Dirs, id: string) {
    && id in live && live[id].manifest.Some? && Valid(live[id].manifest.value)
    && forall i | 0 <= i < |live[id].manifest.value.entries| ::
         var e := live[id].manifest.value.entries[i];
         && e.path in live[id].payload
         && (e.kind.FileEntry? ==> live[id].payload[e.path].File? && |live[id].payload[e.path].data| == e.size)
  }

  lemma LostIsNotOK(live: Dirs, id: string)
    ensures PayloadLost(live, id) ==> !LiveOK(Get(live, id))
    ensures PayloadThere(live, id) ==> LiveOK(Get(live, id))
  {
    hide Valid;
    if PayloadLost(live, id) && id in live && live[id].manifest.Some? {
      var i :| 0 <= i < |live[id].manifest.value.entries| && EntryLost(live[id], i);
      assert !LooksPresent(live[id].payload, live[id].manifest.value.entries[i]);
    }
    if PayloadThere(live, id) {
      forall i | 0 <= i < |live[id].manifest.value.entries|
        ensures LooksPresent(live[id].payload, live[id].manifest.value.entries[i])
      {
        var e := live[id].manifest.value.entries[i];
        assert e.path in live[id].payload;
      }
    }
  }

  /** What the pass makes of one transfer, in terms of the payload's files. */
  predicate AfterLoss(d: Disk, d': Disk, id: string) {
    id in d.rows ==>
      var st := d.rows[id].state;
      && (st == Committed && PayloadLost(d.live, id) ==> id !in d'.rows && id !in d'.live && id !in d'.staging)
      && (st == Committed && PayloadThere(d.live, id) ==>
            && id in d'.rows && d'.rows[id] == d.rows[id] && id in d'.live && d'.live[id] == d.live[id]
            && (id in d.staging <==> id in d'.staging))
      && ((st == Created || st == Uploading || st == Verifying) && PayloadLost(d.live, id) ==>
            id in d'.rows && d'.rows[id].state != Committed && d'.rows[id].code == d.rows[id].code)
  }

  lemma LossIsNoticed(c: Config, d: Disk, d': Disk, id: string, at: int, refused: bool)
    requires Settles(c, SliceOf(d, id), SliceOf(d', id), at, refused)
    ensures AfterLoss(d, d', id)
  {
    hide LivePayloadValid, TotalBytes, PayloadLost, PayloadThere;
    LostIsNotOK(d.live, id);
  }

  /** A committed transfer that lost its live directory, its manifest, an entry or the
      size of a file goes with its row and directories; one that has them all stays as
      it is. An open transfer with such a directory is never committed. */
  lemma PassNoticesLoss(c: Config, d: Disk, d': Disk, at: int, refused: set<string>)
    requires Reconciled(c, d, d', at, refused)
    ensures forall id :: AfterLoss(d, d', id)
  {
    hide Settles, AfterLoss;
    forall id
      ensures AfterLoss(d, d', id)
    {
      assert Settles(c, SliceOf(d, id), SliceOf(d', id), at, id in refused);
      LossIsNoticed(c, d, d', id, at, id in refused);
    }
  }

  // When a finished commit expires

  /** A row that the pass at second `at` commits expires as many minutes later as its
      request asked for, or as the configuration says for a request of zero. */
  predicate FinishedInTime(c: Config, d: Disk, d': Disk, id: string, at: int) {
    id in d.rows && id in d'.rows && d.rows[id].state != Committed && d'.rows[id].state == Committed ==>
      && d'.rows[id].committedAt == Some(at)
      && d'.rows[id].expiresAt == Some(at + 60 * (if d.rows[id].ttl != 0 then d.rows[id].ttl else c.defaultTTL))
      && d'.rows[id].ttl == d.rows[id].ttl && d'.rows[id].note == d.rows[id].note
  }

  lemma FinishKeepsTime(c: Config, d: Disk, d': Disk, id: string, at: int, refused: bool)
    requires Settles(c, SliceOf(d, id), SliceOf(d', id), at, refused)
    ensures FinishedInTime(c, d, d', id, at)
  {
    hide LivePayloadValid, TotalBytes;
  }

  lemma PassKeepsTime(c: Config, d: Disk, d': Disk, at: int, refused: set<string>)
    requires Reconciled(c, d, d', at, refused)
    ensures forall id :: FinishedInTime(c, d, d', id, at)
  {
    hide Settles, FinishedInTime;
    forall id
      ensures FinishedInTime(c, d, d', id, at)
    {
      assert Settles(c, SliceOf(d, id), SliceOf(d', id), at, id in refused);
      FinishKeepsTime(c, d, d', id, at, id in refused);
    }
  }
}
