/** Idempotency keys: a request reserves its key, commits at most one transfer, and
    records the code it got. A repeated request is answered from the record. */
module Idempotency {
  import opened Outcomes

  const KEY_TTL_SECONDS := 86400

  /** One row of the key table; `result` is the transfer and the code it got. */
  datatype Record = Record(fingerprint: string, expires: int, result: Option<(string, string)>)

  type Keys = map<string, Record>

  /** The reservation's answer: go ahead, replay a code, or refuse. */
  datatype Reservation = Reserved | Replay(code: string) | Refused(error: ErrorCode)

  function Reserve(keys: Keys, key: string, fingerprint: string): Reservation {
    if key !in keys then Reserved
    else if keys[key].fingerprint != fingerprint then Refused(IdempotencyConflict)
    else if keys[key].result.Some? then Replay(keys[key].result.value.1)
    else Refused(StateConflict)
  }

  function Remembered(keys: Keys, key: string, fingerprint: string, now: int): Keys {
    if key in keys then keys else keys[key := Record(fingerprint, now + KEY_TTL_SECONDS, None)]
  }

  function Completed(keys: Keys, key: string, id: string, code: string): Keys {
    if key in keys then keys[key := keys[key].(result := Some((id, code)))] else keys
  }

  function Unexpired(keys: Keys, now: int): Keys {
    map k | k in keys && keys[k].expires > now :: keys[k]
  }

  /** The key table; every method is one transaction. */
  class KeyTable {
    var keys: Keys

    constructor ()
      ensures keys == map[]
    {
      keys := map[];
    }

    /** Inserts the record unless one is there. */
    method Remember(key: string, fingerprint: string, now: int) returns (existing: Option<Record>)
      modifies this
      ensures existing == if key in old(keys) then Some(old(keys)[key]) else None
      ensures keys == Remembered(old(keys), key, fingerprint, now)
    {
      if key in keys {
        return Some(keys[key]);
      }
      keys := keys[key := Record(fingerprint, now + KEY_TTL_SECONDS, None)];
      existing := None;
    }

    method Complete(key: string, id: string, code: string)
      modifies this
      ensures keys == Completed(old(keys), key, id, code)
      ensures keys == if key in old(keys) then old(keys)[key := Record(old(keys)[key].fingerprint, old(keys)[key].expires, Some((id, code)))]
                      else old(keys)
    {
      if key in keys {
        keys := keys[key := keys[key].(result := Some((id, code)))];
      }
    }

    method Forget(key: string)
      modifies this
      ensures keys == old(keys) - {key}
    {
      keys := keys - {key};
    }

    method PurgeExpired(now: int)
      modifies this
      ensures keys == Unexpired(old(keys), now)
      ensures forall k :: k in keys <==> k in old(keys) && now < old(keys)[k].expires
      ensures forall k | k in keys :: keys[k] == old(keys)[k]
    {
      keys := map k | k in keys && keys[k].expires > now :: keys[k];
    }

    /** Reserves the key of a request, or answers from the record. A key of unusable
        length reserves nothing. */
    method BeginIdempotent(operation: string, key: string, fingerprint: string, now: int) returns (r: Reservation)
      modifies this
      ensures (|key| < 8 || |key| > 200) ==> r == Refused(InvalidRequest) && keys == old(keys)
      ensures 8 <= |key| <= 200 ==>
                var hash := operation + "\0" + key;
                && r == Reserve(old(keys), hash, fingerprint)
                && keys == Remembered(old(keys), hash, fingerprint, now)
                && (r.Reserved? <==> hash !in old(keys))
      ensures 8 <= |key| <= 200 && operation + "\0" + key !in old(keys) ==>
                r == Reserved && keys == old(keys)[operation + "\0" + key := Record(fingerprint, now + 86400, None)]
      ensures 8 <= |key| <= 200 && operation + "\0" + key in old(keys) ==>
                var row := old(keys)[operation + "\0" + key];
                && keys == old(keys)
                && r == if row.fingerprint != fingerprint then Refused(IdempotencyConflict)
                        else if row.result.None? then Refused(StateConflict)
                        else Replay(row.result.value.1)
    {
      if |key| < 8 || |key| > 200 {
        return Refused(InvalidRequest);
      }
      var existing := Remember(operation + "\0" + key, fingerprint, now);
      if existing.None? {
        return Reserved;
      }
      if existing.value.fingerprint != fingerprint {
        return Refused(IdempotencyConflict);
      }
      if existing.value.result.Some? {
        return Replay(existing.value.result.value.1);
      }
      r := Refused(StateConflict);
    }
  }

  // Requests over time

  /** A request holding a key: still working, or committed and about to record it. */
  datatype Request = Working(key: string) | Committed(key: string, id: string, code: string)

  datatype Commit = Commit(key: string, id: string, code: string)

  /** `keys` survives a crash, `live` does not. For the statements, `owner` is the
      request that inserted each row, `commits` is what each request committed, and
      `under` collects the requests that committed under a key since its row was
      inserted. */
  datatype Sys = Sys(keys: Keys, live: map<nat, Request>, now: int, next: nat,
                     owner: map<string, nat>, commits: map<nat, Commit>, under: map<string, set<nat>>)

  datatype Action =
    | Begin(key: string, fingerprint: string)
    | Publish(r: nat, id: string, code: string)
    | Finish(r: nat)
    | Forget(r: nat)
    | Purge
    | DropTransfer(id: string)
    | Tick(now: int)
    | Crash
    | Recover(r: nat, key: string, id: string, code: string)

  predicate Enabled(s: Sys, a: Action) {
    match a
    case Begin(_, _) => true
    case Publish(r, _, _) => r in s.live && s.live[r].Working?
    case Finish(r) => r in s.live && s.live[r].Committed?
    case Forget(r) => r in s.live && s.live[r].Working?
    case Purge => true
    case DropTransfer(_) => true
    case Tick(t) => s.now <= t
    case Crash => true
    // the startup pass finishes a commit whose request died after the rename
    case Recover(r, key, _, _) => s.live == map[] && key in s.keys && key in s.owner && s.owner[key] == r && r !in s.commits
  }

  predicate Shaped(s: Sys) {
    s.owner.Keys == s.keys.Keys == s.under.Keys
  }

  function Committing(s: Sys, r: nat, c: Commit): Sys
    requires Shaped(s)
  {
    s.(commits := s.commits[r := c],
       under := if c.key in s.under then s.under[c.key := s.under[c.key] + {r}] else s.under)
  }

  function Dropping(s: Sys, gone: set<string>): Sys {
    s.(keys := s.keys - gone, owner := s.owner - gone, under := s.under - gone)
  }

  function Expired(s: Sys): set<string> {
    set k | k in s.keys && s.keys[k].expires <= s.now
  }

  /** The rows that record a transfer; they are deleted with it. */
  function KeysOf(s: Sys, id: string): set<string> {
    set k | k in s.keys && s.keys[k].result.Some? && s.keys[k].result.value.0 == id
  }

  function Apply(s: Sys, a: Action): (t: Sys)
    requires Shaped(s) && Enabled(s, a)
    ensures Shaped(t)
  {
    match a
    case Begin(key, fp) =>
      if key in s.keys then s.(next := s.next + 1)
      else s.(keys := Remembered(s.keys, key, fp, s.now), live := s.live[s.next := Working(key)], next := s.next + 1,
              owner := s.owner[key := s.next], under := s.under[key := {}])
    case Publish(r, id, code) =>
      Committing(s, r, Commit(s.live[r].key, id, code)).(live := s.live[r := Committed(s.live[r].key, id, code)])
    case Finish(r) =>
      s.(keys := Completed(s.keys, s.live[r].key, s.live[r].id, s.live[r].code), live := s.live - {r})
    case Forget(r) => Dropping(s, {s.live[r].key}).(live := s.live - {r})
    case Purge => Dropping(s, Expired(s))
    case DropTransfer(id) => Dropping(s, KeysOf(s, id))
    case Tick(t) => s.(now := t)
    case Crash => s.(live := map[])
    case Recover(r, key, id, code) => Committing(s, r, Commit(key, id, code))
  }

  /** No request at work holds a key that is due. */
  predicate Prompt(s: Sys) {
    forall r | r in s.live :: s.live[r].key in s.keys ==> s.keys[s.live[r].key].expires > s.now
  }

  // What prompt runs keep

  /** The row was inserted by `r`, only `r` ever committed under it, and a recorded
      result is what `r` committed before it ended. */
  predicate RowOK(s: Sys, key: string)
    requires Shaped(s) && key in s.keys
  {
    var r := s.owner[key];
    && r < s.next
    && s.under[key] <= {r}
    && (s.under[key] == {} <==> r !in s.commits)
    && (r in s.commits ==> s.commits[r].key == key)
    && (s.keys[key].result.Some? ==>
          r in s.commits && r !in s.live && s.keys[key].result == Some((s.commits[r].id, s.commits[r].code)))
  }

  /** A request at work still owns the row of its key. */
  predicate RequestOK(s: Sys, r: nat)
    requires Shaped(s) && r in s.live
  {
    var q := s.live[r];
    && q.key in s.keys && s.owner[q.key] == r
    && (q.Working? ==> r !in s.commits)
    && (q.Committed? ==> r in s.commits && s.commits[r] == Commit(q.key, q.id, q.code))
  }

  /** Every request inserts one row at most. */
  predicate OwnersApart(owner: map<string, nat>) {
    forall j, k | j in owner && k in owner && j != k :: owner[j] != owner[k]
  }

  predicate Inv(s: Sys) {
    && Shaped(s)
    && OwnersApart(s.owner)
    && (forall key | key in s.keys :: RowOK(s, key))
    && (forall r | r in s.live :: RequestOK(s, r))
    && (forall r | r in s.commits :: r < s.next)
    && (forall r | r in s.live :: r < s.next)
  }

  predicate Start(s: Sys) {
    s.keys == map[] && s.live == map[] && s.owner == map[] && s.commits == map[] && s.under == map[]
  }

  ghost predicate Step(s: Sys, s': Sys) {
    Shaped(s) && exists a :: Enabled(s, a) && (a.Purge? ==> Prompt(s)) && s' == Apply(s, a)
  }

  /** Taking actions one after another. */
  function After(s: Sys, actions: seq<Action>): Option<Sys>
    requires Shaped(s)
    decreases |actions|
  {
    if actions == [] then Some(s)
    else if !Enabled(s, actions[0]) then None
    else After(Apply(s, actions[0]), actions[1..])
  }

  /** A run in which no request outlives its key. */
  ghost predicate IsPromptRun(run: seq<Sys>) {
    run != [] && Start(run[0]) && forall i | 0 <= i < |run| - 1 :: Step(run[i], run[i + 1])
  }

  lemma BeginKeeps(s: Sys, a: Action)
    requires Inv(s) && a.Begin?
    ensures Inv(Apply(s, a))
  {
    hide RowOK, RequestOK;
    var t := Apply(s, a);
    assert Shaped(t);
    assert forall r | r in s.live :: RequestOK(s, r);
    forall r | r in s.live
      ensures s.live[r].key in s.keys
    {
      HolderHasRow(s, r);
    }
    forall key | key in s.keys
      ensures RowOK(t, key) && s.owner[key] < s.next
    {
      RowStays(s, t, key);
    }
    forall r | r in s.live
      ensures RequestOK(t, r)
    {
      RequestStays(s, t, r);
    }
    if a.key !in s.keys {
      NewRowOK(s, a.key, a.fingerprint);
    }
  }

  lemma RowStays(s: Sys, t: Sys, key: string)
    requires Shaped(s) && Shaped(t) && key in s.keys && RowOK(s, key)
    requires key in t.keys && t.keys[key] == s.keys[key] && t.owner[key] == s.owner[key] && t.under[key] == s.under[key]
    requires t.commits == s.commits && s.next <= t.next && (forall r | r in t.live && r !in s.live :: r >= s.next)
    ensures RowOK(t, key) && s.owner[key] < s.next
  {
  }

  lemma RequestStays(s: Sys, t: Sys, r: nat)
    requires Shaped(s) && Shaped(t) && r in s.live && r in t.live && t.live[r] == s.live[r] && RequestOK(s, r)
    requires t.commits == s.commits && s.live[r].key in t.keys && t.owner[s.live[r].key] == s.owner[s.live[r].key]
    ensures RequestOK(t, r)
  {
  }

  lemma HolderHasRow(s: Sys, r: nat)
    requires Shaped(s) && r in s.live && RequestOK(s, r)
    ensures s.live[r].key in s.keys
  {
  }

  lemma NewRowOK(s: Sys, key: string, fp: string)
    requires Inv(s) && key !in s.keys
    ensures var t := Apply(s, Begin(key, fp)); RowOK(t, key) && RequestOK(t, s.next)
  {
    assert s.next !in s.commits;
  }

  lemma CommitKeeps(s: Sys, r: nat, c: Commit)
    requires Inv(s) && c.key in s.keys && s.owner[c.key] == r && r !in s.commits
    requires forall q | q in s.live && q != r :: s.live[q].key != c.key
    ensures var t := Committing(s, r, c);
            && Shaped(t) && (forall key | key in t.keys :: RowOK(t, key)) && t.live == s.live
            && (forall q | q in t.live && q != r :: RequestOK(t, q))
            && (forall q | q in t.commits :: q < t.next)
  {
    var t := Committing(s, r, c);
    assert RowOK(s, c.key);
    forall key | key in t.keys
      ensures RowOK(t, key)
    {
      assert RowOK(s, key);
      assert key != c.key ==> s.owner[key] != r;
    }
    forall q | q in t.live && q != r
      ensures RequestOK(t, q)
    {
      assert RequestOK(s, q);
    }
  }

  lemma OneHolder(s: Sys, r: nat, q: nat)
    requires Inv(s) && r in s.live && q in s.live && s.live[r].key == s.live[q].key
    ensures r == q
  {
    assert RequestOK(s, r) && RequestOK(s, q);
  }

  lemma PublishKeeps(s: Sys, a: Action)
    requires Inv(s) && a.Publish? && Enabled(s, a)
    ensures Inv(Apply(s, a))
  {
    hide RowOK;
    var t := Apply(s, a);
    assert RequestOK(s, a.r);
    forall q | q in s.live && q != a.r
      ensures s.live[q].key != s.live[a.r].key
    {
      if s.live[q].key == s.live[a.r].key {
        OneHolder(s, q, a.r);
      }
    }
    CommitKeeps(s, a.r, Commit(s.live[a.r].key, a.id, a.code));
    var u := Committing(s, a.r, Commit(s.live[a.r].key, a.id, a.code));
    forall key | key in t.keys
      ensures RowOK(t, key)
    {
      assert RowOK(u, key);
      SameRow(u, t, key);
    }
    forall q | q in t.live
      ensures RequestOK(t, q)
    {
      if q != a.r {
        assert RequestOK(u, q);
      }
    }
  }

  lemma SameRow(u: Sys, t: Sys, key: string)
    requires Shaped(u) && key in u.keys && RowOK(u, key) && t == u.(live := t.live) && t.live.Keys <= u.live.Keys
    ensures RowOK(t, key)
  {
  }

  lemma FinishKeeps(s: Sys, a: Action)
    requires Inv(s) && a.Finish? && Enabled(s, a)
    ensures Inv(Apply(s, a))
  {
    var t := Apply(s, a);
    assert RequestOK(s, a.r);
    forall key | key in t.keys
      ensures RowOK(t, key)
    {
      assert RowOK(s, key);
    }
    forall q | q in t.live
      ensures RequestOK(t, q)
    {
      assert RequestOK(s, q);
    }
  }

  /** Dropping rows keeps the invariant exactly when no request at work loses its row. */
  lemma DroppingKeeps(s: Sys, gone: set<string>)
    requires Inv(s)
    ensures Inv(Dropping(s, gone)) <==> forall r | r in s.live :: s.live[r].key !in gone
  {
    var t := Dropping(s, gone);
    if forall r | r in s.live :: s.live[r].key !in gone {
      forall key | key in t.keys
        ensures RowOK(t, key)
      {
        assert RowOK(s, key);
      }
      forall q | q in t.live
        ensures RequestOK(t, q)
      {
        assert RequestOK(s, q);
      }
    }
    if Inv(t) {
      forall r | r in s.live
        ensures s.live[r].key !in gone
      {
        assert RequestOK(t, r);
      }
    }
  }

  lemma PurgeKeepsInv(s: Sys)
    requires Inv(s) && Prompt(s)
    ensures Inv(Apply(s, Purge))
  {
    hide RowOK;
    DroppingKeeps(s, Expired(s));
    forall r | r in s.live
      ensures s.live[r].key !in Expired(s)
    {
      assert RequestOK(s, r);
    }
  }

  /** A deleted transfer takes only rows whose request has ended. */
  lemma DropTransferKeeps(s: Sys, id: string)
    requires Inv(s)
    ensures Inv(Apply(s, DropTransfer(id)))
    ensures var keys := Apply(s, DropTransfer(id)).keys;
            && (forall k :: k in keys <==> k in s.keys && (s.keys[k].result.None? || s.keys[k].result.value.0 != id))
            && (forall k | k in keys :: keys[k] == s.keys[k])
  {
    DroppingKeeps(s, KeysOf(s, id));
    forall r | r in s.live
      ensures s.live[r].key !in KeysOf(s, id)
    {
      assert RequestOK(s, r);
      assert RowOK(s, s.live[r].key);
    }
  }

  lemma ForgetKeeps(s: Sys, a: Action)
    requires Inv(s) && a.Forget? && Enabled(s, a)
    ensures Inv(Apply(s, a))
  {
    hide RowOK;
    var key := s.live[a.r].key;
    var u := s.(live := s.live - {a.r});
    forall r | r in u.live
      ensures u.live[r].key != key && RequestOK(u, r)
    {
      assert RequestOK(s, r) && RequestOK(s, a.r);
    }
    forall k | k in u.keys
      ensures RowOK(u, k)
    {
      SameRow(s, u, k);
    }
    DroppingKeeps(u, {key});
    assert Apply(s, a) == Dropping(u, {key});
  }

  lemma StepKeepsInv(s: Sys, a: Action)
    requires Inv(s) && Enabled(s, a) && (a.Purge? ==> Prompt(s))
    ensures Inv(Apply(s, a))
  {
    hide Prompt;
    match a {
      case Begin(_, _) => BeginKeeps(s, a);
      case Publish(_, _, _) => PublishKeeps(s, a);
      case Finish(_) => FinishKeeps(s, a);
      case Forget(_) => ForgetKeeps(s, a);
      case Purge => PurgeKeepsInv(s);
      case DropTransfer(id) => DropTransferKeeps(s, id);
      case Tick(_) => RestKeeps(s, a);
      case Crash => RestKeeps(s, a);
      case Recover(r, key, id, code) => CommitKeeps(s, r, Commit(key, id, code));
    }
  }

  lemma RestKeeps(s: Sys, a: Action)
    requires Inv(s) && Enabled(s, a) && (a.Tick? || a.Crash?)
    ensures Inv(Apply(s, a))
  {
    var t := Apply(s, a);
    forall key | key in t.keys
      ensures RowOK(t, key)
    {
      assert RowOK(s, key);
    }
    forall r | r in t.live
      ensures RequestOK(t, r)
    {
      assert RequestOK(s, r);
    }
  }

  lemma {:induction false} RunKeepsInv(run: seq<Sys>, i: nat)
    requires IsPromptRun(run) && i < |run|
    ensures Inv(run[i])
  {
    hide Inv, Enabled, Apply, Prompt, Shaped;
    if i == 0 {
      EmptyIsFine(run[0]);
    } else {
      RunKeepsInv(run, i - 1);
      assert Step(run[i - 1], run[i - 1 + 1]);
      var s := run[i - 1];
      assert Shaped(s);
      var a :| Enabled(s, a) && (a.Purge? ==> Prompt(s)) && run[i] == Apply(s, a);
      StepKeepsInv(s, a);
    }
  }

  lemma EmptyIsFine(s: Sys)
    requires Start(s)
    ensures Inv(s)
  {
  }

  // The promise

  /** While a key's row exists, at most one transfer was committed under it, and a
      request with that key is answered with that transfer's code, told of a conflict,
      or told that the first request is not finished. It never starts a second commit. */
  lemma AtMostOncePerKey(run: seq<Sys>, i: nat, key: string, fingerprint: string)
    requires IsPromptRun(run) && i < |run| && key in run[i].keys
    ensures Shaped(run[i]) && |run[i].under[key]| <= 1
    ensures !Reserve(run[i].keys, key, fingerprint).Reserved?
    ensures fingerprint != run[i].keys[key].fingerprint ==> Reserve(run[i].keys, key, fingerprint) == Refused(IdempotencyConflict)
    ensures var answer := Reserve(run[i].keys, key, fingerprint);
            answer.Replay? ==>
              && run[i].under[key] == {run[i].owner[key]} && run[i].owner[key] in run[i].commits
              && run[i].commits[run[i].owner[key]].code == answer.code
    ensures Apply(run[i], Begin(key, fingerprint)).live == run[i].live
    ensures Apply(run[i], Begin(key, fingerprint)).keys == run[i].keys
  {
    RunKeepsInv(run, i);
    var s := run[i];
    assert RowOK(s, key);
    assert s.under[key] == {} || s.under[key] == {s.owner[key]};
  }

  // The promise, exactly

  /** At most one request committed under each row, and a recorded code is the one the
      row's own request got. */
  predicate Kept(s: Sys) {
    && Shaped(s)
    && forall key | key in s.keys :: RowKept(s, key)
  }

  predicate RowKept(s: Sys, key: string)
    requires Shaped(s) && key in s.keys
  {
    && |s.under[key]| <= 1
    && (s.keys[key].result.Some? ==>
          s.owner[key] in s.commits && s.keys[key].result.value.1 == s.commits[s.owner[key]].code)
  }

  /** Purges met on the way find no request that outlives its key. */
  predicate PromptPath(s: Sys, actions: seq<Action>)
    requires Shaped(s)
    decreases |actions|
  {
    actions != [] && Enabled(s, actions[0]) ==>
      (actions[0].Purge? ==> Prompt(s)) && PromptPath(Apply(s, actions[0]), actions[1..])
  }

  /** Whatever happens from here on, the promise is kept. */
  ghost predicate KeptForGood(s: Sys)
    requires Shaped(s)
  {
    forall actions | PromptPath(s, actions) :: var t := After(s, actions); t.Some? ==> Kept(t.value)
  }

  lemma InvKeepsPromise(s: Sys)
    requires Inv(s)
    ensures Kept(s)
  {
    forall key | key in s.keys
      ensures RowKept(s, key)
    {
      assert RowOK(s, key);
      assert s.under[key] == {} || s.under[key] == {s.owner[key]};
    }
  }

  lemma {:induction false} PathKeepsPromise(s: Sys, actions: seq<Action>)
    requires Inv(s) && PromptPath(s, actions)
    ensures var t := After(s, actions); t.Some? ==> Kept(t.value)
    decreases |actions|
  {
    hide Apply, Enabled, Prompt, RowOK, RequestOK;
    if actions == [] {
      InvKeepsPromise(s);
    } else if Enabled(s, actions[0]) {
      StepKeepsInv(s, actions[0]);
      PathKeepsPromise(Apply(s, actions[0]), actions[1..]);
    }
  }

  lemma OneAction(s: Sys, a: Action, rest: seq<Action>)
    requires Shaped(s) && Enabled(s, a) && !a.Purge?
    ensures After(s, [a] + rest) == After(Apply(s, a), rest)
    ensures PromptPath(s, [a] + rest) <==> PromptPath(Apply(s, a), rest)
  {
    assert ([a] + rest)[1..] == rest;
  }

  /** The key of a purged row is reserved by another request, while the first one works on. */
  lemma KeyReservedAgain(s: Sys, r: nat) returns (t: Sys)
    requires Inv(s) && r in s.live && s.live[r].key in s.keys && s.keys[s.live[r].key].expires <= s.now
    ensures var p := Apply(s, Purge);
            && Enabled(p, Begin(s.live[r].key, "")) && t == Apply(p, Begin(s.live[r].key, ""))
    ensures Shaped(t) && r < s.next && t.live == s.live[s.next := Working(s.live[r].key)] && t.commits == s.commits
    ensures var key := s.live[r].key;
            key in t.keys && t.owner[key] == s.next && t.under[key] == {} && t.keys[key].result.None? && s.next !in t.commits
  {
    hide RowOK, RequestOK;
    var key := s.live[r].key;
    var p := Apply(s, Purge);
    assert key in Expired(s) && key !in p.keys;
    t := Apply(p, Begin(key, ""));
  }

  /** If the outliving request is still working, both requests commit under one row. */
  lemma WorkingBreaks(t: Sys, key: string, r: nat, q: nat) returns (u: Sys)
    requires Shaped(t) && r != q && r in t.live && q in t.live && t.live[r] == Working(key) && t.live[q] == Working(key)
    requires key in t.keys && t.under[key] == {}
    ensures After(t, [Publish(r, "a", "A"), Publish(q, "b", "B")]) == Some(u) && !Kept(u)
    ensures PromptPath(t, [Publish(r, "a", "A"), Publish(q, "b", "B")])
  {
    var t1 := Apply(t, Publish(r, "a", "A"));
    assert [Publish(r, "a", "A")] + [Publish(q, "b", "B")] == [Publish(r, "a", "A"), Publish(q, "b", "B")];
    OneAction(t, Publish(r, "a", "A"), [Publish(q, "b", "B")]);
    u := Apply(t1, Publish(q, "b", "B"));
    assert [Publish(q, "b", "B")] + [] == [Publish(q, "b", "B")];
    OneAction(t1, Publish(q, "b", "B"), []);
    assert u.under[key] == {r, q} && |{r, q}| == 2;
    assert !RowKept(u, key);
  }

  /** If it has committed already, it records its code on the other request's row. */
  lemma CommittedBreaks(t: Sys, key: string, r: nat) returns (u: Sys)
    requires Shaped(t) && r in t.live && t.live[r].Committed? && t.live[r].key == key
    requires key in t.keys && t.owner[key] !in t.commits
    ensures After(t, [Finish(r)]) == Some(u) && !Kept(u) && PromptPath(t, [Finish(r)])
  {
    u := Apply(t, Finish(r));
    assert [Finish(r)] + [] == [Finish(r)];
    OneAction(t, Finish(r), []);
    assert !RowKept(u, key);
  }

  /** A purge under a request that outlives its key leads to a broken promise. */
  lemma OutlivedKeyBreaks(s: Sys) returns (actions: seq<Action>)
    requires Inv(s) && !Prompt(s)
    ensures PromptPath(Apply(s, Purge), actions)
    ensures var t := After(Apply(s, Purge), actions); t.Some? && !Kept(t.value)
  {
    hide After, PromptPath, Apply, RowOK, RequestOK, Kept;
    var r :| r in s.live && s.live[r].key in s.keys && s.keys[s.live[r].key].expires <= s.now;
    var key := s.live[r].key;
    var t := KeyReservedAgain(s, r);
    ghost var rest: seq<Action>;
    ghost var u: Sys;
    if s.live[r].Working? {
      u := WorkingBreaks(t, key, r, s.next);
      rest := [Publish(r, "a", "A"), Publish(s.next, "b", "B")];
    } else {
      u := CommittedBreaks(t, key, r);
      rest := [Finish(r)];
    }
    OneAction(Apply(s, Purge), Begin(key, ""), rest);
    actions := [Begin(key, "")] + rest;
  }

  lemma PurgeDropsDue(s: Sys)
    requires Shaped(s)
    ensures forall k :: k in Apply(s, Purge).keys <==> k in s.keys && s.now < s.keys[k].expires
  {
  }

  /** After a purge the promise is kept for good exactly when no request at work held a
      key that was due. */
  lemma PurgeKeepsExactly(s: Sys)
    requires Inv(s)
    ensures KeptForGood(Apply(s, Purge)) <==> Prompt(s)
    ensures forall k :: k in Apply(s, Purge).keys <==> k in s.keys && s.now < s.keys[k].expires
  {
    PurgeDropsDue(s);
    hide After, PromptPath, Apply, RowOK, RequestOK, Kept, Prompt;
    if Prompt(s) {
      PurgeKeepsInv(s);
      forall actions | PromptPath(Apply(s, Purge), actions)
        ensures var t := After(Apply(s, Purge), actions); t.Some? ==> Kept(t.value)
      {
        PathKeepsPromise(Apply(s, Purge), actions);
      }
    } else {
      var actions := OutlivedKeyBreaks(s);
    }
  }

  // Such a run exists

  const EMPTY := Sys(map[], map[], 0, 0, map[], map[], map[])

  /** From an empty server, a request whose body takes as long as its key lives: after
      the next purge, two transfers are committed under one row. */
  lemma OutlivedKeyCommitsTwice(key: string, fp: string) returns (actions: seq<Action>, s: Sys)
    ensures Start(EMPTY) && Shaped(s) && After(EMPTY, [Begin(key, fp), Tick(KEY_TTL_SECONDS)]) == Some(s) && !Prompt(s)
    ensures PromptPath(Apply(s, Purge), actions)
    ensures var t := After(Apply(s, Purge), actions); t.Some? && !Kept(t.value)
  {
    hide After, PromptPath, Kept, RowOK, RequestOK;
    var s1 := Apply(EMPTY, Begin(key, fp));
    assert [Begin(key, fp)] + [Tick(KEY_TTL_SECONDS)] == [Begin(key, fp), Tick(KEY_TTL_SECONDS)];
    OneAction(EMPTY, Begin(key, fp), [Tick(KEY_TTL_SECONDS)]);
    EmptyIsFine(EMPTY);
    StepKeepsInv(EMPTY, Begin(key, fp));
    s := Apply(s1, Tick(KEY_TTL_SECONDS));
    assert [Tick(KEY_TTL_SECONDS)] + [] == [Tick(KEY_TTL_SECONDS)];
    OneAction(s1, Tick(KEY_TTL_SECONDS), []);
    AfterNothing(s);
    StepKeepsInv(s1, Tick(KEY_TTL_SECONDS));
    assert s.live[0].key == key;
    actions := OutlivedKeyBreaks(s);
  }

  lemma AfterNothing(s: Sys)
    requires Shaped(s)
    ensures After(s, []) == Some(s)
  {
  }
}
