/** The bounded worker pools: one feeder hands jobs to workers over an unbuffered
    channel. Every interleaving is a run of the machine below. The transfer pools
    stop at the first failure and let the feeder skip jobs once the context is
    cancelled; the verification pool keeps going and always hands out every job. */
module Pools {

  /** `Failing`: the failure is recorded, the cancellation not yet issued. */
  datatype Worker = Waiting | Running(job: nat) | Failing | Stopped | Exited

  datatype Feeder = Sending(next: nat) | Closed | Returned

  /** `done` and `skipped` remember which jobs succeeded and which were never handed
      out; `cancelled` is the pool's own cancellation, `parent` the caller's. */
  datatype Pool = Pool(jobs: nat, stopping: bool, feeder: Feeder, workers: seq<Worker>, failed: bool,
                       cancelled: bool, parent: bool, done: set<nat>, skipped: set<nat>)

  datatype Move =
    | Hand(w: nat)
    | Skip
    | Close
    | Succeed(w: nat)
    | Fail(w: nat)
    | Cancel(w: nat)
    | Finish(w: nat)
    | Return
    | ParentCancel

  predicate At(p: Pool, w: nat, s: Worker) { w < |p.workers| && p.workers[w] == s }

  predicate Over(w: Worker) { w.Stopped? || w.Exited? }

  predicate Enabled(p: Pool, m: Move) {
    match m
    case Hand(w) => p.feeder.Sending? && p.feeder.next < p.jobs && At(p, w, Waiting)
    case Skip => p.stopping && p.feeder.Sending? && p.feeder.next < p.jobs && (p.cancelled || p.parent)
    case Close => p.feeder == Sending(p.jobs)
    case Succeed(w) => w < |p.workers| && p.workers[w].Running?
    case Fail(w) => w < |p.workers| && p.workers[w].Running?
    case Cancel(w) => At(p, w, Failing)
    case Finish(w) => p.feeder.Closed? && At(p, w, Waiting)
    case Return => p.feeder.Closed? && forall i | 0 <= i < |p.workers| :: Over(p.workers[i])
    case ParentCancel => !p.parent && !p.feeder.Returned?
  }

  function Set(p: Pool, w: nat, s: Worker): Pool
    requires w < |p.workers|
  {
    p.(workers := p.workers[w := s])
  }

  function Apply(p: Pool, m: Move): Pool
    requires Enabled(p, m)
  {
    match m
    case Hand(w) => Set(p, w, Running(p.feeder.next)).(feeder := Sending(p.feeder.next + 1))
    case Skip => p.(feeder := Sending(p.feeder.next + 1), skipped := p.skipped + {p.feeder.next})
    case Close => p.(feeder := Closed)
    case Succeed(w) => Set(p, w, Waiting).(done := p.done + {p.workers[w].job})
    case Fail(w) => Set(p, w, if p.stopping then Failing else Waiting).(failed := true)
    case Cancel(w) => Set(p, w, Stopped).(cancelled := true)
    case Finish(w) => Set(p, w, Exited)
    case Return => p.(feeder := Returned)
    case ParentCancel => p.(parent := true)
  }

  /** At least one worker, unless there is nothing to do. */
  predicate Start(p: Pool) {
    && p.feeder == Sending(0) && !p.failed && !p.cancelled && p.done == {} && p.skipped == {}
    && |p.workers| > 0
    && forall i | 0 <= i < |p.workers| :: p.workers[i].Waiting?
  }

  ghost predicate IsRun(run: seq<Pool>) {
    && run != [] && Start(run[0])
    && forall i | 0 <= i < |run| - 1 :: Step(run[i], run[i + 1])
  }

  ghost predicate Step(p: Pool, q: Pool) {
    exists m :: Enabled(p, m) && q == Apply(p, m)
  }

  // What every run keeps

  function Offered(p: Pool): nat {
    if p.feeder.Sending? then p.feeder.next else p.jobs
  }

  predicate Held(p: Pool, job: nat) {
    exists w | 0 <= w < |p.workers| :: p.workers[w] == Running(job)
  }

  /** Where a job handed out may be. */
  predicate Accounted(p: Pool, job: nat) {
    job in p.done || job in p.skipped || p.failed || Held(p, job)
  }

  predicate Inv(p: Pool) {
    && Offered(p) <= p.jobs && |p.workers| > 0
    && (p.cancelled ==> p.failed)
    && (p.skipped != {} ==> p.stopping && (p.cancelled || p.parent))
    && (forall w | 0 <= w < |p.workers| :: WorkerOK(p, p.workers[w]))
    && (p.feeder.Returned? ==> forall w | 0 <= w < |p.workers| :: Over(p.workers[w]))
    && (forall job | 0 <= job < Offered(p) :: Accounted(p, job))
    && (forall job | job in p.done :: job < Offered(p))
    && (forall job | job in p.skipped :: job < Offered(p))
  }

  predicate WorkerOK(p: Pool, w: Worker) {
    match w
    case Waiting => !p.feeder.Returned?
    case Running(job) => job < Offered(p)
    case Failing => p.stopping && p.failed
    case Stopped => p.stopping && p.cancelled
    case Exited => !p.feeder.Sending?
  }

  lemma StartInv(p: Pool)
    requires Start(p)
    ensures Inv(p)
  {
  }

  lemma JobsStayAccounted(p: Pool, m: Move, job: nat)
    requires Inv(p) && Enabled(p, m) && job < Offered(Apply(p, m))
    ensures Accounted(Apply(p, m), job)
  {
    var q := Apply(p, m);
    if job < Offered(p) {
      assert Accounted(p, job);
      if Held(p, job) {
        var w :| 0 <= w < |p.workers| && p.workers[w] == Running(job);
        assert m.Succeed? || m.Fail? || q.workers[w] == Running(job);
        assert (m.Succeed? || m.Fail?) && m.w != w ==> q.workers[w] == Running(job);
      }
    } else {
      assert m.Hand? ==> q.workers[m.w] == Running(job);
    }
  }

  lemma StepKeepsInv(p: Pool, m: Move)
    requires Inv(p) && Enabled(p, m)
    ensures Inv(Apply(p, m))
  {
    hide Accounted;
    var q := Apply(p, m);
    forall job: nat | job < Offered(q)
      ensures Accounted(q, job)
    {
      JobsStayAccounted(p, m, job);
    }
  }

  lemma {:induction false} RunKeepsInv(run: seq<Pool>, i: nat)
    requires IsRun(run) && i < |run|
    ensures Inv(run[i])
  {
    hide Inv, Enabled, Apply;
    if i == 0 {
      StartInv(run[0]);
    } else {
      RunKeepsInv(run, i - 1);
      assert Step(run[i - 1], run[i - 1 + 1]);
      var m :| Enabled(run[i - 1], m) && run[i] == Apply(run[i - 1], m);
      StepKeepsInv(run[i - 1], m);
    }
  }

  function AllJobs(n: nat): (jobs: set<nat>)
    ensures forall job: nat :: job in jobs <==> job < n
  {
    if n == 0 then {} else AllJobs(n - 1) + {n - 1}
  }

  /** No failure means every job ran and succeeded, unless the caller's own context
      was cancelled and a job was skipped for it. */
  lemma NilMeansAllDone(run: seq<Pool>, i: nat)
    requires IsRun(run) && i < |run| && run[i].feeder.Returned? && !run[i].failed
    ensures run[i].done + run[i].skipped == AllJobs(run[i].jobs)
    ensures run[i].skipped != {} ==> run[i].stopping && run[i].parent
    ensures !run[i].parent || !run[i].stopping ==> run[i].done == AllJobs(run[i].jobs)
  {
    RunKeepsInv(run, i);
    var p := run[i];
    forall job: nat | job < p.jobs
      ensures job in p.done + p.skipped
    {
      assert Accounted(p, job);
    }
  }

  // Every interleaving ends

  function Weight(w: Worker): nat {
    match w
    case Waiting => 1
    case Running(_) => 3
    case Failing => 2
    case Stopped => 0
    case Exited => 0
  }

  function Weights(ws: seq<Worker>): nat {
    if ws == [] then 0 else Weights(ws[..|ws| - 1]) + Weight(ws[|ws| - 1])
  }

  lemma {:induction false} WeightsUpdate(ws: seq<Worker>, w: nat, s: Worker)
    requires w < |ws|
    ensures Weights(ws[w := s]) == Weights(ws) - Weight(ws[w]) + Weight(s)
  {
    var n := |ws| - 1;
    if w == n {
      assert ws[w := s][..n] == ws[..n];
    } else {
      assert ws[w := s][..n] == ws[..n][w := s];
      WeightsUpdate(ws[..n], w, s);
    }
  }

  /** How much can still happen. */
  function Measure(p: Pool): int {
    var feeding := match p.feeder
      case Sending(next) => 3 * (p.jobs - next) + 2
      case Closed => 1
      case Returned => 0;
    feeding + Weights(p.workers) + (if p.parent then 0 else 1)
  }

  lemma StepDescends(p: Pool, m: Move)
    requires Inv(p) && Enabled(p, m)
    ensures 0 <= Measure(Apply(p, m)) < Measure(p)
  {
    hide Accounted, WorkerOK, Weights;
    StepKeepsInv(p, m);
    match m {
      case Hand(w) => WeightsUpdate(p.workers, w, Running(p.feeder.next));
      case Succeed(w) => WeightsUpdate(p.workers, w, Waiting);
      case Fail(w) => WeightsUpdate(p.workers, w, if p.stopping then Failing else Waiting);
      case Cancel(w) => WeightsUpdate(p.workers, w, Stopped);
      case Finish(w) => WeightsUpdate(p.workers, w, Exited);
      case Skip =>
      case Close =>
      case Return =>
      case ParentCancel =>
    }
  }

  /** No run is longer than its first state's measure. */
  lemma {:induction false} RunsEnd(run: seq<Pool>, i: nat)
    requires IsRun(run) && i < |run|
    ensures i + Measure(run[i]) <= Measure(run[0]) && Measure(run[i]) >= 0
  {
    hide Inv, Enabled, Apply, Measure;
    if i == 0 {
      MeasurePositive(run[0]);
    } else {
      RunsEnd(run, i - 1);
      RunKeepsInv(run, i - 1);
      assert Step(run[i - 1], run[i - 1 + 1]);
      var m :| Enabled(run[i - 1], m) && run[i] == Apply(run[i - 1], m);
      StepDescends(run[i - 1], m);
    }
  }

  lemma MeasurePositive(p: Pool)
    requires Start(p)
    ensures Measure(p) >= 0
  {
  }

  /** Until the pool returns, some move other than the caller's cancellation is
      possible: no interleaving deadlocks. */
  lemma NoDeadlock(run: seq<Pool>, i: nat) returns (m: Move)
    requires IsRun(run) && i < |run| && !run[i].feeder.Returned?
    ensures Enabled(run[i], m) && m != ParentCancel
  {
    RunKeepsInv(run, i);
    m := AlwaysAMove(run[i]);
  }

  lemma AlwaysAMove(p: Pool) returns (m: Move)
    requires Inv(p) && !p.feeder.Returned?
    ensures Enabled(p, m) && m != ParentCancel
  {
    if w :| 0 <= w < |p.workers| && p.workers[w].Running? {
      m := Succeed(w);
    } else if w :| 0 <= w < |p.workers| && p.workers[w].Failing? {
      m := Cancel(w);
    } else if p.feeder == Sending(p.jobs) {
      m := Close;
    } else if w :| 0 <= w < |p.workers| && p.workers[w].Waiting? {
      m := if p.feeder.Sending? then Hand(w) else Finish(w);
    } else if p.feeder.Sending? {
      assert WorkerOK(p, p.workers[0]);
      m := Skip;
    } else {
      m := Return;
    }
  }

  // When the caller cancels

  /** Moves follow one another from `p` to `q`. */
  ghost predicate Leads(path: seq<Pool>, p: Pool, q: Pool) {
    && path != [] && path[0] == p && path[|path| - 1] == q
    && forall i | 0 <= i < |path| - 1 :: Step(path[i], path[i + 1])
  }

  lemma MoveFirst(p: Pool, m: Move, path: seq<Pool>, q: Pool) returns (longer: seq<Pool>)
    requires Enabled(p, m) && Leads(path, Apply(p, m), q)
    ensures Leads(longer, p, q)
  {
    longer := [p] + path;
    forall i | 0 <= i < |longer| - 1
      ensures Step(longer[i], longer[i + 1])
    {
      if i > 0 {
        assert longer[i] == path[i - 1] && longer[i + 1] == path[i];
        assert Step(path[i - 1], path[i - 1 + 1]);
      } else {
        assert Step(p, Apply(p, m));
      }
    }
  }

  /** With a cancelled caller the feeder may skip every job that is left. */
  lemma {:induction false} SkipTheRest(p: Pool) returns (path: seq<Pool>, q: Pool)
    requires p.stopping && p.parent && p.feeder.Sending? && p.feeder.next <= p.jobs
    ensures Leads(path, p, q) && q == p.(feeder := Closed, skipped := q.skipped)
    decreases p.jobs - p.feeder.next
  {
    if p.feeder.next == p.jobs {
      q := Apply(p, Close);
      path := MoveFirst(p, Close, [q], q);
    } else {
      path, q := SkipTheRest(Apply(p, Skip));
      path := MoveFirst(p, Skip, path, q);
    }
  }

  /** Idle workers leave one by one, and the pool returns. */
  lemma {:induction false} LeaveAndReturn(p: Pool, left: nat) returns (path: seq<Pool>, q: Pool)
    requires p.feeder.Closed? && left <= |p.workers|
    requires forall i | 0 <= i < left :: p.workers[i].Exited?
    requires forall i | left <= i < |p.workers| :: p.workers[i].Waiting?
    ensures Leads(path, p, q) && q == p.(feeder := Returned, workers := q.workers)
    decreases |p.workers| - left
  {
    if left == |p.workers| {
      q := Apply(p, Return);
      path := MoveFirst(p, Return, [q], q);
    } else {
      path, q := LeaveAndReturn(Apply(p, Finish(left)), left + 1);
      path := MoveFirst(p, Finish(left), path, q);
    }
  }

  lemma Join(a: seq<Pool>, b: seq<Pool>, p: Pool, q: Pool, r: Pool) returns (path: seq<Pool>)
    requires Leads(a, p, q) && Leads(b, q, r)
    ensures Leads(path, p, r)
  {
    path := a + b[1..];
    forall i | 0 <= i < |path| - 1
      ensures Step(path[i], path[i + 1])
    {
      if i < |a| - 1 {
        assert path[i] == a[i] && path[i + 1] == a[i + 1];
      } else {
        var j := i - (|a| - 1);
        assert path[i] == b[j] && path[i + 1] == b[j + 1];
      }
    }
  }

  /** If the caller cancels before a job is handed out, a transfer pool may return no
      error with nothing done, whatever the jobs and the workers. */
  lemma CancelledParentMayHideJobs(p: Pool) returns (run: seq<Pool>)
    requires Start(p) && p.stopping && !p.parent
    ensures IsRun(run) && run[0] == p
    ensures var last := run[|run| - 1]; last.feeder.Returned? && !last.failed && last.done == {}
  {
    hide Inv;
    var cancelled := Apply(p, ParentCancel);
    var skipping, closed := SkipTheRest(cancelled);
    var leaving, end := LeaveAndReturn(closed, 0);
    var rest := Join(skipping, leaving, cancelled, closed, end);
    run := MoveFirst(p, ParentCancel, rest, end);
  }

  /** A pool can return without an error and without all its jobs exactly when it stops
      early, has jobs, and its caller may cancel: here both halves meet. */
  lemma HidesJobsExactly(p: Pool)
    requires Start(p) && !p.parent
    ensures (exists run :: IsRun(run) && run[0] == p && Hides(run[|run| - 1])) <==> p.stopping && p.jobs > 0
  {
    hide Start, Enabled, Apply, Step;
    if p.stopping && p.jobs > 0 {
      var run := CancelledParentMayHideJobs(p);
      JobsStay(run, |run| - 1);
      assert 0 in AllJobs(p.jobs);
      assert IsRun(run) && run[0] == p && Hides(run[|run| - 1]);
    }
    if run: seq<Pool> :| IsRun(run) && run[0] == p && Hides(run[|run| - 1]) {
      HidingNeedsJobs(run);
    }
  }

  lemma HidingNeedsJobs(run: seq<Pool>)
    requires IsRun(run) && Hides(run[|run| - 1])
    ensures run[0].stopping && run[0].jobs > 0
  {
    var last := run[|run| - 1];
    NilMeansAllDone(run, |run| - 1);
    JobsStay(run, |run| - 1);
    assert last.done + last.skipped == AllJobs(last.jobs);
    assert last.skipped != {};
  }

  /** The pool is back without an error, and some job is not done. */
  predicate Hides(p: Pool) {
    p.feeder.Returned? && !p.failed && p.done != AllJobs(p.jobs)
  }

  lemma OneStepKeepsJobs(p: Pool, q: Pool)
    requires Step(p, q)
    ensures q.jobs == p.jobs && q.stopping == p.stopping
  {
  }

  lemma {:induction false} JobsStay(run: seq<Pool>, i: nat)
    requires IsRun(run) && i < |run|
    ensures run[i].jobs == run[0].jobs && run[i].stopping == run[0].stopping
  {
    hide Enabled, Apply, Start, Step;
    if i > 0 {
      JobsStay(run, i - 1);
      assert Step(run[i - 1], run[i - 1 + 1]);
      OneStepKeepsJobs(run[i - 1], run[i]);
    }
  }
}
