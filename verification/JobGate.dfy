/** The gate before the SQL worker. */
module JobGate {
  // Between the tasks that request SQL work and the worker that runs it stand a
  // busy flag, a job kind, a request lock and a counting semaphore. Every read or
  // write of a shared variable is a step of its own, and the steps of any number
  // of tasks and of the worker interleave freely.

  import opened Bytes

  /** SQL_BROWSE_NONE, the value of an idle gate, is also the kind of a plain query. */
  datatype JobKind = Query | Tables | Databases | Columns | TestConnection | Mutation

  /** Where a requesting task stands in SqlRuntimeRequest... */
  datatype TaskAt =
    | Outside
    | Wants(kind: JobKind)
    | Locked(kind: JobKind)
    | SawIdle(kind: JobKind)
    | Refused
    | JobSet(kind: JobKind)
    | BusySet(kind: JobKind)
    | Unlocked(kind: JobKind)

  /** Where the worker stands in SqlRuntimePoll and SqlRunOnce. */
  datatype WorkerAt =
    | Asleep
    | Draining
    | Testing(n: nat)
    | Running(kind: JobKind)
    | Finished
    | JobCleared

  /** `owner` is the task that was accepted and has not posted yet; the logs record what was accepted and run. */
  datatype Gate = Gate(
    lock: Option<nat>,
    busy: bool,
    job: JobKind,
    sem: nat,
    tasks: seq<TaskAt>,
    worker: WorkerAt,
    owner: Option<nat>,
    accepted: seq<JobKind>,
    executed: seq<JobKind>)

  datatype GateStep =
    | Call(t: nat, kind: JobKind)
    | TakeLock(t: nat)
    | TestBusy(t: nat)
    | SetJob(t: nat)
    | SetBusy(t: nat)
    | ReleaseLock(t: nat)
    | PostRun(t: nat)
    | TakeToken
    | DropToken
    | StopDraining
    | TestJob
    | Execute
    | ClearJob
    | ClearBusy

  function Start(tasks: nat): Gate {
    Gate(None, false, Query, 0, seq(tasks, _ => Outside), Asleep, None, [], [])
  }

  /** The order in which SqlRunOnce compares the job; what is left is a query. */
  function Compared(n: nat): JobKind {
    match n
    case 0 => Tables
    case 1 => Databases
    case 2 => Columns
    case 3 => TestConnection
    case 4 => Mutation
    case _ => Query
  }

  predicate HoldsLock(a: TaskAt) {
    a.Locked? || a.SawIdle? || a.Refused? || a.JobSet? || a.BusySet?
  }

  predicate TaskEnabled(w: Gate, a: GateStep) {
    match a
    case Call(t, _) => t < |w.tasks| && w.tasks[t].Outside?
    case TakeLock(t) => t < |w.tasks| && w.tasks[t].Wants? && w.lock == None
    case TestBusy(t) => t < |w.tasks| && w.tasks[t].Locked?
    case SetJob(t) => t < |w.tasks| && w.tasks[t].SawIdle?
    case SetBusy(t) => t < |w.tasks| && w.tasks[t].JobSet?
    case ReleaseLock(t) => t < |w.tasks| && (w.tasks[t].Refused? || w.tasks[t].BusySet?)
    case PostRun(t) => t < |w.tasks| && w.tasks[t].Unlocked?
    case _ => false
  }

  predicate WorkerEnabled(w: Gate, a: GateStep) {
    match a
    case TakeToken => w.worker == Asleep && w.sem > 0
    case DropToken => w.worker == Draining && w.sem > 0
    case StopDraining => w.worker == Draining && w.sem == 0
    case TestJob => w.worker.Testing?
    case Execute => w.worker.Running?
    case ClearJob => w.worker == Finished
    case ClearBusy => w.worker == JobCleared
    case _ => false
  }

  predicate Enabled(w: Gate, a: GateStep) {
    TaskEnabled(w, a) || WorkerEnabled(w, a)
  }

  function NextTask(w: Gate, a: GateStep): Gate
    requires TaskEnabled(w, a)
  {
    match a
    case Call(t, k) => w.(tasks := w.tasks[t := Wants(k)])
    case TakeLock(t) => w.(lock := Some(t), tasks := w.tasks[t := Locked(w.tasks[t].kind)])
    case TestBusy(t) => w.(tasks := w.tasks[t := if w.busy then Refused else SawIdle(w.tasks[t].kind)])
    case SetJob(t) => w.(job := w.tasks[t].kind, tasks := w.tasks[t := JobSet(w.tasks[t].kind)])
    case SetBusy(t) =>
      var k := w.tasks[t].kind;
      w.(busy := true, tasks := w.tasks[t := BusySet(k)], owner := Some(t), accepted := w.accepted + [k])
    case ReleaseLock(t) =>
      w.(lock := None, tasks := w.tasks[t := if w.tasks[t].Refused? then Outside else Unlocked(w.tasks[t].kind)])
    case PostRun(t) => w.(sem := w.sem + 1, tasks := w.tasks[t := Outside], owner := None)
  }

  function NextWorker(w: Gate, a: GateStep): Gate
    requires WorkerEnabled(w, a)
  {
    match a
    case TakeToken => w.(sem := w.sem - 1, worker := Draining)
    case DropToken => w.(sem := w.sem - 1)
    case StopDraining => w.(worker := Testing(0))
    case TestJob =>
      if w.worker.n >= 5 || w.job == Compared(w.worker.n)
      then w.(worker := Running(Compared(w.worker.n)))
      else w.(worker := Testing(w.worker.n + 1))
    case Execute => w.(worker := Finished, executed := w.executed + [w.worker.kind])
    case ClearJob => w.(worker := JobCleared, job := Query)
    case ClearBusy => w.(worker := Asleep, busy := false)
  }

  function Next(w: Gate, a: GateStep): Gate
    requires Enabled(w, a)
  {
    if TaskEnabled(w, a) then NextTask(w, a) else NextWorker(w, a)
  }

  ghost predicate Legal(w: Gate, run: seq<GateStep>)
    decreases |run|
  {
    run == [] || (Enabled(w, run[0]) && Legal(Next(w, run[0]), run[1..]))
  }

  ghost function After(w: Gate, run: seq<GateStep>): Gate
    requires Legal(w, run)
    decreases |run|
  {
    if run == [] then w else After(Next(w, run[0]), run[1..])
  }

  // ----- The invariant -----

  /** Task `t` holds the lock exactly if it stands inside the locked region. */
  predicate LockFits(w: Gate, t: nat)
    requires t < |w.tasks|
  {
    w.lock == Some(t) <==> HoldsLock(w.tasks[t])
  }

  /** Only one task at a time is between acceptance and its post, and it knows the job. */
  predicate TaskFits(w: Gate, t: nat)
    requires t < |w.tasks|
  {
    match w.tasks[t]
    case SawIdle(_) => !w.busy
    case JobSet(k) => !w.busy && w.job == k
    case BusySet(k) => w.owner == Some(t) && w.job == k
    case Unlocked(k) => w.owner == Some(t) && w.job == k
    case _ => w.owner != Some(t)
  }

  /** The one accepted request that has not run yet, if any. */
  function InFlight(w: Gate): seq<JobKind> {
    if w.busy && w.worker != Finished && w.worker != JobCleared then [w.job] else []
  }

  predicate IsOwner(w: Gate, t: nat) {
    t < |w.tasks| && (w.tasks[t].BusySet? || w.tasks[t].Unlocked?)
  }

  predicate GateFits(w: Gate) {
    && w.accepted == w.executed + InFlight(w)
    && (w.owner.Some? ==> IsOwner(w, w.owner.value))
    && match w.worker
       case Asleep =>
         if w.busy then (if w.owner.Some? then w.sem == 0 else w.sem == 1) else w.sem == 0 && w.owner == None
       case Testing(n) => w.busy && w.sem == 0 && w.owner == None && n <= 5 && forall m :: 0 <= m < n ==> w.job != Compared(m)
       case Running(k) => w.busy && w.sem == 0 && w.owner == None && k == w.job
       case _ => w.busy && w.sem == 0 && w.owner == None
  }

  ghost predicate Inv(w: Gate) {
    && (w.lock.Some? ==> w.lock.value < |w.tasks|)
    && (forall t :: 0 <= t < |w.tasks| ==> LockFits(w, t))
    && (forall t :: 0 <= t < |w.tasks| ==> TaskFits(w, t))
    && GateFits(w)
  }

  lemma StartInv(n: nat)
    ensures Inv(Start(n))
  {
  }

  lemma OnlyHolder(w: Gate, t: nat, u: nat)
    requires Inv(w) && t < |w.tasks| && u < |w.tasks| && HoldsLock(w.tasks[t]) && HoldsLock(w.tasks[u])
    ensures t == u
  {
    assert LockFits(w, t) && LockFits(w, u);
  }

  lemma InvTask(w: Gate, a: GateStep)
    requires Inv(w) && TaskEnabled(w, a)
    ensures Inv(NextTask(w, a))
  {
    var v := NextTask(w, a);
    var t := a.t;
    assert LockFits(w, t) && TaskFits(w, t);
    forall u | 0 <= u < |v.tasks|
      ensures LockFits(v, u) && TaskFits(v, u)
    {
      assert LockFits(w, u) && TaskFits(w, u);
    }
    GateTask(w, a);
  }

  lemma GateTask(w: Gate, a: GateStep)
    requires GateFits(w) && TaskEnabled(w, a) && TaskFits(w, a.t)
    ensures GateFits(NextTask(w, a))
  {
    if a.SetBusy? {
      assert NextTask(w, a).accepted == w.executed + [w.job];
    }
  }

  lemma InvWorker(w: Gate, a: GateStep)
    requires Inv(w) && WorkerEnabled(w, a)
    ensures Inv(NextWorker(w, a))
  {
    var v := NextWorker(w, a);
    if a.TestJob? && w.worker.n == 5 {
      assert w.job !in {Compared(0), Compared(1), Compared(2), Compared(3), Compared(4)};
    }
    forall u | 0 <= u < |v.tasks|
      ensures LockFits(v, u) && TaskFits(v, u)
    {
      assert LockFits(w, u) && TaskFits(w, u);
    }
  }

  lemma {:induction false} InvRun(w: Gate, run: seq<GateStep>)
    requires Inv(w) && Legal(w, run)
    ensures Inv(After(w, run))
    decreases |run|
  {
    hide Inv, TaskEnabled, WorkerEnabled, NextTask, NextWorker;
    if run != [] {
      if TaskEnabled(w, run[0]) {
        InvTask(w, run[0]);
      } else {
        InvWorker(w, run[0]);
      }
      InvRun(Next(w, run[0]), run[1..]);
    }
  }

  // ----- Main results -----

  /** Every accepted request runs once, in order, with the kind it asked for; at most the last one is still to run. */
  lemma RunsOnce(n: nat, run: seq<GateStep>)
    requires Legal(Start(n), run)
    ensures var w := After(Start(n), run); w.accepted == w.executed + InFlight(w)
  {
    hide Legal, After, Start, TaskFits, LockFits;
    StartInv(n);
    InvRun(Start(n), run);
  }

  /** The loop that empties the semaphore never finds a token, so no accepted request is dropped. */
  lemma NoTokenDropped(n: nat, run: seq<GateStep>)
    requires Legal(Start(n), run)
    ensures !Enabled(After(Start(n), run), DropToken)
  {
    hide Legal, After, Start, TaskFits, LockFits;
    StartInv(n);
    InvRun(Start(n), run);
  }

  /** While an accepted request waits or runs, no step of anybody changes the job kind. */
  lemma JobStable(n: nat, run: seq<GateStep>, a: GateStep)
    requires Legal(Start(n), run) && Enabled(After(Start(n), run), a)
    ensures var w := After(Start(n), run); InFlight(w) != [] && InFlight(Next(w, a)) != [] ==> Next(w, a).job == w.job
  {
    hide Legal, After, Start, GateFits;
    StartInv(n);
    InvRun(Start(n), run);
    var w := After(Start(n), run);
    if a.SetJob? {
      assert TaskFits(w, a.t);
    }
  }

  /** An idle gate always lets the next request in: nothing is left behind by the last one. */
  lemma IdleIsClean(n: nat, run: seq<GateStep>)
    requires Legal(Start(n), run)
    ensures var w := After(Start(n), run);
      !w.busy ==> w.sem == 0 && w.worker == Asleep && w.accepted == w.executed
  {
    hide Legal, After, Start, TaskFits, LockFits;
    StartInv(n);
    InvRun(Start(n), run);
  }

  /** While the gate is busy the job names the request at hand, but for the moment before the worker clears the flag. */
  lemma BusyNamesJob(n: nat, run: seq<GateStep>)
    requires Legal(Start(n), run)
    ensures var w := After(Start(n), run);
      w.busy && w.worker != JobCleared && w.worker != Finished ==> w.accepted != [] && w.job == w.accepted[|w.accepted| - 1]
  {
    hide Legal, After, Start, TaskFits, LockFits;
    StartInv(n);
    InvRun(Start(n), run);
  }

  // ----- A request from start to end -----

  ghost predicate Reaches(w: Gate, run: seq<GateStep>, v: Gate) {
    Legal(w, run) && After(w, run) == v
  }

  lemma ReachesStep(w: Gate, a: GateStep, run: seq<GateStep>, v: Gate)
    requires Enabled(w, a) && Reaches(Next(w, a), run, v)
    ensures Reaches(w, [a] + run, v)
  {
    hide Enabled, Next;
    assert ([a] + run)[1..] == run;
  }

  lemma NothingReached(w: Gate)
    ensures Reaches(w, [], w)
  {
  }

  lemma {:induction false} ReachesOn(w: Gate, a: seq<GateStep>, v: Gate, b: seq<GateStep>, u: Gate)
    requires Reaches(w, a, v) && Reaches(v, b, u)
    ensures Reaches(w, a + b, u)
    decreases |a|
  {
    hide Enabled, Next;
    if a == [] {
      assert a + b == b;
    } else {
      ReachesOn(Next(w, a[0]), a[1..], v, b, u);
      assert (a + b)[1..] == a[1..] + b;
    }
  }

  /** What a task does that is let in. */
  function Asking(t: nat, k: JobKind): seq<GateStep> {
    [Call(t, k)] + ([TakeLock(t)] + ([TestBusy(t)] + ([SetJob(t)] + ([SetBusy(t)] + ([ReleaseLock(t)] + ([PostRun(t)] + []))))))
  }

  /** What a task does that is not. */
  function AskingInVain(t: nat, k: JobKind): seq<GateStep> {
    [Call(t, k)] + ([TakeLock(t)] + ([TestBusy(t)] + ([ReleaseLock(t)] + [])))
  }

  function Tests(n: nat): seq<GateStep> {
    if n == 0 then [] else [TestJob] + Tests(n - 1)
  }

  /** How many comparisons it takes to find the job. */
  function Comparisons(k: JobKind): nat {
    match k
    case Tables => 1
    case Databases => 2
    case Columns => 3
    case TestConnection => 4
    case Mutation => 5
    case Query => 6
  }

  /** What the worker does for one token. */
  function Working(k: JobKind): seq<GateStep> {
    [TakeToken] + ([StopDraining] + (Tests(Comparisons(k)) + ([Execute] + ([ClearJob] + ([ClearBusy] + [])))))
  }

  predicate MayAsk(w: Gate, t: nat) {
    t < |w.tasks| && w.tasks[t] == Outside && w.lock == None
  }

  lemma Overwritten(tasks: seq<TaskAt>, t: nat, a: TaskAt, b: TaskAt)
    requires t < |tasks|
    ensures tasks[t := a][t := b] == tasks[t := b]
  {
  }

  /** An idle gate accepts whoever asks. */
  lemma AskGranted(w: Gate, t: nat, k: JobKind)
    requires MayAsk(w, t) && !w.busy
    ensures Reaches(w, Asking(t, k), w.(busy := true, job := k, sem := w.sem + 1, owner := None, accepted := w.accepted + [k]))
  {
    hide Reaches;
    var w1 := w.(tasks := w.tasks[t := Wants(k)]);
    var w2 := w.(lock := Some(t), tasks := w.tasks[t := Locked(k)]);
    var w3 := w2.(tasks := w.tasks[t := SawIdle(k)]);
    var w4 := w3.(job := k, tasks := w.tasks[t := JobSet(k)]);
    var w5 := w4.(busy := true, tasks := w.tasks[t := BusySet(k)], owner := Some(t), accepted := w.accepted + [k]);
    var w6 := w5.(lock := None, tasks := w.tasks[t := Unlocked(k)]);
    var w7 := w6.(sem := w.sem + 1, tasks := w.tasks, owner := None);
    Overwritten(w.tasks, t, Wants(k), Locked(k));
    Overwritten(w.tasks, t, Locked(k), SawIdle(k));
    Overwritten(w.tasks, t, SawIdle(k), JobSet(k));
    Overwritten(w.tasks, t, JobSet(k), BusySet(k));
    Overwritten(w.tasks, t, BusySet(k), Unlocked(k));
    Overwritten(w.tasks, t, Unlocked(k), Outside);
    assert w.tasks[t := Outside] == w.tasks;
    NothingReached(w7);
    ReachesStep(w6, PostRun(t), [], w7);
    ReachesStep(w5, ReleaseLock(t), [PostRun(t)] + [], w7);
    ReachesStep(w4, SetBusy(t), [ReleaseLock(t)] + ([PostRun(t)] + []), w7);
    ReachesStep(w3, SetJob(t), [SetBusy(t)] + ([ReleaseLock(t)] + ([PostRun(t)] + [])), w7);
    ReachesStep(w2, TestBusy(t), [SetJob(t)] + ([SetBusy(t)] + ([ReleaseLock(t)] + ([PostRun(t)] + []))), w7);
    ReachesStep(w1, TakeLock(t), [TestBusy(t)] + ([SetJob(t)] + ([SetBusy(t)] + ([ReleaseLock(t)] + ([PostRun(t)] + [])))), w7);
    ReachesStep(w, Call(t, k), Asking(t, k)[1..], w7);
    assert Asking(t, k)[1..] == [TakeLock(t)] + ([TestBusy(t)] + ([SetJob(t)] + ([SetBusy(t)] + ([ReleaseLock(t)] + ([PostRun(t)] + [])))));
  }

  /** A busy one refuses, and nothing is left of the attempt. */
  lemma AskRefused(w: Gate, t: nat, k: JobKind)
    requires MayAsk(w, t) && w.busy
    ensures Reaches(w, AskingInVain(t, k), w)
  {
    hide Reaches;
    var w1 := w.(tasks := w.tasks[t := Wants(k)]);
    var w2 := w.(lock := Some(t), tasks := w.tasks[t := Locked(k)]);
    var w3 := w2.(tasks := w.tasks[t := Refused]);
    Overwritten(w.tasks, t, Wants(k), Locked(k));
    Overwritten(w.tasks, t, Locked(k), Refused);
    Overwritten(w.tasks, t, Refused, Outside);
    assert w.tasks[t := Outside] == w.tasks;
    NothingReached(w);
    ReachesStep(w3, ReleaseLock(t), [], w);
    ReachesStep(w2, TestBusy(t), [ReleaseLock(t)] + [], w);
    ReachesStep(w1, TakeLock(t), [TestBusy(t)] + ([ReleaseLock(t)] + []), w);
    ReachesStep(w, Call(t, k), [TakeLock(t)] + ([TestBusy(t)] + ([ReleaseLock(t)] + [])), w);
  }

  /** The comparisons end at the job that was set. */
  lemma {:induction false} TestsDone(w: Gate, n: nat)
    requires w.worker == Testing(n) && n < Comparisons(w.job)
    ensures Reaches(w, Tests(Comparisons(w.job) - n), w.(worker := Running(w.job)))
    decreases Comparisons(w.job) - n
  {
    hide Reaches;
    var next := Next(w, TestJob);
    if n + 1 == Comparisons(w.job) {
      NothingReached(next);
    } else {
      TestsDone(next, n + 1);
    }
    ReachesStep(w, TestJob, Tests(Comparisons(w.job) - n - 1), w.(worker := Running(w.job)));
  }

  /** From the job found to the gate open again. */
  lemma JobDone(w: Gate)
    requires w.worker.Running?
    ensures Reaches(w, [Execute] + ([ClearJob] + ([ClearBusy] + [])),
                    w.(worker := Asleep, busy := false, job := Query, executed := w.executed + [w.worker.kind]))
  {
    hide Reaches;
    var w1 := w.(worker := Finished, executed := w.executed + [w.worker.kind]);
    var w2 := w1.(worker := JobCleared, job := Query);
    var w3 := w2.(worker := Asleep, busy := false);
    NothingReached(w3);
    ReachesStep(w2, ClearBusy, [], w3);
    ReachesStep(w1, ClearJob, [ClearBusy] + [], w3);
    ReachesStep(w, Execute, [ClearJob] + ([ClearBusy] + []), w3);
  }

  /** One token: the job that was set runs, and the gate opens again. */
  lemma WorkDone(w: Gate)
    requires w.busy && w.sem == 1 && w.worker == Asleep
    ensures Reaches(w, Working(w.job), w.(busy := false, job := Query, sem := 0, executed := w.executed + [w.job]))
  {
    hide Reaches, Comparisons, Tests;
    var k := w.job;
    var w1 := w.(sem := 0, worker := Draining);
    var w2 := w1.(worker := Testing(0));
    var w3 := w1.(worker := Running(k));
    var done := w.(busy := false, job := Query, sem := 0, executed := w.executed + [k]);
    var rest := [Execute] + ([ClearJob] + ([ClearBusy] + []));
    JobDone(w3);
    assert Comparisons(k) > 0 by { SomeComparison(k); }
    TestsDone(w2, 0);
    ReachesOn(w2, Tests(Comparisons(k)), w3, rest, done);
    ReachesStep(w1, StopDraining, Tests(Comparisons(k)) + rest, done);
    ReachesStep(w, TakeToken, [StopDraining] + (Tests(Comparisons(k)) + rest), done);
  }

  lemma SomeComparison(k: JobKind)
    ensures Comparisons(k) > 0
  {
  }

  /**
   * After any run that leaves the gate idle and its lock free, any task that
   * asks is accepted with its kind, and the worker then runs it and opens the
   * gate again.
   */
  lemma RequestServed(n: nat, run: seq<GateStep>, t: nat, k: JobKind)
    requires Legal(Start(n), run) && MayAsk(After(Start(n), run), t) && !After(Start(n), run).busy
    ensures var w := After(Start(n), run);
      && Reaches(w, Asking(t, k), w.(busy := true, job := k, sem := 1, owner := None, accepted := w.accepted + [k]))
      && var done := w.(job := Query, owner := None, accepted := w.accepted + [k], executed := w.executed + [k]);
        Reaches(w, Asking(t, k) + Working(k), done) && done.executed == done.accepted && !done.busy
  {
    hide Legal, After, Start, Reaches, Asking, Working;
    IdleIsClean(n, run);
    var w := After(Start(n), run);
    AskGranted(w, t, k);
    var asked := w.(busy := true, job := k, sem := 1, owner := None, accepted := w.accepted + [k]);
    WorkDone(asked);
    ReachesOn(w, Asking(t, k), asked, Working(k), asked.(busy := false, job := Query, sem := 0, executed := w.executed + [k]));
  }

  /**
   * The worker clears the job before the flag, so that a task which finds the
   * gate idle cannot have its job overwritten. The price, paid on every run of
   * a job: for a moment the gate is busy with a cleared job, and so any work
   * looks like a running query.
   */
  lemma CleanupVisible(n: nat, run: seq<GateStep>)
    requires Legal(Start(n), run) && After(Start(n), run).worker.Running?
    ensures var w := After(Start(n), run);
      && Enabled(w, Execute) && Enabled(Next(w, Execute), ClearJob)
      && var v := Next(Next(w, Execute), ClearJob);
      v.busy && v.job == Query && v.executed == w.accepted && |v.accepted| > 0
      && v.accepted[|v.accepted| - 1] == w.worker.kind
  {
    hide Legal, After, Start, TaskFits, LockFits;
    StartInv(n);
    InvRun(Start(n), run);
  }
}
