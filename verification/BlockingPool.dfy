/**
 The pool that runs blocking tasks, as a transition system over any number of concurrent calls of
 `submit`. A step is one change made under the lock, one store to a published gauge, or one action
 local to a task or to the coroutine that waits for it; steps interleave in any order.
 */
module BlockingPool {
  import opened FiniteSets
  import opened Options

  datatype Limits = Limits(maxQueue: nat, threads: nat)

  /** The two counts kept under the lock, and the metrics that others read without it. */
  datatype Counts = Counts(queued: nat, active: nat, activeGauge: nat, queuedGauge: nat, rejected: nat)

  function AfterSubmit(maxQueue: nat, c: Counts): (Counts, bool) {
    if c.queued >= maxQueue then (c.(rejected := c.rejected + 1), false)
    else (c.(queued := c.queued + 1), true)
  }

  function AfterStart(c: Counts): Counts {
    c.(queued := if c.queued > 0 then c.queued - 1 else 0, active := c.active + 1)
  }

  function AfterSettle(c: Counts): Counts {
    c.(active := if c.active > 0 then c.active - 1 else 0)
  }

  function PublishActive(c: Counts): Counts {
    c.(activeGauge := c.active)
  }

  function PublishQueued(c: Counts): Counts {
    c.(queuedGauge := c.queued)
  }

  datatype Region = Submitting | Starting | Settling

  /** One lock region, from the lock to the unlock. */
  function AfterRegion(maxQueue: nat, c: Counts, region: Region): Counts {
    match region
    case Submitting =>
      var (d, ok) := AfterSubmit(maxQueue, c);
      if ok then PublishQueued(PublishActive(d)) else d
    case Starting => PublishQueued(PublishActive(AfterStart(c)))
    case Settling => PublishQueued(PublishActive(AfterSettle(c)))
  }

  /** Lock regions one after another. */
  function AfterRegions(maxQueue: nat, regions: seq<Region>): Counts {
    if regions == [] then Counts(0, 0, 0, 0, 0)
    else AfterRegion(maxQueue, AfterRegions(maxQueue, regions[..|regions| - 1]), regions[|regions| - 1])
  }

  /** The fields of the pool; each method is one lock region. */
  class Pool {
    const maxQueue: nat
    var queued: nat
    var active: nat
    var activeGauge: nat
    var queuedGauge: nat
    var rejected: nat

    function Value(): Counts
      reads this
    {
      Counts(queued, active, activeGauge, queuedGauge, rejected)
    }

    constructor (maxQueue: nat)
      ensures this.maxQueue == maxQueue && Value() == Counts(0, 0, 0, 0, 0)
    {
      this.maxQueue := maxQueue;
      queued, active, activeGauge, queuedGauge, rejected := 0, 0, 0, 0, 0;
    }

    method PublishMetrics()
      modifies `activeGauge, `queuedGauge
      ensures Value() == PublishQueued(PublishActive(old(Value())))
    {
      activeGauge := active;
      queuedGauge := queued;
    }

    method Submit() returns (accepted: bool)
      modifies this
      ensures var (c, ok) := AfterSubmit(maxQueue, old(Value()));
        accepted == ok && Value() == if ok then PublishQueued(PublishActive(c)) else c
    {
      if queued >= maxQueue {
        rejected := rejected + 1;
        return false;
      }
      queued := queued + 1;
      PublishMetrics();
      return true;
    }

    method Start()
      modifies this
      ensures Value() == PublishQueued(PublishActive(AfterStart(old(Value()))))
    {
      if queued > 0 {
        queued := queued - 1;
      }
      active := active + 1;
      PublishMetrics();
    }

    method Settle()
      modifies this
      ensures Value() == PublishQueued(PublishActive(AfterSettle(old(Value()))))
    {
      if active > 0 {
        active := active - 1;
      }
      PublishMetrics();
    }
  }

  /** Any sequence of calls on the object. */
  method RunRegions(maxQueue: nat, regions: seq<Region>) returns (pool: Pool)
    ensures fresh(pool) && pool.maxQueue == maxQueue && pool.Value() == AfterRegions(maxQueue, regions)
  {
    pool := new Pool(maxQueue);
    for i := 0 to |regions|
      invariant fresh(pool) && pool.maxQueue == maxQueue && pool.Value() == AfterRegions(maxQueue, regions[..i])
    {
      assert regions[..i + 1][..i] == regions[..i];
      match regions[i]
      case Submitting => var _ := pool.Submit();
      case Starting => pool.Start();
      case Settling => pool.Settle();
    }
    assert regions[..|regions|] == regions;
  }

  // ---------------------------------------------------------------- the system

  datatype Outcome = Value(value: string) | Error(error: string)

  /** Where a task is: turned away, counted but not handed to the pool, in its queue, picked up by a
      thread that has not yet counted it, running, with its outcome stored, no longer counted, over. */
  datatype Phase = Rejected | Accepted | Posted | Picked | Running | Computed | Settled | Finished

  /** The coroutine that waits: about to look at `done`, having seen it unset, given up, or answered. */
  datatype Awaiter = Looking | SawUnset | TimedOut | Got(outcome: Option<Outcome>)

  datatype Task = Task(phase: Phase, outcome: Option<Outcome>, done: bool, awaiter: Awaiter)

  datatype Lock = Free | PublishingActive(owner: nat) | PublishingQueued(owner: nat)

  datatype System = System(counts: Counts, lock: Lock, tasks: map<nat, Task>)

  datatype Step =
    | Submit(task: nat)
    | StoreActive
    | StoreQueuedAndUnlock
    | Post(task: nat)
    | Pick(task: nat)
    | Start(task: nat)
    | Compute(task: nat, outcome: Outcome)
    | Settle(task: nat)
    | Finish(task: nat)
    | Look(task: nat)
    | Sleep(task: nat)
    | TimeOut(task: nat)

  predicate Owns(lock: Lock, task: nat) {
    lock != Free && lock.owner == task
  }

  /** The task is at this point, and its own thread is not inside a lock region. */
  predicate At(sys: System, task: nat, phase: Phase) {
    task in sys.tasks && sys.tasks[task].phase == phase && !Owns(sys.lock, task)
  }

  predicate Waits(sys: System, task: nat, awaiter: Awaiter) {
    task in sys.tasks && sys.tasks[task].awaiter == awaiter
    && sys.tasks[task].phase != Rejected && sys.tasks[task].phase != Accepted
  }

  predicate Enabled(l: Limits, sys: System, step: Step) {
    match step
    case Submit(t) => t !in sys.tasks && sys.lock == Free
    case StoreActive => sys.lock.PublishingActive?
    case StoreQueuedAndUnlock => sys.lock.PublishingQueued?
    case Post(t) => At(sys, t, Accepted)
    case Pick(t) => At(sys, t, Posted) && |Members(sys.tasks, OnThread)| < l.threads
    case Start(t) => At(sys, t, Picked) && sys.lock == Free
    case Compute(t, _) => At(sys, t, Running)
    case Settle(t) => At(sys, t, Computed) && sys.lock == Free
    case Finish(t) => At(sys, t, Settled)
    case Look(t) => Waits(sys, t, Looking)
    case Sleep(t) => Waits(sys, t, SawUnset)
    case TimeOut(t) => Waits(sys, t, SawUnset)
  }

  function SetTask(sys: System, task: nat, value: Task): System {
    sys.(tasks := sys.tasks[task := value])
  }

  function Looked(task: Task): Awaiter {
    if task.done then Got(task.outcome) else SawUnset
  }

  function Next(l: Limits, sys: System, step: Step): System
    requires Enabled(l, sys, step)
  {
    match step
    case Submit(t) =>
      var (c, ok) := AfterSubmit(l.maxQueue, sys.counts);
      SetTask(sys.(counts := c, lock := if ok then PublishingActive(t) else Free), t,
              Task(if ok then Accepted else Rejected, None, false, Looking))
    case StoreActive => sys.(counts := PublishActive(sys.counts), lock := PublishingQueued(sys.lock.owner))
    case StoreQueuedAndUnlock => sys.(counts := PublishQueued(sys.counts), lock := Free)
    case Post(t) => SetTask(sys, t, sys.tasks[t].(phase := Posted))
    case Pick(t) => SetTask(sys, t, sys.tasks[t].(phase := Picked))
    case Start(t) =>
      SetTask(sys.(counts := AfterStart(sys.counts), lock := PublishingActive(t)), t,
              sys.tasks[t].(phase := Running))
    case Compute(t, o) => SetTask(sys, t, sys.tasks[t].(phase := Computed, outcome := Some(o)))
    case Settle(t) =>
      SetTask(sys.(counts := AfterSettle(sys.counts), lock := PublishingActive(t)), t,
              sys.tasks[t].(phase := Settled))
    case Finish(t) => SetTask(sys, t, sys.tasks[t].(phase := Finished, done := true))
    case Look(t) => SetTask(sys, t, sys.tasks[t].(awaiter := Looked(sys.tasks[t])))
    case Sleep(t) => SetTask(sys, t, sys.tasks[t].(awaiter := Looking))
    case TimeOut(t) => SetTask(sys, t, sys.tasks[t].(awaiter := TimedOut))
  }

  const START := System(Counts(0, 0, 0, 0, 0), Free, map[])

  /** The state after a sequence of steps, if each was possible when it was its turn. */
  function Run(l: Limits, steps: seq<Step>): Option<System> {
    if steps == [] then Some(START)
    else
      match Run(l, steps[..|steps| - 1])
      case None => None
      case Some(sys) =>
        if Enabled(l, sys, steps[|steps| - 1]) then Some(Next(l, sys, steps[|steps| - 1])) else None
  }

  // ---------------------------------------------------------------- lock regions take effect at once

  /** The lock regions entered, in the order in which they took the lock. */
  function RegionsOf(steps: seq<Step>): seq<Region> {
    if steps == [] then []
    else
      var before := RegionsOf(steps[..|steps| - 1]);
      match steps[|steps| - 1]
      case Submit(_) => before + [Submitting]
      case Start(_) => before + [Starting]
      case Settle(_) => before + [Settling]
      case _ => before
  }

  /** The counts once the region under way has done its remaining stores. */
  function Completed(sys: System): Counts {
    match sys.lock
    case Free => sys.counts
    case PublishingActive(_) => PublishQueued(PublishActive(sys.counts))
    case PublishingQueued(_) => PublishQueued(sys.counts)
  }

  /** Whatever other steps come between the stores of a lock region, the counts are always those of the pool's
      methods called one after another, up to the stores that the one under way still has to do. */
  lemma {:induction false} RegionsAreCalls(l: Limits, steps: seq<Step>)
    requires Run(l, steps).Some?
    ensures Completed(Run(l, steps).value) == AfterRegions(l.maxQueue, RegionsOf(steps))
  {
    if steps != [] {
      var before, step := steps[..|steps| - 1], steps[|steps| - 1];
      RegionsAreCalls(l, before);
      OneRegion(l, Run(l, before).value, step);
      AfterOneMore(l.maxQueue, RegionsOf(before), Submitting);
      AfterOneMore(l.maxQueue, RegionsOf(before), Starting);
      AfterOneMore(l.maxQueue, RegionsOf(before), Settling);
    }
  }

  lemma OneRegion(l: Limits, sys: System, step: Step)
    requires Enabled(l, sys, step)
    ensures Completed(Next(l, sys, step)) ==
      match step
      case Submit(_) => AfterRegion(l.maxQueue, Completed(sys), Submitting)
      case Start(_) => AfterRegion(l.maxQueue, Completed(sys), Starting)
      case Settle(_) => AfterRegion(l.maxQueue, Completed(sys), Settling)
      case _ => Completed(sys)
  {
  }

  lemma {:induction false} AfterOneMore(maxQueue: nat, regions: seq<Region>, region: Region)
    ensures AfterRegions(maxQueue, regions + [region]) == AfterRegion(maxQueue, AfterRegions(maxQueue, regions), region)
  {
    assert (regions + [region])[..|regions|] == regions;
  }

  // ---------------------------------------------------------------- what is counted

  datatype Kind = Waiting | Active | OnThread | TurnedAway

  predicate Counted(kind: Kind, phase: Phase) {
    match kind
    case Waiting => phase == Accepted || phase == Posted || phase == Picked
    case Active => phase == Running || phase == Computed
    case OnThread => phase == Picked || phase == Running || phase == Computed || phase == Settled
    case TurnedAway => phase == Rejected
  }

  function Members(tasks: map<nat, Task>, kind: Kind): set<nat> {
    set t | t in tasks && Counted(kind, tasks[t].phase)
  }

  /** Whether a task is counted before a change to it. */
  predicate WasCounted(tasks: map<nat, Task>, task: nat, kind: Kind) {
    task in tasks && Counted(kind, tasks[task].phase)
  }

  lemma TaskSet(tasks: map<nat, Task>, task: nat, value: Task, kind: Kind)
    ensures |Members(tasks[task := value], kind)| + One(WasCounted(tasks, task, kind))
      == |Members(tasks, kind)| + One(Counted(kind, value.phase))
  {
    OneElement(Members(tasks, kind), Members(tasks[task := value], kind), task);
  }

  lemma ActiveAreOnThreads(tasks: map<nat, Task>)
    ensures |Members(tasks, Active)| <= |Members(tasks, OnThread)|
  {
    Subset(Members(tasks, Active), Members(tasks, OnThread));
  }

  // ---------------------------------------------------------------- safety

  ghost predicate Balanced(l: Limits, c: Counts, tasks: map<nat, Task>) {
    && c.queued == |Members(tasks, Waiting)| <= l.maxQueue
    && c.active == |Members(tasks, Active)|
    && |Members(tasks, OnThread)| <= l.threads
    && c.rejected == |Members(tasks, TurnedAway)|
  }

  predicate Published(c: Counts, lock: Lock) {
    && (!lock.PublishingActive? ==> c.activeGauge == c.active)
    && (lock == Free ==> c.queuedGauge == c.queued)
  }

  /** What is true of one task whatever the others do. */
  predicate TaskOk(task: Task) {
    && (task.done <==> task.phase == Finished)
    && (task.outcome.Some? <==> task.phase == Computed || task.phase == Settled || task.phase == Finished)
    && (task.awaiter.Got? ==> task.done && task.awaiter.outcome == task.outcome)
  }

  ghost predicate TasksOk(tasks: map<nat, Task>) {
    forall t :: t in tasks ==> TaskOk(tasks[t])
  }

  ghost predicate Safe(l: Limits, sys: System) {
    && Balanced(l, sys.counts, sys.tasks)
    && Published(sys.counts, sys.lock)
    && TasksOk(sys.tasks)
  }

  /** One task changes and the counts follow it. */
  lemma BalancedSet(l: Limits, c: Counts, tasks: map<nat, Task>, t: nat, value: Task, after: Counts)
    requires Balanced(l, c, tasks)
    requires after.queued + One(WasCounted(tasks, t, Waiting)) == c.queued + One(Counted(Waiting, value.phase))
    requires after.active + One(WasCounted(tasks, t, Active)) == c.active + One(Counted(Active, value.phase))
    requires after.rejected + One(WasCounted(tasks, t, TurnedAway))
      == c.rejected + One(Counted(TurnedAway, value.phase))
    requires after.queued <= l.maxQueue
    requires Counted(OnThread, value.phase) ==>
      WasCounted(tasks, t, OnThread) || |Members(tasks, OnThread)| < l.threads
    ensures Balanced(l, after, tasks[t := value])
  {
    TaskSet(tasks, t, value, Waiting);
    TaskSet(tasks, t, value, Active);
    TaskSet(tasks, t, value, OnThread);
    TaskSet(tasks, t, value, TurnedAway);
  }

  lemma CountedIsMember(tasks: map<nat, Task>, t: nat, kind: Kind)
    requires WasCounted(tasks, t, kind)
    ensures |Members(tasks, kind)| > 0
  {
    assert t in Members(tasks, kind);
  }

  /** The three steps that change the counts. */
  lemma LockStepSafe(l: Limits, sys: System, step: Step)
    requires Safe(l, sys) && Enabled(l, sys, step)
    requires step.Submit? || step.Start? || step.Settle?
    ensures Safe(l, Next(l, sys, step))
  {
    var after := Next(l, sys, step);
    var t := step.task;
    if step.Start? {
      CountedIsMember(sys.tasks, t, Waiting);
    } else if step.Settle? {
      CountedIsMember(sys.tasks, t, Active);
    }
    BalancedSet(l, sys.counts, sys.tasks, t, after.tasks[t], after.counts);
  }

  /** The steps of a task or its awaiter that leave the counts alone. */
  lemma TaskStepSafe(l: Limits, sys: System, step: Step)
    requires Safe(l, sys) && Enabled(l, sys, step)
    requires step.Post? || step.Pick? || step.Compute? || step.Finish?
    ensures Safe(l, Next(l, sys, step))
  {
    var after := Next(l, sys, step);
    BalancedSet(l, sys.counts, sys.tasks, step.task, after.tasks[step.task], after.counts);
  }

  lemma AwaiterStepSafe(l: Limits, sys: System, step: Step)
    requires Safe(l, sys) && Enabled(l, sys, step)
    requires step.Look? || step.Sleep? || step.TimeOut?
    ensures Safe(l, Next(l, sys, step))
  {
    var after := Next(l, sys, step);
    BalancedSet(l, sys.counts, sys.tasks, step.task, after.tasks[step.task], after.counts);
  }

  lemma StepSafe(l: Limits, sys: System, step: Step)
    requires Safe(l, sys) && Enabled(l, sys, step)
    ensures Safe(l, Next(l, sys, step))
  {
    if step.Submit? || step.Start? || step.Settle? {
      LockStepSafe(l, sys, step);
    } else if step.Look? || step.Sleep? || step.TimeOut? {
      AwaiterStepSafe(l, sys, step);
    } else if !step.StoreActive? && !step.StoreQueuedAndUnlock? {
      TaskStepSafe(l, sys, step);
    }
  }

  /** After any interleaving: the queued count is the number of accepted tasks not yet started and within
      its limit, the active count is the number of running tasks and within the number of threads, both
      published gauges agree whenever the lock is free, `done` implies that an outcome is stored, and an
      answered awaiter has its own task's outcome. */
  lemma {:induction false} AlwaysSafe(l: Limits, steps: seq<Step>)
    requires Run(l, steps).Some?
    ensures Safe(l, Run(l, steps).value)
    ensures Run(l, steps).value.counts.active <= l.threads
  {
    if steps == [] {
      assert forall kind :: Members(START.tasks, kind) == {};
    } else {
      var before := steps[..|steps| - 1];
      AlwaysSafe(l, before);
      StepSafe(l, Run(l, before).value, steps[|steps| - 1]);
    }
    ActiveAreOnThreads(Run(l, steps).value.tasks);
  }

  /** The tests for a positive count before each decrement never fail. */
  lemma {:induction false} GuardsNeverBite(l: Limits, steps: seq<Step>, step: Step)
    requires Run(l, steps).Some? && Enabled(l, Run(l, steps).value, step)
    ensures step.Start? ==> Run(l, steps).value.counts.queued > 0
    ensures step.Settle? ==> Run(l, steps).value.counts.active > 0
  {
    AlwaysSafe(l, steps);
    var tasks := Run(l, steps).value.tasks;
    if step.Start? {
      CountedIsMember(tasks, step.task, Waiting);
    } else if step.Settle? {
      CountedIsMember(tasks, step.task, Active);
    }
  }

  // ---------------------------------------------------------------- each task runs once

  function Starts(steps: seq<Step>, task: nat): nat {
    if steps == [] then 0
    else Starts(steps[..|steps| - 1], task) + One(steps[|steps| - 1] == Step.Start(task))
  }

  predicate HasBegun(phase: Phase) {
    phase == Running || phase == Computed || phase == Settled || phase == Finished
  }

  /** In any run a task's function is started at most once, and exactly once when the task is at a point
      after the start, whatever became of its awaiter. */
  lemma {:induction false} StartsOnce(l: Limits, steps: seq<Step>, task: nat)
    requires Run(l, steps).Some?
    ensures var tasks := Run(l, steps).value.tasks;
      Starts(steps, task) == One(task in tasks && HasBegun(tasks[task].phase))
  {
    if steps != [] {
      StartsOnce(l, steps[..|steps| - 1], task);
    }
  }

  /** An outcome that a task stored, and hence one that an awaiter got, is what its own function returned. */
  lemma {:induction false} OutcomeIsComputed(l: Limits, steps: seq<Step>, task: nat)
    requires Run(l, steps).Some?
    requires task in Run(l, steps).value.tasks && Run(l, steps).value.tasks[task].outcome.Some?
    ensures Compute(task, Run(l, steps).value.tasks[task].outcome.value) in steps
  {
    var before := steps[..|steps| - 1];
    var sys := Run(l, before).value;
    if !(steps[|steps| - 1].Compute? && steps[|steps| - 1].task == task) {
      OutcomeIsComputed(l, before, task);
    }
  }

  /** An awaiter that is answered gets a stored outcome, computed by its own task's one start, and by then
      the task is no longer counted anywhere. */
  lemma {:induction false} AnsweredOnce(l: Limits, steps: seq<Step>, task: nat)
    requires Run(l, steps).Some?
    requires task in Run(l, steps).value.tasks && Run(l, steps).value.tasks[task].awaiter.Got?
    ensures var tasks := Run(l, steps).value.tasks;
      && tasks[task].awaiter.outcome.Some?
      && Compute(task, tasks[task].awaiter.outcome.value) in steps
      && Starts(steps, task) == 1
      && forall kind :: task !in Members(tasks, kind)
  {
    AlwaysSafe(l, steps);
    assert TaskOk(Run(l, steps).value.tasks[task]);
    OutcomeIsComputed(l, steps, task);
    StartsOnce(l, steps, task);
  }

  /** What a look at `done` gives: the outcome stored once the task is over, and before that nothing. */
  lemma {:induction false} LookAnswers(l: Limits, steps: seq<Step>, task: nat)
    requires Run(l, steps).Some? && Enabled(l, Run(l, steps).value, Look(task))
    ensures var was, task := Run(l, steps).value.tasks[task], Next(l, Run(l, steps).value, Look(task)).tasks[task];
      && (was.phase == Finished ==> was.outcome.Some? && task.awaiter == Got(was.outcome))
      && (was.phase != Finished ==> task.awaiter == SawUnset)
      && task.phase == was.phase && task.outcome == was.outcome
  {
    AlwaysSafe(l, steps);
    assert TaskOk(Run(l, steps).value.tasks[task]);
  }

  lemma {:induction false} OneMore(l: Limits, steps: seq<Step>, step: Step)
    requires Run(l, steps).Some?
    ensures Run(l, steps + [step]) ==
      if Enabled(l, Run(l, steps).value, step) then Some(Next(l, Run(l, steps).value, step)) else None
  {
    assert (steps + [step])[..|steps|] == steps;
  }

  /** While the lock is held, only its owner is held up between lock regions, and nobody can enter one. */
  lemma {:induction false} LockHoldsOwner(l: Limits, steps: seq<Step>, task: nat, outcome: Outcome)
    requires Run(l, steps).Some? && task in Run(l, steps).value.tasks
    ensures var (lock, phase) := (Run(l, steps).value.lock, Run(l, steps).value.tasks[task].phase);
      && (phase == Accepted ==> (Run(l, steps + [Post(task)]).Some? <==> lock == Free || lock.owner != task))
      && (phase == Picked ==> (Run(l, steps + [Step.Start(task)]).Some? <==> lock == Free))
      && (phase == Running ==> (Run(l, steps + [Compute(task, outcome)]).Some? <==> lock == Free || lock.owner != task))
      && (phase == Computed ==> (Run(l, steps + [Step.Settle(task)]).Some? <==> lock == Free))
      && (phase == Settled ==> (Run(l, steps + [Finish(task)]).Some? <==> lock == Free || lock.owner != task))
  {
    AlwaysSafe(l, steps);
    OneMore(l, steps, Post(task));
    OneMore(l, steps, Step.Start(task));
    OneMore(l, steps, Compute(task, outcome));
    OneMore(l, steps, Step.Settle(task));
    OneMore(l, steps, Finish(task));
  }

  /** What a caller is free to do: submit a new task whenever the lock is free, and time out on a task that it has not
      seen done, which leaves the task itself alone. */
  lemma {:induction false} CallersAreFree(l: Limits, steps: seq<Step>, task: nat)
    requires Run(l, steps).Some?
    ensures task !in Run(l, steps).value.tasks && Run(l, steps).value.lock == Free ==>
      Run(l, steps + [Submit(task)]).Some?
    ensures Waits(Run(l, steps).value, task, Looking) && !Run(l, steps).value.tasks[task].done ==>
      var all := steps + [Look(task)] + [TimeOut(task)];
      && Run(l, all).Some?
      && Run(l, all).value == SetTask(Run(l, steps).value, task,
                                      Run(l, steps).value.tasks[task].(awaiter := TimedOut))
  {
    var sys := Run(l, steps).value;
    if task !in sys.tasks && sys.lock == Free {
      OneMore(l, steps, Submit(task));
    }
    if Waits(sys, task, Looking) && !sys.tasks[task].done {
      OneMore(l, steps, Look(task));
      OneMore(l, steps + [Look(task)], TimeOut(task));
    }
  }

  /** Nobody is told of a time-out who has not timed out. */
  lemma {:induction false} TimedOutGaveUp(l: Limits, steps: seq<Step>, task: nat)
    requires Run(l, steps).Some?
    requires task in Run(l, steps).value.tasks && Run(l, steps).value.tasks[task].awaiter.TimedOut?
    ensures TimeOut(task) in steps
  {
    var before, step := steps[..|steps| - 1], steps[|steps| - 1];
    assert steps == before + [step];
    if step != TimeOut(task) {
      TimedOutGaveUp(l, before, task);
    }
  }

  /** Once every task was turned away or is over, both counts and both gauges are back at zero. */
  lemma {:induction false} NothingLeaks(l: Limits, steps: seq<Step>)
    requires Run(l, steps).Some?
    requires var sys := Run(l, steps).value;
      sys.lock == Free && forall t :: t in sys.tasks ==>
        sys.tasks[t].phase == Finished || sys.tasks[t].phase == Rejected
    ensures var c := Run(l, steps).value.counts;
      c.queued == 0 && c.active == 0 && c.queuedGauge == 0 && c.activeGauge == 0
  {
    AlwaysSafe(l, steps);
    var tasks := Run(l, steps).value.tasks;
    assert Members(tasks, Waiting) == {} && Members(tasks, Active) == {};
  }

  /** A task is turned away if and only if as many tasks as allowed are accepted and not yet started. */
  lemma {:induction false} TurnedAwayIffFull(l: Limits, steps: seq<Step>)
    requires Run(l, steps).Some?
    ensures var sys := Run(l, steps).value;
      !AfterSubmit(l.maxQueue, sys.counts).1 <==> |Members(sys.tasks, Waiting)| == l.maxQueue
  {
    AlwaysSafe(l, steps);
  }
}
