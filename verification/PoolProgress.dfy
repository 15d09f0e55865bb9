/** The blocking pool never gets stuck: from wherever a run has come to, all tasks can be brought to their end. */
module PoolProgress {
  import opened BlockingPool
  import opened Options
  import opened Ranks
  import opened Slices

  function PhaseRank(phase: Phase): nat {
    match phase
    case Accepted => 6
    case Posted => 5
    case Picked => 4
    case Running => 3
    case Computed => 2
    case Settled => 1
    case _ => 0
  }

  /** How many steps a task and its awaiter still need. */
  function Rank(task: Task): nat {
    if task.phase == Rejected then 0
    else PhaseRank(task.phase) + if task.awaiter == SawUnset then 2 else if task.awaiter == Looking then 1 else 0
  }

  function LockRank(lock: Lock): nat {
    match lock
    case Free => 0
    case PublishingQueued(_) => 1
    case PublishingActive(_) => 2
  }

  /** A step that brings the task at hand closer to its end. */
  predicate Advances(l: Limits, sys: System, step: Step, t: nat) {
    && !step.Submit? && !step.TimeOut? && Enabled(l, sys, step)
    && t in sys.tasks && t in Next(l, sys, step).tasks
    && Next(l, sys, step).tasks == sys.tasks[t := Next(l, sys, step).tasks[t]]
    && Rank(Next(l, sys, step).tasks[t]) < Rank(sys.tasks[t])
    && (StillWaits(sys.tasks[t]) ==> StillWaits(Next(l, sys, step).tasks[t]))
  }

  /** The task was accepted, and whoever submitted it has not given up. */
  predicate StillWaits(task: Task) {
    task.phase != Rejected && !task.awaiter.TimedOut?
  }

  /** The next step of a task, given that it has left the queue, or that a thread is free for it. */
  lemma TaskAdvances(l: Limits, sys: System, t: nat) returns (step: Step)
    requires sys.lock == Free && t in sys.tasks && PhaseRank(sys.tasks[t].phase) > 0
    requires sys.tasks[t].phase == Posted ==> |Members(sys.tasks, OnThread)| < l.threads
    ensures Advances(l, sys, step, t)
  {
    match sys.tasks[t].phase
    case Accepted => step := Post(t);
    case Posted => step := Pick(t);
    case Picked => step := Step.Start(t);
    case Running => step := Compute(t, Value(""));
    case Computed => step := Step.Settle(t);
    case Settled => step := Finish(t);
  }

  /** The next step of an awaiter whose task is over. */
  lemma AwaiterAdvances(l: Limits, sys: System, t: nat) returns (step: Step)
    requires Safe(l, sys) && t in sys.tasks && sys.tasks[t].phase == Finished && Rank(sys.tasks[t]) > 0
    ensures Advances(l, sys, step, t)
  {
    assert TaskOk(sys.tasks[t]);
    step := if sys.tasks[t].awaiter == Looking then Look(t) else Sleep(t);
  }

  /** If anything is left to do, something can be done. */
  lemma SomethingAdvances(l: Limits, sys: System) returns (step: Step, t: nat)
    requires l.threads >= 1 && Safe(l, sys) && sys.lock == Free && |Left(sys.tasks, Rank)| > 0
    ensures Advances(l, sys, step, t)
  {
    t := SomeLeft(sys.tasks, Rank);
    if PhaseRank(sys.tasks[t].phase) == 0 {
      step := AwaiterAdvances(l, sys, t);
    } else if sys.tasks[t].phase == Posted && |Members(sys.tasks, OnThread)| > 0 {
      t :| t in Members(sys.tasks, OnThread);
      step := TaskAdvances(l, sys, t);
    } else {
      step := TaskAdvances(l, sys, t);
    }
  }

  /** Nobody gives up and nothing new is submitted. */
  predicate Patient(steps: seq<Step>) {
    forall i :: 0 <= i < |steps| ==> !steps[i].TimeOut? && !steps[i].Submit?
  }

  /** Every task that was not turned away is over, and whoever still waited has its outcome. */
  ghost predicate AllOver(tasks: map<nat, Task>) {
    forall t :: t in tasks ==> IsOver(tasks[t])
  }

  predicate IsOver(task: Task) {
    && (task.phase == Rejected || task.phase == Finished)
    && (StillWaits(task) ==> task.outcome.Some? && task.awaiter == Got(task.outcome))
  }

  /** Nobody who still waits stops waiting without an answer. */
  ghost predicate NobodyLost(was: map<nat, Task>, now: map<nat, Task>) {
    was.Keys == now.Keys && forall t :: t in was && StillWaits(was[t]) ==> StillWaits(now[t])
  }

  lemma NothingLeft(l: Limits, sys: System)
    requires Safe(l, sys) && |Left(sys.tasks, Rank)| == 0
    ensures AllOver(sys.tasks)
  {
    forall t | t in sys.tasks
      ensures IsOver(sys.tasks[t])
    {
      LeftOf(sys.tasks, Rank, t);
      assert TaskOk(sys.tasks[t]);
    }
  }

  lemma PatientMore(step: Step, rest: seq<Step>)
    requires Patient(rest) && !step.TimeOut? && !step.Submit?
    ensures Patient([step] + rest)
  {
  }

  lemma NobodyLostTwice(was: map<nat, Task>, now: map<nat, Task>, later: map<nat, Task>)
    requires NobodyLost(was, now) && NobodyLost(now, later)
    ensures NobodyLost(was, later)
  {
  }

  /** From every state that a pool with at least one thread can come to, some continuation without a time-out or a
      new submission ends every task, gives everyone who still waits the outcome of the task, and leaves both counts
      and both gauges at zero. */
  lemma {:induction false} CanAlwaysFinish(l: Limits, steps: seq<Step>) returns (more: seq<Step>)
    requires l.threads >= 1 && Run(l, steps).Some?
    ensures Patient(more) && Run(l, steps + more).Some?
    ensures var (was, sys) := (Run(l, steps).value, Run(l, steps + more).value);
      && NobodyLost(was.tasks, sys.tasks) && AllOver(sys.tasks) && sys.lock == Free
      && sys.counts == Counts(0, 0, 0, 0, sys.counts.rejected)
    decreases |Left(Run(l, steps).value.tasks, Rank)|, LockRank(Run(l, steps).value.lock)
  {
    var sys := Run(l, steps).value;
    AlwaysSafe(l, steps);
    if sys.lock == Free && |Left(sys.tasks, Rank)| == 0 {
      NothingLeft(l, sys);
      NothingLeaks(l, steps);
      more := [];
      assert steps + more == steps;
    } else {
      var step := Unlocking(sys.lock);
      if sys.lock == Free {
        var t;
        step, t := SomethingAdvances(l, sys);
        LeftShrinks(sys.tasks, Rank, t, Next(l, sys, step).tasks[t]);
      }
      OneMore(l, steps, step);
      var next := Next(l, sys, step);
      assert NobodyLost(sys.tasks, next.tasks);
      var rest := CanAlwaysFinish(l, steps + [step]);
      NobodyLostTwice(sys.tasks, next.tasks, Run(l, steps + [step] + rest).value.tasks);
      more := [step] + rest;
      PatientMore(step, rest);
      Regroup(steps, [step], rest);
    }
  }

  function Unlocking(lock: Lock): Step {
    if lock.PublishingActive? then StoreActive else StoreQueuedAndUnlock
  }
}
