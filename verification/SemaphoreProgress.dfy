/** The semaphore never gets stuck: from wherever a run has come to, every caller that still waits can be served. */
module SemaphoreProgress {
  import opened Options
  import opened Ranks
  import opened Semaphore
  import opened Slices

  /** How many steps a call of `acquire` still needs. */
  function CallRank(phase: Phase): nat {
    match phase
    case Arriving => 4
    case Refused => 3
    case Polling => 2
    case Leaving => 1
    case Over => 0
  }

  /** How many steps a permit object still needs until it is empty. */
  function SlotRank(slot: Slot): nat {
    match slot
    case Live => 2
    case Releasing => 1
    case Empty => 0
  }

  /** Nobody gives up, and nothing new is begun. */
  predicate IsPatient(step: Step) {
    !step.GiveUp? && !step.Arrive? && !step.TryAcquire?
  }

  predicate Patient(steps: seq<Step>) {
    forall i :: 0 <= i < |steps| ==> IsPatient(steps[i])
  }

  /** A step that brings one permit object closer to being empty and leaves the calls alone. */
  predicate Frees(l: Limits, sys: System, step: Step, slot: nat) {
    && IsPatient(step) && Enabled(sys, step) && Next(l, sys, step).tasks == sys.tasks
    && slot in sys.slots && slot in Next(l, sys, step).slots
    && Next(l, sys, step).slots == sys.slots[slot := Next(l, sys, step).slots[slot]]
    && SlotRank(Next(l, sys, step).slots[slot]) < SlotRank(sys.slots[slot])
  }

  lemma SlotFrees(l: Limits, sys: System, slot: nat) returns (step: Step)
    requires slot in sys.slots && SlotRank(sys.slots[slot]) > 0
    ensures Frees(l, sys, step, slot)
  {
    step := if sys.slots[slot] == Live then Release(slot) else Forget(slot);
  }

  /** A step that brings one call closer to its end. */
  predicate Advances(l: Limits, sys: System, step: Step, t: nat) {
    && IsPatient(step) && Enabled(sys, step)
    && t in sys.tasks && t in Next(l, sys, step).tasks
    && Next(l, sys, step).tasks == sys.tasks[t := Next(l, sys, step).tasks[t]]
    && CallRank(Next(l, sys, step).tasks[t]) < CallRank(sys.tasks[t])
  }

  lemma CallAdvances(l: Limits, sys: System, t: nat) returns (step: Step)
    requires t in sys.tasks && CallRank(sys.tasks[t]) > 0
    requires sys.counters.active < l.maxActive && Holds(sys, 0, Empty)
    ensures Advances(l, sys, step, t)
  {
    match sys.tasks[t]
    case Arriving => step := FirstTry(t, 0);
    case Refused => step := Step.Enlist(t);
    case Polling => step := Poll(t, 0);
    case Leaving => step := Step.Leave(t);
  }

  /** Once all permit objects are empty no permit is out. */
  lemma AllFree(l: Limits, sys: System)
    requires Safe(l, sys) && |Left(sys.slots, SlotRank)| == 0
    ensures sys.counters.active == 0 && forall s :: s in sys.slots ==> sys.slots[s] == Empty
  {
    forall s | s in sys.slots
      ensures sys.slots[s] == Empty
    {
      LeftOf(sys.slots, SlotRank, s);
    }
    assert LivePermits(sys.slots) == {};
  }

  lemma AllCallsOver(sys: System)
    requires |Left(sys.tasks, CallRank)| == 0
    ensures forall t :: t in sys.tasks ==> sys.tasks[t] == Over
  {
    forall t | t in sys.tasks
      ensures sys.tasks[t] == Over
    {
      LeftOf(sys.tasks, CallRank, t);
    }
  }

  lemma PatientMore(step: Step, rest: seq<Step>)
    requires Patient(rest) && IsPatient(step)
    ensures Patient([step] + rest)
  {
  }

  /** The call is inside the guarded wait. */
  predicate IsInside(phase: Phase) {
    phase == Polling || phase == Leaving
  }

  /** The call that is served next: one that waits, if any does. */
  lemma NextCall(l: Limits, sys: System) returns (t: nat)
    requires Safe(l, sys) && |Left(sys.tasks, CallRank)| > 0
    ensures t in sys.tasks && CallRank(sys.tasks[t]) > 0
    ensures sys.tasks[t] == Refused && l.maxWaiters >= 1 ==> |Waiters(sys.tasks)| < l.maxWaiters
  {
    if u :| u in sys.tasks && IsInside(sys.tasks[u]) {
      t := u;
    } else {
      t := SomeLeft(sys.tasks, CallRank);
      assert Waiters(sys.tasks) == {};
    }
  }

  /** The next step: permits are given back first, then the calls are served. */
  lemma SomethingAdvances(l: Limits, sys: System) returns (step: Step)
    requires l.maxActive >= 1 && Safe(l, sys)
    requires |Left(sys.tasks, CallRank)| > 0 || |Left(sys.slots, SlotRank)| > 0
    ensures IsPatient(step) && Enabled(sys, step)
    ensures Next(l, sys, step).tasks.Keys == sys.tasks.Keys
    ensures step.Enlist? && l.maxWaiters >= 1 ==> |Waiters(sys.tasks)| < l.maxWaiters
    ensures step.Poll? || step.FirstTry? ==> HasRoom(l, sys)
    ensures var after := Next(l, sys, step);
      || |Left(after.tasks, CallRank)| < |Left(sys.tasks, CallRank)|
      || (after.tasks == sys.tasks && |Left(after.slots, SlotRank)| < |Left(sys.slots, SlotRank)|)
  {
    if |Left(sys.slots, SlotRank)| > 0 {
      var slot := SomeLeft(sys.slots, SlotRank);
      step := SlotFrees(l, sys, slot);
      LeftShrinks(sys.slots, SlotRank, slot, Next(l, sys, step).slots[slot]);
    } else {
      AllFree(l, sys);
      var t := NextCall(l, sys);
      step := CallAdvances(l, sys, t);
      LeftShrinks(sys.tasks, CallRank, t, Next(l, sys, step).tasks[t]);
    }
  }

  /** A call that is to be served: it has not been turned away, and will not be if there are waiting places at all. */
  predicate ToServe(l: Limits, phase: Phase) {
    phase == Arriving || phase == Polling || (phase == Refused && l.maxWaiters >= 1)
  }

  /** Some step of the continuation gives the call its permit. */
  ghost predicate Served(l: Limits, steps: seq<Step>, more: seq<Step>, t: nat) {
    exists p: nat :: |steps| <= p && GrantedBy(l, steps + more, t, p)
  }

  ghost predicate AllServed(l: Limits, steps: seq<Step>, more: seq<Step>, tasks: map<nat, Phase>) {
    forall t :: t in tasks && ToServe(l, tasks[t]) ==> Served(l, steps, more, t)
  }

  lemma ServedByStep(l: Limits, steps: seq<Step>, step: Step, rest: seq<Step>, t: nat)
    requires Run(l, steps).Some? && Enabled(Run(l, steps).value, step) && HasRoom(l, Run(l, steps).value)
    requires (step.FirstTry? || step.Poll?) && step.task == t
    ensures Served(l, steps, [step] + rest, t)
  {
    var all, p := steps + ([step] + rest), |steps|;
    StepsByPermits(l, steps, step);
    OneMore(l, steps, step);
    assert all[..p] == steps && all[..p + 1] == steps + [step] && all[p] == step;
    assert GrantedBy(l, all, t, p);
  }

  /** What the rest of the continuation serves, and what its first step does. */
  lemma {:induction false} AllServedMore(l: Limits, steps: seq<Step>, step: Step, rest: seq<Step>)
    requires Run(l, steps).Some? && Enabled(Run(l, steps).value, step) && IsPatient(step)
    requires step.Enlist? && l.maxWaiters >= 1 ==> |Waiters(Run(l, steps).value.tasks)| < l.maxWaiters
    requires step.Poll? || step.FirstTry? ==> HasRoom(l, Run(l, steps).value)
    requires AllServed(l, steps + [step], rest, Next(l, Run(l, steps).value, step).tasks)
    ensures AllServed(l, steps, [step] + rest, Run(l, steps).value.tasks)
  {
    var sys := Run(l, steps).value;
    StepsByPermits(l, steps, step);
    Regroup(steps, [step], rest);
    forall t | t in sys.tasks && ToServe(l, sys.tasks[t])
      ensures Served(l, steps, [step] + rest, t)
    {
      if (step.FirstTry? || step.Poll?) && step.task == t {
        ServedByStep(l, steps, step, rest, t);
      } else {
        assert ToServe(l, Next(l, sys, step).tasks[t]);
        assert Served(l, steps + [step], rest, t);
      }
    }
  }

  /** From every state that a semaphore with at least one permit can come to, some continuation in which nobody gives
      up ends every call and leaves both counts at zero. Each call that had not had its first try, or was waiting, gets
      a permit in it, and so does each that the first try refused if there is any waiting place. */
  lemma {:induction false} CanAlwaysFinish(l: Limits, steps: seq<Step>) returns (more: seq<Step>)
    requires l.maxActive >= 1 && Run(l, steps).Some?
    ensures Patient(more) && Run(l, steps + more).Some?
    ensures AllServed(l, steps, more, Run(l, steps).value.tasks)
    ensures var (was, sys) := (Run(l, steps).value, Run(l, steps + more).value);
      && sys.tasks.Keys == was.tasks.Keys && sys.counters == Counters(0, 0)
      && (forall t :: t in sys.tasks ==> sys.tasks[t] == Over)
      && (forall s :: s in sys.slots ==> sys.slots[s] == Empty)
    decreases |Left(Run(l, steps).value.tasks, CallRank)|, |Left(Run(l, steps).value.slots, SlotRank)|
  {
    var sys := Run(l, steps).value;
    AlwaysSafe(l, steps);
    if |Left(sys.tasks, CallRank)| == 0 && |Left(sys.slots, SlotRank)| == 0 {
      AllFree(l, sys);
      AllCallsOver(sys);
      NothingLeaks(l, steps);
      more := [];
      assert steps + more == steps;
    } else {
      var step := SomethingAdvances(l, sys);
      OneMore(l, steps, step);
      var rest := CanAlwaysFinish(l, steps + [step]);
      more := [step] + rest;
      AllServedMore(l, steps, step, rest);
      PatientMore(step, rest);
      Regroup(steps, [step], rest);
    }
  }
}
