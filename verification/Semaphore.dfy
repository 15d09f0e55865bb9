/**
 The bounded semaphore with bounded waiting, as a transition system in which one step is one lock
 region or one change local to a task: any number of tasks call `acquire`, permits are handed out,
 moved and released, and steps interleave in any order.
 */
module Semaphore {
  import opened FiniteSets
  import opened Options

  datatype Limits = Limits(maxActive: nat, maxWaiters: nat)

  datatype Counters = Counters(active: nat, waiters: nat)

  // ---------------------------------------------------------------- the lock regions

  function AfterTry(l: Limits, c: Counters): (Counters, bool) {
    if c.active >= l.maxActive then (c, false) else (c.(active := c.active + 1), true)
  }

  function AfterRelease(c: Counters): Counters {
    if c.active > 0 then c.(active := c.active - 1) else c
  }

  function AfterEnlist(l: Limits, c: Counters): (Counters, bool) {
    if c.waiters >= l.maxWaiters then (c, false) else (c.(waiters := c.waiters + 1), true)
  }

  function AfterLeave(c: Counters): Counters {
    if c.waiters > 0 then c.(waiters := c.waiters - 1) else c
  }

  /** The shared state; each method is what one caller does while it holds the mutex. */
  class State {
    const limits: Limits
    var active: nat
    var waiters: nat

    function Value(): Counters
      reads this
    {
      Counters(active, waiters)
    }

    constructor (limits: Limits)
      ensures this.limits == limits && Value() == Counters(0, 0)
    {
      this.limits := limits;
      active, waiters := 0, 0;
    }

    method TryAcquire() returns (ok: bool)
      modifies this
      ensures (Value(), ok) == AfterTry(limits, old(Value()))
    {
      if active >= limits.maxActive {
        return false;
      }
      active := active + 1;
      return true;
    }

    method Release()
      modifies this
      ensures Value() == AfterRelease(old(Value()))
    {
      if active > 0 {
        active := active - 1;
      }
    }

    method Enlist() returns (ok: bool)
      modifies this
      ensures (Value(), ok) == AfterEnlist(limits, old(Value()))
    {
      if waiters >= limits.maxWaiters {
        return false;
      }
      waiters := waiters + 1;
      return true;
    }

    method Leave()
      modifies this
      ensures Value() == AfterLeave(old(Value()))
    {
      if waiters > 0 {
        waiters := waiters - 1;
      }
    }
  }

  // ---------------------------------------------------------------- the system

  /** Where a call of `acquire` is: before its first try, refused by it, polling inside the guarded
      wait, leaving that wait with or without a permit, or over. */
  datatype Phase = Arriving | Refused | Polling | Leaving | Over

  /** A `Permit` object: it may hold a permit, have released it but not yet forgotten it, or be empty. */
  datatype Slot = Empty | Live | Releasing

  datatype System = System(counters: Counters, tasks: map<nat, Phase>, slots: map<nat, Slot>)

  datatype Step =
    | Arrive(task: nat)
    | FirstTry(task: nat, slot: nat)
    | Enlist(task: nat)
    | Poll(task: nat, slot: nat)
    | GiveUp(task: nat)            // the deadline has passed, or the wait is cancelled
    | Leave(task: nat)             // the guard's destructor
    | TryAcquire(slot: nat)        // outside any call of `acquire`
    | Move(slot: nat, target: nat)
    | Release(slot: nat)           // the lock region of `reset`
    | Forget(slot: nat)            // the rest of `reset`

  predicate InPhase(sys: System, task: nat, phase: Phase) {
    task in sys.tasks && sys.tasks[task] == phase
  }

  predicate Holds(sys: System, slot: nat, what: Slot) {
    if slot in sys.slots then sys.slots[slot] == what else what == Empty
  }

  predicate Enabled(sys: System, step: Step) {
    match step
    case Arrive(t) => t !in sys.tasks
    case FirstTry(t, s) => InPhase(sys, t, Arriving) && Holds(sys, s, Empty)
    case Enlist(t) => InPhase(sys, t, Refused)
    case Poll(t, s) => InPhase(sys, t, Polling) && Holds(sys, s, Empty)
    case GiveUp(t) => InPhase(sys, t, Polling)
    case Leave(t) => InPhase(sys, t, Leaving)
    case TryAcquire(s) => Holds(sys, s, Empty)
    case Move(s, d) => Holds(sys, s, Live) && Holds(sys, d, Empty)
    case Release(s) => Holds(sys, s, Live)
    case Forget(s) => Holds(sys, s, Releasing)
  }

  function Grant(l: Limits, sys: System, slot: nat): (System, bool) {
    var (c, ok) := AfterTry(l, sys.counters);
    (if ok then sys.(counters := c, slots := sys.slots[slot := Live]) else sys, ok)
  }

  function SetPhase(sys: System, task: nat, phase: Phase): System {
    sys.(tasks := sys.tasks[task := phase])
  }

  function Next(l: Limits, sys: System, step: Step): System
    requires Enabled(sys, step)
  {
    match step
    case Arrive(t) => SetPhase(sys, t, Arriving)
    case FirstTry(t, s) =>
      var (granted, ok) := Grant(l, sys, s);
      SetPhase(granted, t, if ok then Over else Refused)
    case Enlist(t) =>
      var (c, ok) := AfterEnlist(l, sys.counters);
      SetPhase(sys.(counters := c), t, if ok then Polling else Over)
    case Poll(t, s) =>
      var (granted, ok) := Grant(l, sys, s);
      SetPhase(granted, t, if ok then Leaving else Polling)
    case GiveUp(t) => SetPhase(sys, t, Leaving)
    case Leave(t) => SetPhase(sys.(counters := AfterLeave(sys.counters)), t, Over)
    case TryAcquire(s) => Grant(l, sys, s).0
    case Move(s, d) => sys.(slots := sys.slots[s := Empty][d := Live])
    case Release(s) => sys.(counters := AfterRelease(sys.counters), slots := sys.slots[s := Releasing])
    case Forget(s) => sys.(slots := sys.slots[s := Empty])
  }

  const START := System(Counters(0, 0), map[], map[])

  /** The state after a sequence of steps, if each was possible when it was its turn. */
  function Run(l: Limits, steps: seq<Step>): Option<System> {
    if steps == [] then Some(START)
    else
      match Run(l, steps[..|steps| - 1])
      case None => None
      case Some(sys) =>
        if Enabled(sys, steps[|steps| - 1]) then Some(Next(l, sys, steps[|steps| - 1])) else None
  }

  // ---------------------------------------------------------------- safety

  function LivePermits(slots: map<nat, Slot>): set<nat> {
    set s | s in slots && slots[s] == Live
  }

  predicate Waits(phase: Phase) {
    phase == Polling || phase == Leaving
  }

  /** The tasks inside the guarded wait. */
  function Waiters(tasks: map<nat, Phase>): set<nat> {
    set t | t in tasks && Waits(tasks[t])
  }

  ghost predicate Safe(l: Limits, sys: System) {
    && sys.counters.active == |LivePermits(sys.slots)| <= l.maxActive
    && sys.counters.waiters == |Waiters(sys.tasks)| <= l.maxWaiters
  }

  lemma SlotSet(slots: map<nat, Slot>, slot: nat, what: Slot)
    ensures |LivePermits(slots[slot := what])| + One(slot in LivePermits(slots))
      == |LivePermits(slots)| + One(what == Live)
  {
    OneElement(LivePermits(slots), LivePermits(slots[slot := what]), slot);
  }

  lemma PhaseSet(tasks: map<nat, Phase>, task: nat, phase: Phase)
    ensures |Waiters(tasks[task := phase])| + One(task in Waiters(tasks))
      == |Waiters(tasks)| + One(Waits(phase))
  {
    OneElement(Waiters(tasks), Waiters(tasks[task := phase]), task);
  }

  lemma GrantSafe(l: Limits, sys: System, slot: nat)
    requires Safe(l, sys) && Holds(sys, slot, Empty)
    ensures Safe(l, Grant(l, sys, slot).0)
    ensures Grant(l, sys, slot).0.tasks == sys.tasks
  {
    SlotSet(sys.slots, slot, Live);
  }

  /** A step that changes one task's phase and keeps the waiter count in step with it. */
  lemma PhaseSafe(l: Limits, sys: System, task: nat, phase: Phase, c: Counters)
    requires Safe(l, sys)
    requires c.active == sys.counters.active
    requires c.waiters + One(task in Waiters(sys.tasks)) == sys.counters.waiters + One(Waits(phase))
    requires c.waiters <= l.maxWaiters
    ensures Safe(l, SetPhase(sys.(counters := c), task, phase))
  {
    PhaseSet(sys.tasks, task, phase);
  }

  lemma TaskStepSafe(l: Limits, sys: System, step: Step)
    requires Safe(l, sys) && Enabled(sys, step)
    requires step.Arrive? || step.Enlist? || step.GiveUp? || step.Leave?
    ensures Safe(l, Next(l, sys, step))
  {
    match step
    case Arrive(t) => PhaseSafe(l, sys, t, Arriving, sys.counters);
    case Enlist(t) =>
      var (c, ok) := AfterEnlist(l, sys.counters);
      PhaseSafe(l, sys, t, if ok then Polling else Over, c);
    case GiveUp(t) => PhaseSafe(l, sys, t, Leaving, sys.counters);
    case Leave(t) =>
      assert t in Waiters(sys.tasks);
      PhaseSafe(l, sys, t, Over, AfterLeave(sys.counters));
  }

  lemma SlotStepSafe(l: Limits, sys: System, step: Step)
    requires Safe(l, sys) && Enabled(sys, step)
    requires step.TryAcquire? || step.Move? || step.Release? || step.Forget?
    ensures Safe(l, Next(l, sys, step))
  {
    match step
    case TryAcquire(s) => GrantSafe(l, sys, s);
    case Move(s, d) =>
      SlotSet(sys.slots, s, Empty);
      SlotSet(sys.slots[s := Empty], d, Live);
    case Release(s) => SlotSet(sys.slots, s, Releasing);
    case Forget(s) => SlotSet(sys.slots, s, Empty);
  }

  /** No step breaks the accounting. */
  lemma StepSafe(l: Limits, sys: System, step: Step)
    requires Safe(l, sys) && Enabled(sys, step)
    ensures Safe(l, Next(l, sys, step))
  {
    if step.FirstTry? {
      var (granted, ok) := Grant(l, sys, step.slot);
      GrantSafe(l, sys, step.slot);
      PhaseSafe(l, granted, step.task, if ok then Over else Refused, granted.counters);
    } else if step.Poll? {
      var (granted, ok) := Grant(l, sys, step.slot);
      GrantSafe(l, sys, step.slot);
      PhaseSafe(l, granted, step.task, if ok then Leaving else Polling, granted.counters);
    } else if step.TryAcquire? || step.Move? || step.Release? || step.Forget? {
      SlotStepSafe(l, sys, step);
    } else {
      TaskStepSafe(l, sys, step);
    }
  }

  /** After any interleaving: the active count is the number of live permits and within its limit, and
      the waiter count is the number of tasks inside the guarded wait and within its limit. */
  lemma {:induction false} AlwaysSafe(l: Limits, steps: seq<Step>)
    requires Run(l, steps).Some?
    ensures Safe(l, Run(l, steps).value)
  {
    if steps == [] {
      assert LivePermits(START.slots) == {} && Waiters(START.tasks) == {};
    } else {
      var before := steps[..|steps| - 1];
      AlwaysSafe(l, before);
      StepSafe(l, Run(l, before).value, steps[|steps| - 1]);
    }
  }

  /** The tests for a positive count before each decrement never fail: without them every step would do
      the same. */
  lemma {:induction false} GuardsNeverBite(l: Limits, steps: seq<Step>, step: Step)
    requires Run(l, steps).Some? && Enabled(Run(l, steps).value, step)
    ensures step.Release? ==> Run(l, steps).value.counters.active > 0
    ensures step.Leave? ==> Run(l, steps).value.counters.waiters > 0
  {
    AlwaysSafe(l, steps);
    var sys := Run(l, steps).value;
    if step.Release? {
      assert step.slot in LivePermits(sys.slots);
    }
    if step.Leave? {
      assert step.task in Waiters(sys.tasks);
    }
  }

  /** A try is refused if and only if as many permits as allowed are live at that moment, and a task is
      turned away if and only if as many tasks as allowed are already waiting. */
  lemma {:induction false} RefusedIffFull(l: Limits, steps: seq<Step>, slot: nat)
    requires Run(l, steps).Some?
    ensures var sys := Run(l, steps).value;
      && (!Grant(l, sys, slot).1 <==> |LivePermits(sys.slots)| == l.maxActive)
      && (!AfterEnlist(l, sys.counters).1 <==> |Waiters(sys.tasks)| == l.maxWaiters)
  {
    AlwaysSafe(l, steps);
  }

  /** A free permit is there to be taken. */
  predicate HasRoom(l: Limits, sys: System) {
    |LivePermits(sys.slots)| < l.maxActive
  }

  /** What each step does to the permits that are out, told without the counters: a try adds one to the object it is
      for if fewer than allowed are out, a move passes one on, a release takes one back. */
  ghost predicate PermitsFollow(l: Limits, sys: System, step: Step, after: System) {
    var was, now := LivePermits(sys.slots), LivePermits(after.slots);
    match step
    case FirstTry(_, s) => now == was + if HasRoom(l, sys) then {s} else {}
    case Poll(_, s) => now == was + if HasRoom(l, sys) then {s} else {}
    case TryAcquire(s) => now == was + if HasRoom(l, sys) then {s} else {}
    case Move(s, d) => now == was - {s} + {d}
    case Release(s) => now == was - {s}
    case _ => now == was
  }

  /** What each step does to the calls: a first try that succeeds ends the call, and one that fails refuses it; a
      refused call waits if there is a place, and is turned away if not; a poll that succeeds ends the wait, and one
      that fails does not. */
  ghost predicate CallsFollow(l: Limits, sys: System, step: Step, after: System) {
    match step
    case Arrive(t) => after.tasks == sys.tasks[t := Arriving]
    case FirstTry(t, _) => after.tasks == sys.tasks[t := if HasRoom(l, sys) then Over else Refused]
    case Enlist(t) => after.tasks == sys.tasks[t := if |Waiters(sys.tasks)| < l.maxWaiters then Polling else Over]
    case Poll(t, _) => after.tasks == sys.tasks[t := if HasRoom(l, sys) then Leaving else Polling]
    case GiveUp(t) => after.tasks == sys.tasks[t := Leaving]
    case Leave(t) => after.tasks == sys.tasks[t := Over]
    case _ => after.tasks == sys.tasks
  }

  lemma LiveSet(slots: map<nat, Slot>, slot: nat, what: Slot)
    ensures LivePermits(slots[slot := what]) == LivePermits(slots) - {slot} + if what == Live then {slot} else {}
  {
  }

  lemma GrantPermits(l: Limits, sys: System, slot: nat)
    requires Safe(l, sys)
    ensures LivePermits(Grant(l, sys, slot).0.slots) == LivePermits(sys.slots) + if HasRoom(l, sys) then {slot} else {}
    ensures Grant(l, sys, slot).0.tasks == sys.tasks && (Grant(l, sys, slot).1 <==> HasRoom(l, sys))
  {
    LiveSet(sys.slots, slot, Live);
  }

  lemma MovePermits(slots: map<nat, Slot>, s: nat, d: nat)
    ensures LivePermits(slots[s := Empty][d := Live]) == LivePermits(slots) - {s} + {d}
  {
    LiveSet(slots, s, Empty);
    LiveSet(slots[s := Empty], d, Live);
  }

  lemma DropPermit(slots: map<nat, Slot>, s: nat, what: Slot)
    requires what != Live
    ensures LivePermits(slots[s := what]) == LivePermits(slots) - {s}
  {
    LiveSet(slots, s, what);
  }

  lemma TryByStep(l: Limits, sys: System, step: Step)
    requires Safe(l, sys) && Enabled(sys, step) && (step.FirstTry? || step.Poll? || step.TryAcquire?)
    ensures PermitsFollow(l, sys, step, Next(l, sys, step))
  {
    GrantPermits(l, sys, step.slot);
  }

  lemma PermitsByStep(l: Limits, sys: System, step: Step)
    requires Safe(l, sys) && Enabled(sys, step)
    ensures PermitsFollow(l, sys, step, Next(l, sys, step))
  {
    if step.FirstTry? || step.Poll? || step.TryAcquire? {
      TryByStep(l, sys, step);
    } else if step.Move? {
      MovePermits(sys.slots, step.slot, step.target);
    } else if step.Release? {
      DropPermit(sys.slots, step.slot, Releasing);
    } else if step.Forget? {
      DropPermit(sys.slots, step.slot, Empty);
      assert step.slot !in LivePermits(sys.slots);
    }
  }

  lemma TryCalls(l: Limits, sys: System, step: Step)
    requires Safe(l, sys) && Enabled(sys, step) && (step.FirstTry? || step.Poll?)
    ensures CallsFollow(l, sys, step, Next(l, sys, step))
  {
    GrantPermits(l, sys, step.slot);
  }

  lemma CallsByStep(l: Limits, sys: System, step: Step)
    requires Safe(l, sys) && Enabled(sys, step)
    ensures CallsFollow(l, sys, step, Next(l, sys, step))
  {
    if step.FirstTry? || step.Poll? {
      TryCalls(l, sys, step);
    } else if step.TryAcquire? {
      GrantPermits(l, sys, step.slot);
    }
  }

  /** In every run the counters may be forgotten: what the steps do is decided by the permits that are out and the
      calls that wait. */
  lemma {:induction false} StepsByPermits(l: Limits, steps: seq<Step>, step: Step)
    requires Run(l, steps).Some? && Enabled(Run(l, steps).value, step)
    ensures PermitsFollow(l, Run(l, steps).value, step, Next(l, Run(l, steps).value, step))
    ensures CallsFollow(l, Run(l, steps).value, step, Next(l, Run(l, steps).value, step))
  {
    AlwaysSafe(l, steps);
    PermitsByStep(l, Run(l, steps).value, step);
    CallsByStep(l, Run(l, steps).value, step);
  }

  lemma {:induction false} OneMore(l: Limits, steps: seq<Step>, step: Step)
    requires Run(l, steps).Some? && Enabled(Run(l, steps).value, step)
    ensures Run(l, steps + [step]) == Some(Next(l, Run(l, steps).value, step))
  {
    assert (steps + [step])[..|steps|] == steps;
  }

  /** What a caller is free to do at any time: begin a call, try for a permit with an empty permit object, pass a permit
      on to an empty one, and give up waiting, which leaves the permits alone and gives the waiting place back. */
  lemma {:induction false} CallersAreFree(l: Limits, steps: seq<Step>, t: nat, s: nat, d: nat)
    requires Run(l, steps).Some?
    ensures t !in Run(l, steps).value.tasks ==> Run(l, steps + [Arrive(t)]).Some?
    ensures Holds(Run(l, steps).value, s, Empty) ==> Run(l, steps + [TryAcquire(s)]).Some?
    ensures Holds(Run(l, steps).value, s, Live) && Holds(Run(l, steps).value, d, Empty) ==>
      Run(l, steps + [Move(s, d)]).Some?
    ensures InPhase(Run(l, steps).value, t, Polling) ==>
      var all := steps + [GiveUp(t)] + [Leave(t)];
      && Run(l, all).Some? && InPhase(Run(l, all).value, t, Over)
      && LivePermits(Run(l, all).value.slots) == LivePermits(Run(l, steps).value.slots)
      && Waiters(Run(l, all).value.tasks) == Waiters(Run(l, steps).value.tasks) - {t}
  {
    var sys := Run(l, steps).value;
    if t !in sys.tasks {
      OneMore(l, steps, Arrive(t));
    }
    if Holds(sys, s, Empty) {
      OneMore(l, steps, TryAcquire(s));
    }
    if Holds(sys, s, Live) && Holds(sys, d, Empty) {
      OneMore(l, steps, Move(s, d));
    }
    if InPhase(sys, t, Polling) {
      OneMore(l, steps, GiveUp(t));
      OneMore(l, steps + [GiveUp(t)], Leave(t));
    }
  }

  /** Step `p` gave the call its permit. */
  ghost predicate GrantedBy(l: Limits, steps: seq<Step>, t: nat, p: nat) {
    p < |steps| && Run(l, steps[..p]).Some? && Run(l, steps[..p + 1]).Some? &&
    (steps[p].FirstTry? || steps[p].Poll?) && steps[p].task == t &&
    LivePermits(Run(l, steps[..p + 1]).value.slots) == LivePermits(Run(l, steps[..p]).value.slots) + {steps[p].slot} &&
    steps[p].slot !in LivePermits(Run(l, steps[..p]).value.slots)
  }

  /** Step `p` turned the call away, when as many calls as allowed were waiting. */
  ghost predicate TurnedAwayBy(l: Limits, steps: seq<Step>, t: nat, p: nat) {
    p < |steps| && steps[p] == Enlist(t) && Run(l, steps[..p]).Some? &&
    |Waiters(Run(l, steps[..p]).value.tasks)| == l.maxWaiters
  }

  /** What became of a call that no longer waits. */
  ghost predicate Settled(l: Limits, steps: seq<Step>, t: nat) {
    || GiveUp(t) in steps
    || (exists p: nat :: GrantedBy(l, steps, t, p))
    || (exists p: nat :: TurnedAwayBy(l, steps, t, p))
  }

  lemma SettledStays(l: Limits, before: seq<Step>, step: Step, t: nat)
    requires Settled(l, before, t)
    ensures Settled(l, before + [step], t)
  {
    var steps := before + [step];
    if p: nat :| GrantedBy(l, before, t, p) {
      assert steps[..p] == before[..p] && steps[..p + 1] == before[..p + 1];
      assert GrantedBy(l, steps, t, p);
    }
    if p: nat :| TurnedAwayBy(l, before, t, p) {
      assert steps[..p] == before[..p];
      assert TurnedAwayBy(l, steps, t, p);
    }
  }

  lemma {:induction false} SettledNow(l: Limits, before: seq<Step>, step: Step, t: nat)
    requires Run(l, before).Some? && Enabled(Run(l, before).value, step) && t in Run(l, before).value.tasks
    requires var was, now := Run(l, before).value.tasks[t], Next(l, Run(l, before).value, step).tasks[t];
      was != Leaving && was != Over && (now == Leaving || now == Over)
    ensures Settled(l, before + [step], t)
  {
    var steps, p := before + [step], |before|;
    StepsByPermits(l, before, step);
    AlwaysSafe(l, before);
    assert steps[..p] == before && steps[..p + 1] == steps && steps[p] == step;
    if step.FirstTry? || step.Poll? {
      assert GrantedBy(l, steps, t, p);
    } else if step.Enlist? {
      assert TurnedAwayBy(l, steps, t, p);
    }
  }

  /** A call ends in one of three ways: it got a permit, it gave up, or it was turned away because the waiting places
      were taken. */
  lemma {:induction false} EndsInOneOfThreeWays(l: Limits, steps: seq<Step>, t: nat)
    requires Run(l, steps).Some?
    requires InPhase(Run(l, steps).value, t, Leaving) || InPhase(Run(l, steps).value, t, Over)
    ensures Settled(l, steps, t)
  {
    var before, step := steps[..|steps| - 1], steps[|steps| - 1];
    var sys := Run(l, before).value;
    assert steps == before + [step];
    if InPhase(sys, t, Leaving) || InPhase(sys, t, Over) {
      EndsInOneOfThreeWays(l, before, t);
      SettledStays(l, before, step, t);
    } else {
      SettledNow(l, before, step, t);
    }
  }

  /** Once every call is over and every permit object is empty, both counts are back at zero. */
  lemma {:induction false} NothingLeaks(l: Limits, steps: seq<Step>)
    requires Run(l, steps).Some?
    requires var sys := Run(l, steps).value;
      (forall t :: t in sys.tasks ==> sys.tasks[t] == Over) && (forall s :: s in sys.slots ==> sys.slots[s] == Empty)
    ensures Run(l, steps).value.counters == Counters(0, 0)
  {
    AlwaysSafe(l, steps);
    var sys := Run(l, steps).value;
    assert LivePermits(sys.slots) == {} && Waiters(sys.tasks) == {};
  }
}
