/**
 One batch processor used for one batch after another, with `get_stats` calls that may be under way while
 the next call of `process` resets the counters. The reset is modelled store by store.
 */
module BatchStats {
  import opened Batch
  import opened Options
  import opened WorkSplit

  /** Where the processor is: not used yet, in a batch, or after one of the stores of the reset. */
  datatype Phase = Unused | InBatch | FlagCleared | CompletedCleared | FailedCleared | MarkedRunning | Emptied

  /** A value that a load gave, and how often the size of the results had been set by then. */
  datatype Seen = Seen(value: nat, epoch: nat)

  /** A `get_stats` call after each of its loads. */
  datatype Call =
    | GotTotal(total: Seen)
    | GotCompleted(total: Seen, completed: Seen)
    | GotFailed(total: Seen, completed: Seen, failed: Seen)
    | Reported(total: Seen, completed: Seen, failed: Seen, cancelled: int)

  /** `totals` has the sizes that the results have had: zero at first, and for each batch zero when they are cleared
      and then its number of questions. */
  datatype Life = Life(setup: Setup, sys: System, phase: Phase, totals: seq<nat>, calls: map<nat, Call>)

  datatype LifeStep =
    | Inner(step: Step)   // a step of the current batch, or of a `cancel`
    | ClearFlag | ClearCompleted | ClearFailed | MarkRunning | Empty | Resize(next: Setup)
    | LoadTotal(call: nat) | LoadCompletedCount(call: nat) | LoadFailedCount(call: nat) | LoadFinalStatus(call: nat)

  const UNUSED := Setup(0, [], false, false, 0)

  const NEW := Life(UNUSED, Start(UNUSED), Unused, [0], map[])

  function Last(totals: seq<nat>): nat {
    if totals == [] then 0 else totals[|totals| - 1]
  }

  function Epoch(totals: seq<nat>): nat {
    if totals == [] then 0 else |totals| - 1
  }

  /** The setup of a batch continues what `cancel` calls have done during the reset: one that has stored its
      status already counts as one that stores it first thing. */
  predicate Continues(next: Setup, c: Shared) {
    && ValidSetup(next) && next.flagAtStart == c.cancelled
    && next.cancelling == c.cancelling + if c.status == Cancelled then 1 else 0
  }

  predicate IsCancel(step: Step) {
    step.CancelFlag? || step.CancelStatus?
  }

  predicate IsReaderStep(step: Step) {
    step.LoadCompleted? || step.LoadFailed? || step.LoadStatus?
  }

  predicate Possible(life: Life, step: LifeStep) {
    match step
    case Inner(inner) =>
      (life.phase == InBatch || IsCancel(inner)) && !IsReaderStep(inner) && Enabled(life.setup, life.sys, inner)
    case ClearFlag => life.phase == Unused || (life.phase == InBatch && life.sys.main.Returned?)
    case ClearCompleted => life.phase == FlagCleared
    case ClearFailed => life.phase == CompletedCleared
    case MarkRunning => life.phase == FailedCleared
    case Empty => life.phase == MarkedRunning
    case Resize(next) => life.phase == Emptied && Continues(next, life.sys.shared)
    case LoadTotal(r) => r !in life.calls
    case LoadCompletedCount(r) => r in life.calls && life.calls[r].GotTotal?
    case LoadFailedCount(r) => r in life.calls && life.calls[r].GotCompleted?
    case LoadFinalStatus(r) => r in life.calls && life.calls[r].GotFailed?
  }

  function SetShared(life: Life, c: Shared, phase: Phase): Life {
    life.(sys := life.sys.(shared := c), phase := phase)
  }

  function BatchBegun(next: Setup, c: Shared): System
    requires Continues(next, c)
  {
    if c.status == Cancelled then Batch.Next(next, Start(next), CancelStatus) else Start(next)
  }

  function Reply(c: Shared, seen: Call): Call
    requires seen.GotFailed?
  {
    Reported(seen.total, seen.completed, seen.failed,
             if c.status == Cancelled then seen.total.value - seen.completed.value - seen.failed.value else 0)
  }

  function After(life: Life, step: LifeStep): Life
    requires Possible(life, step)
  {
    var c, epoch := life.sys.shared, Epoch(life.totals);
    match step
    case Inner(inner) => life.(sys := Batch.Next(life.setup, life.sys, inner))
    case ClearFlag => SetShared(life, c.(cancelled := false), FlagCleared)
    case ClearCompleted => SetShared(life, c.(completed := 0), CompletedCleared)
    case ClearFailed => SetShared(life, c.(failed := 0), FailedCleared)
    case MarkRunning => SetShared(life, c.(status := Running), MarkedRunning)
    case Empty => life.(phase := Emptied, totals := life.totals + [0])
    case Resize(next) => Life(next, BatchBegun(next, c), InBatch, life.totals + [next.n], life.calls)
    case LoadTotal(r) => SetCall(life, r, GotTotal(Seen(Last(life.totals), epoch)))
    case LoadCompletedCount(r) => SetCall(life, r, GotCompleted(life.calls[r].total, Seen(c.completed, epoch)))
    case LoadFailedCount(r) =>
      SetCall(life, r, GotFailed(life.calls[r].total, life.calls[r].completed, Seen(c.failed, epoch)))
    case LoadFinalStatus(r) => SetCall(life, r, Reply(c, life.calls[r]))
  }

  function SetCall(life: Life, r: nat, call: Call): Life {
    life.(calls := life.calls[r := call])
  }

  function RunLife(steps: seq<LifeStep>): Option<Life> {
    if steps == [] then Some(NEW)
    else
      match RunLife(steps[..|steps| - 1])
      case None => None
      case Some(life) =>
        if Possible(life, steps[|steps| - 1]) then Some(After(life, steps[|steps| - 1])) else None
  }

  // ---------------------------------------------------------------- what holds at all times

  /** The counters fit the current total, also while they are being reset. */
  ghost predicate CountersFit(life: Life) {
    var c := life.sys.shared;
    && c.completed + c.failed <= Last(life.totals)
    && (IsCleared(life.phase) || life.phase == CompletedCleared ==> c.completed == 0)
    && (IsCleared(life.phase) ==> c.failed == 0)
    && (life.phase == MarkedRunning || life.phase == Emptied ==> c.status == Running || c.status == Cancelled)
  }

  predicate IsCleared(phase: Phase) {
    phase == FailedCleared || phase == MarkedRunning || phase == Emptied
  }

  predicate Fits(totals: seq<nat>, seen: Seen) {
    seen.epoch < |totals| && seen.value <= totals[seen.epoch]
  }

  predicate SumFits(totals: seq<nat>, completed: Seen, failed: Seen) {
    && Fits(totals, completed) && Fits(totals, failed) && completed.epoch <= failed.epoch
    && (completed.epoch == failed.epoch ==> completed.value + failed.value <= totals[failed.epoch])
  }

  /** What a call has loaded fits the totals of the epochs in which it loaded it. */
  predicate CallOk(totals: seq<nat>, c: Shared, phase: Phase, call: Call) {
    && call.total.epoch < |totals| && call.total.value == totals[call.total.epoch]
    && match call
       case GotTotal(_) => true
       case GotCompleted(total, completed) =>
         && Fits(totals, completed) && total.epoch <= completed.epoch
         && (completed.epoch == |totals| - 1 ==>
           && completed.value + c.failed <= totals[completed.epoch]
           && (phase == InBatch ==> completed.value <= c.completed))
       case GotFailed(total, completed, failed) => total.epoch <= completed.epoch && SumFits(totals, completed, failed)
       case Reported(total, completed, failed, cancelled) =>
         && total.epoch <= completed.epoch && SumFits(totals, completed, failed)
         && (cancelled == 0 || cancelled == total.value - completed.value - failed.value)
  }

  ghost predicate CallsOk(totals: seq<nat>, c: Shared, phase: Phase, calls: map<nat, Call>) {
    forall r :: r in calls ==> CallOk(totals, c, phase, calls[r])
  }

  ghost predicate LifeSafe(life: Life) {
    && life.totals != []
    && (life.phase == InBatch ==>
      ValidSetup(life.setup) && Safe(life.setup, life.sys) && life.setup.n == Last(life.totals))
    && CountersFit(life)
    && CallsOk(life.totals, life.sys.shared, life.phase, life.calls)
  }

  lemma SafeFits(s: Setup, sys: System)
    requires Safe(s, sys)
    ensures sys.shared.completed + sys.shared.failed <= s.n
  {
    TallyBound(sys.stages);
  }

  /** The counters never shrink during a batch. */
  lemma InnerGrows(s: Setup, sys: System, step: Step)
    requires Enabled(s, sys, step)
    ensures var c, d := sys.shared, Batch.Next(s, sys, step).shared;
      c.completed <= d.completed && c.failed <= d.failed
    ensures IsCancel(step) ==> var c, d := sys.shared, Batch.Next(s, sys, step).shared;
      c.completed == d.completed && c.failed == d.failed && (d.status == c.status || d.status == Cancelled)
  {
  }

  lemma CallsKept(totals: seq<nat>, c: Shared, d: Shared, phase: Phase, now: Phase, calls: map<nat, Call>)
    requires totals != [] && CallsOk(totals, c, phase, calls)
    requires d.failed <= c.failed
      || (phase == InBatch && c.completed <= d.completed && d.completed + d.failed <= Last(totals))
    requires now == InBatch ==> phase == InBatch && c.completed <= d.completed
    ensures CallsOk(totals, d, now, calls)
  {
    forall r | r in calls
      ensures CallOk(totals, d, now, calls[r])
    {
      assert CallOk(totals, c, phase, calls[r]);
    }
  }

  lemma CallsGrow(totals: seq<nat>, n: nat, c: Shared, d: Shared, phase: Phase, now: Phase, calls: map<nat, Call>)
    requires totals != [] && CallsOk(totals, c, phase, calls)
    ensures CallsOk(totals + [n], d, now, calls)
  {
    forall r | r in calls
      ensures CallOk(totals + [n], d, now, calls[r])
    {
      assert CallOk(totals, c, phase, calls[r]);
    }
  }

  lemma InnerSafe(life: Life, step: Step)
    requires LifeSafe(life) && Possible(life, Inner(step))
    ensures LifeSafe(After(life, Inner(step)))
  {
    var after := After(life, Inner(step));
    InnerGrows(life.setup, life.sys, step);
    if life.phase == InBatch {
      StepSafe(life.setup, life.sys, step);
      SafeFits(life.setup, after.sys);
    }
    CallsKept(life.totals, life.sys.shared, after.sys.shared, life.phase, life.phase, life.calls);
  }

  lemma EmptySafe(life: Life)
    requires LifeSafe(life) && Possible(life, Empty)
    ensures LifeSafe(After(life, Empty))
  {
    CallsGrow(life.totals, 0, life.sys.shared, life.sys.shared, life.phase, Emptied, life.calls);
  }

  lemma ResizeSafe(life: Life, next: Setup)
    requires LifeSafe(life) && Possible(life, Resize(next))
    ensures LifeSafe(After(life, Resize(next)))
  {
    var c, after := life.sys.shared, After(life, Resize(next));
    StartSafe(next);
    if c.status == Cancelled {
      StepSafe(next, Start(next), CancelStatus);
    }
    SafeFits(next, after.sys);
    CallsGrow(life.totals, next.n, c, after.sys.shared, life.phase, InBatch, life.calls);
  }

  lemma LoadSafe(life: Life, step: LifeStep)
    requires LifeSafe(life) && Possible(life, step)
    requires step.LoadTotal? || step.LoadCompletedCount? || step.LoadFailedCount? || step.LoadFinalStatus?
    ensures LifeSafe(After(life, step))
  {
    var after, r := After(life, step), step.call;
    if r in life.calls {
      assert CallOk(life.totals, life.sys.shared, life.phase, life.calls[r]);
    }
    assert CallOk(life.totals, life.sys.shared, life.phase, after.calls[r]);
  }

  lemma ClearSafe(life: Life, step: LifeStep)
    requires LifeSafe(life) && Possible(life, step)
    requires step.ClearFlag? || step.ClearCompleted? || step.ClearFailed? || step.MarkRunning?
    ensures LifeSafe(After(life, step))
  {
    var after := After(life, step);
    CallsKept(life.totals, life.sys.shared, after.sys.shared, life.phase, after.phase, life.calls);
  }

  lemma {:induction false} AlwaysLifeSafe(steps: seq<LifeStep>)
    requires RunLife(steps).Some?
    ensures LifeSafe(RunLife(steps).value)
  {
    if steps != [] {
      var before, step := steps[..|steps| - 1], steps[|steps| - 1];
      var life := RunLife(before).value;
      AlwaysLifeSafe(before);
      if step.Inner? {
        InnerSafe(life, step.step);
      } else if step.Resize? {
        ResizeSafe(life, step.next);
      } else if step.Empty? {
        EmptySafe(life);
      } else if step.ClearFlag? || step.ClearCompleted? || step.ClearFailed? || step.MarkRunning? {
        ClearSafe(life, step);
      } else {
        LoadSafe(life, step);
      }
    }
  }

  // ---------------------------------------------------------------- when the report is in bounds

  /** The most that a call can count when it loads one count in epoch `cb` and the other in epoch `fb`. */
  function MostCounted(totals: seq<nat>, cb: nat, fb: nat): nat
    requires cb < |totals| && fb < |totals|
  {
    if cb == fb then totals[cb] else totals[cb] + totals[fb]
  }

  /** The call loaded the total, the completed and the failed count in these epochs, and has reported. */
  predicate LoadedIn(call: Call, tb: nat, cb: nat, fb: nat) {
    call.Reported? && call.total.epoch == tb && call.completed.epoch == cb && call.failed.epoch == fb
  }

  /** The report of call `r` after a life in which the results had these sizes. */
  ghost predicate ReportsIn(steps: seq<LifeStep>, totals: seq<nat>, r: nat, tb: nat, cb: nat, fb: nat) {
    RunLife(steps).Some? &&
    var life := RunLife(steps).value;
    life.totals == totals && r in life.calls && LoadedIn(life.calls[r], tb, cb, fb)
  }

  /** Over the whole life of a processor, a report is in bounds if the sizes of the epochs in which the counts were
      loaded come to no more than the total loaded. That is always so for a call that no reset overlaps, however its
      loads are spread over the batch. */
  lemma {:induction false} ReportsFit(steps: seq<LifeStep>, totals: seq<nat>, r: nat, tb: nat, cb: nat, fb: nat)
    requires ReportsIn(steps, totals, r, tb, cb, fb)
    ensures tb <= cb <= fb < |totals|
    ensures var call := RunLife(steps).value.calls[r];
      && call.total.value == totals[tb]
      && call.completed.value + call.failed.value <= MostCounted(totals, cb, fb)
      && (MostCounted(totals, cb, fb) <= totals[tb] ==>
        0 <= call.cancelled <= call.total.value - call.completed.value - call.failed.value)
  {
    AlwaysLifeSafe(steps);
    var life := RunLife(steps).value;
    assert CallOk(life.totals, life.sys.shared, life.phase, life.calls[r]);
  }

  /** What the last load makes of a call, in every life: the three numbers add up to the total it loaded if the status
      is CANCELLED at that moment, and otherwise nothing is reported as cancelled; what was loaded before is kept. */
  lemma {:induction false} ReportAddsUp(steps: seq<LifeStep>, r: nat)
    requires RunLife(steps).Some? && Possible(RunLife(steps).value, LoadFinalStatus(r))
    ensures var life, seen := RunLife(steps).value, RunLife(steps).value.calls[r];
      var call := After(life, LoadFinalStatus(r)).calls[r];
      && call.Reported? && call.total == seen.total && call.completed == seen.completed && call.failed == seen.failed
      && (life.sys.shared.status == Cancelled ==>
        call.completed.value + call.failed.value + call.cancelled == call.total.value)
      && (life.sys.shared.status != Cancelled ==> call.cancelled == 0)
  {
  }

  /** The counters are at zero when a batch begins, as its model assumes. */
  lemma {:induction false} ResetIsClean(steps: seq<LifeStep>)
    requires RunLife(steps).Some? && RunLife(steps).value.phase == Emptied
    ensures var c := RunLife(steps).value.sys.shared;
      c.completed == 0 && c.failed == 0 && (c.status == Running || c.status == Cancelled)
  {
    AlwaysLifeSafe(steps);
  }

  // ---------------------------------------------------------------- each batch is a run of its own

  /** The steps of the batch under way; a status that a `cancel` stored during the reset comes first. */
  function BatchSteps(steps: seq<LifeStep>): seq<Step>
    requires RunLife(steps).Some?
  {
    if steps == [] then []
    else
      var before := steps[..|steps| - 1];
      match steps[|steps| - 1]
      case Inner(step) => BatchSteps(before) + [step]
      case Resize(_) => if RunLife(before).value.sys.shared.status == Cancelled then [CancelStatus] else []
      case _ => BatchSteps(before)
  }

  lemma {:induction false} BatchBeginsAsRun(next: Setup, c: Shared)
    requires Continues(next, c)
    ensures Run(next, if c.status == Cancelled then [CancelStatus] else []) == Some(BatchBegun(next, c))
  {
    if c.status == Cancelled {
      Extended(next, [], CancelStatus);
      assert [] + [CancelStatus] == [CancelStatus];
    }
  }

  lemma {:induction false} LifeBefore(steps: seq<LifeStep>)
    requires RunLife(steps).Some? && steps != []
    ensures RunLife(steps[..|steps| - 1]).Some?
    ensures Possible(RunLife(steps[..|steps| - 1]).value, steps[|steps| - 1])
    ensures RunLife(steps).value == After(RunLife(steps[..|steps| - 1]).value, steps[|steps| - 1])
  {
  }

  lemma StaysInBatch(life: Life, step: LifeStep)
    requires Possible(life, step) && After(life, step).phase == InBatch && !step.Resize?
    ensures life.phase == InBatch && After(life, step).setup == life.setup
    ensures !step.Inner? ==> After(life, step).sys == life.sys
    ensures step.Inner? ==>
      Enabled(life.setup, life.sys, step.step) && After(life, step).sys == Batch.Next(life.setup, life.sys, step.step)
  {
  }

  lemma BatchBegins(life: Life, next: Setup)
    requires Possible(life, Resize(next))
    ensures Continues(next, life.sys.shared)
    ensures After(life, Resize(next)).setup == next
    ensures After(life, Resize(next)).sys == BatchBegun(next, life.sys.shared)
  {
  }

  /** Within a life a batch goes through a run of its own setup, so what holds of all runs holds of it. */
  lemma {:induction false} BatchInLife(steps: seq<LifeStep>)
    requires RunLife(steps).Some? && RunLife(steps).value.phase == InBatch
    ensures var life := RunLife(steps).value;
      ValidSetup(life.setup) && Run(life.setup, BatchSteps(steps)) == Some(life.sys)
  {
    var before, step := steps[..|steps| - 1], steps[|steps| - 1];
    LifeBefore(steps);
    var life := RunLife(before).value;
    if step.Resize? {
      BatchBegins(life, step.next);
      BatchBeginsAsRun(step.next, life.sys.shared);
    } else {
      StaysInBatch(life, step);
      BatchInLife(before);
      if step.Inner? {
        Extended(life.setup, BatchSteps(before), step.step);
      }
    }
  }

  /** How many calls of `process` have begun, and how many have returned. */
  function CountBegun(steps: seq<LifeStep>): nat {
    if steps == [] then 0
    else CountBegun(steps[..|steps| - 1]) + if steps[|steps| - 1].ClearFlag? then 1 else 0
  }

  function CountReturned(steps: seq<LifeStep>): nat {
    if steps == [] then 0
    else
      var before, step := steps[..|steps| - 1], steps[|steps| - 1];
      CountReturned(before) + if Returns(RunLife(before), step) then 1 else 0
  }

  /** The main thread ends the call by seeing the flag set, or by storing COMPLETED. */
  predicate Returns(life: Option<Life>, step: LifeStep) {
    life.Some? && (step == Inner(StoreStatus) || (step == Inner(LoadFlag) && life.value.sys.shared.cancelled))
  }

  /** One call of `process` at a time: all that have begun have returned but the one under way, and the next begins
      only when there is none. */
  lemma {:induction false} OneCallAtATime(steps: seq<LifeStep>)
    requires RunLife(steps).Some?
    ensures var underWay := CountBegun(steps) - CountReturned(steps);
      && (underWay == 0 || underWay == 1)
      && (RunLife(steps + [ClearFlag]).Some? <==> underWay == 0)
  {
    CountsBetween(steps);
    assert (steps + [ClearFlag])[..|steps|] == steps;
  }

  function UnderWay(life: Life): nat {
    if life.phase == Unused || (life.phase == InBatch && life.sys.main.Returned?) then 0 else 1
  }

  lemma UnderWayAfter(life: Life, step: LifeStep)
    requires Possible(life, step)
    ensures UnderWay(After(life, step)) + (if Returns(Some(life), step) then 1 else 0)
      == UnderWay(life) + if step.ClearFlag? then 1 else 0
  {
  }

  lemma {:induction false} CountsBetween(steps: seq<LifeStep>)
    requires RunLife(steps).Some?
    ensures CountBegun(steps) == CountReturned(steps) + UnderWay(RunLife(steps).value)
  {
    if steps != [] {
      CountsBetween(steps[..|steps| - 1]);
      UnderWayAfter(RunLife(steps[..|steps| - 1]).value, steps[|steps| - 1]);
    }
  }

  /** The steps after the last reset of the flag. */
  function SinceReset(steps: seq<LifeStep>): seq<LifeStep> {
    if steps == [] || steps[|steps| - 1] == ClearFlag then []
    else SinceReset(steps[..|steps| - 1]) + [steps[|steps| - 1]]
  }

  lemma {:induction false} FlagInReset(steps: seq<LifeStep>)
    requires RunLife(steps).Some? && RunLife(steps).value.phase != Unused && RunLife(steps).value.phase != InBatch
    ensures RunLife(steps).value.sys.shared.cancelled <==> Inner(CancelFlag) in SinceReset(steps)
  {
    var before, step := steps[..|steps| - 1], steps[|steps| - 1];
    if step != ClearFlag {
      FlagInReset(before);
      assert Inner(CancelFlag) in SinceReset(steps) <==>
        Inner(CancelFlag) in SinceReset(before) || step == Inner(CancelFlag);
    }
  }

  /** A batch finds the flag raised at its start exactly when a `cancel` raised it after the reset, and is cancelled
      later only by a `cancel` that raises it later. */
  lemma {:induction false} CancelsOfBatch(steps: seq<LifeStep>)
    requires RunLife(steps).Some? && RunLife(steps).value.phase == InBatch
    ensures RunLife(steps).value.setup.flagAtStart || CancelFlag in BatchSteps(steps) <==>
      Inner(CancelFlag) in SinceReset(steps)
  {
    var before, step := steps[..|steps| - 1], steps[|steps| - 1];
    assert Inner(CancelFlag) in SinceReset(steps) <==>
      Inner(CancelFlag) in SinceReset(before) || step == Inner(CancelFlag);
    if step.Resize? {
      FlagInReset(before);
    } else {
      CancelsOfBatch(before);
    }
  }

  /** A batch in whose time, from the reset of the flag on, nobody cancels, and that no failure is to stop, runs to its
      end, whatever came before it. */
  lemma {:induction false} UncancelledBatchRunsEverything(steps: seq<LifeStep>)
    requires RunLife(steps).Some? && RunLife(steps).value.phase == InBatch
    requires Inner(CancelFlag) !in SinceReset(steps) && RunLife(steps).value.sys.main != Joining
    requires !RunLife(steps).value.setup.stopOnError || RunLife(steps).value.sys.shared.failed == 0
    ensures var life := RunLife(steps).value;
      && ValidSetup(life.setup) && Run(life.setup, BatchSteps(steps)) == Some(life.sys)
      && |life.sys.slots| == life.setup.n
      && life.sys.shared.completed + life.sys.shared.failed == life.setup.n
      && forall i :: 0 <= i < life.setup.n ==>
        Attempts(life.setup, BatchSteps(steps), i) == 1 && life.sys.slots[i].Some?
        && ReturnedFor(life.setup, BatchSteps(steps), i, life.sys.slots[i].value)
  {
    BatchInLife(steps);
    CancelsOfBatch(steps);
    UnstoppedRunsEverything(RunLife(steps).value.setup, BatchSteps(steps));
  }

  // ---------------------------------------------------------------- runs that show the rest

  /** One thread, and what a `cancel` has left behind. */
  function OneThread(n: nat, flag: bool, cancelling: nat): Setup {
    Setup(n, [Range(0, n)], false, flag, cancelling)
  }

  predicate IsOneThread(s: Setup) {
    s.ranges == [Range(0, s.n)] && !s.stopOnError
  }

  /** One thread works on a batch. */
  ghost predicate Works(steps: seq<LifeStep>, s: Setup, totals: seq<nat>, calls: map<nat, Call>, c: Shared, w: Worker) {
    RunLife(steps).Some? &&
    var life := RunLife(steps).value;
    && IsOneThread(s) && life.setup == s && life.phase == InBatch && life.totals == totals && life.calls == calls
    && life.sys.shared == c && life.sys.workers == [w] && life.sys.main == Joining
  }

  /** No batch is under way, and no `cancel` either; the results have just been emptied, or the last batch is over. */
  ghost predicate Rests(steps: seq<LifeStep>, totals: seq<nat>, calls: map<nat, Call>, completed: nat, failed: nat) {
    RunLife(steps).Some? &&
    var life := RunLife(steps).value;
    && (if |totals| % 2 == 0 then life.phase == Emptied && life.sys.shared == Counts(0, 0)
        else life.phase == Unused || (life.phase == InBatch && life.sys.main.Returned?))
    && life.totals == totals && life.calls == calls && life.sys.shared.cancelling == 0
    && life.sys.shared.completed == completed && life.sys.shared.failed == failed
  }

  function Counts(completed: nat, failed: nat): Shared {
    Shared(false, Running, completed, failed, 0)
  }

  lemma {:induction false} OneMore(steps: seq<LifeStep>, step: LifeStep)
    requires RunLife(steps).Some? && Possible(RunLife(steps).value, step)
    ensures RunLife(steps + [step]) == Some(After(RunLife(steps).value, step))
  {
    assert (steps + [step])[..|steps|] == steps;
  }

  /** A `get_stats` that nothing disturbs can be made at any time of a life, the reset included, and reports the size of
      the results and the counters as they are. */
  lemma {:induction false} UndisturbedReport(steps: seq<LifeStep>, r: nat)
    requires RunLife(steps).Some? && r !in RunLife(steps).value.calls
    ensures var life, all := RunLife(steps).value,
        steps + [LoadTotal(r)] + [LoadCompletedCount(r)] + [LoadFailedCount(r)] + [LoadFinalStatus(r)];
      var c, n, epoch := life.sys.shared, Last(life.totals), Epoch(life.totals);
      && RunLife(all).Some? && r in RunLife(all).value.calls
      && RunLife(all).value.calls[r] ==
        Reported(Seen(n, epoch), Seen(c.completed, epoch), Seen(c.failed, epoch),
                 if c.status == Cancelled then n - c.completed - c.failed else 0)
  {
    OneMore(steps, LoadTotal(r));
    OneMore(steps + [LoadTotal(r)], LoadCompletedCount(r));
    OneMore(steps + [LoadTotal(r)] + [LoadCompletedCount(r)], LoadFailedCount(r));
    OneMore(steps + [LoadTotal(r)] + [LoadCompletedCount(r)] + [LoadFailedCount(r)], LoadFinalStatus(r));
  }

  lemma {:induction false} WorkerMoves(steps: seq<LifeStep>, s: Setup, totals: seq<nat>, calls: map<nat, Call>,
                                       c: Shared, w: Worker, result: Result)
    requires Works(steps, s, totals, calls, c, w) && !Over(w)
    ensures Works(steps + [Inner(Move(0, result))], s, totals, calls, SharedAfter(c, w), Moved(s, s.n, c, w, result))
  {
    OneMore(steps, Inner(Move(0, result)));
  }

  /** The counts after `i` questions that all went the same way. */
  function CountsAfter(c: Shared, i: nat, result: Result): Shared {
    if result.Answer? then c.(completed := i) else c.(failed := i)
  }

  lemma {:induction false} AskNext(steps: seq<LifeStep>, s: Setup, totals: seq<nat>, calls: map<nat, Call>,
                                   c: Shared, i: nat, result: Result) returns (more: seq<LifeStep>)
    requires i < s.n && !c.cancelled && Works(steps, s, totals, calls, c, Worker(i, Testing))
    ensures Works(more, s, totals, calls, c, Worker(i, Answered(result)))
  {
    var move := Inner(Move(0, result));
    WorkerMoves(steps, s, totals, calls, c, Worker(i, Testing), result);
    WorkerMoves(steps + [move], s, totals, calls, c, Worker(i, Rechecking), result);
    WorkerMoves(steps + [move] + [move], s, totals, calls, c, Worker(i, Asking), result);
    more := steps + [move] + [move] + [move];
  }

  lemma {:induction false} CountNext(steps: seq<LifeStep>, s: Setup, totals: seq<nat>, calls: map<nat, Call>,
                                     c: Shared, i: nat, result: Result) returns (more: seq<LifeStep>)
    requires Works(steps, s, totals, calls, c, Worker(i, Answered(result)))
    ensures Works(more, s, totals, calls, SharedAfter(c, Worker(i, Written(result))), Worker(i + 1, Testing))
  {
    var move, d := Inner(Move(0, result)), SharedAfter(c, Worker(i, Written(result)));
    WorkerMoves(steps, s, totals, calls, c, Worker(i, Answered(result)), result);
    WorkerMoves(steps + [move], s, totals, calls, c, Worker(i, Written(result)), result);
    WorkerMoves(steps + [move] + [move], s, totals, calls, d, Worker(i, Advancing), result);
    more := steps + [move] + [move] + [move];
  }

  /** All questions of a batch go the same way. */
  lemma {:induction false} AskAll(steps: seq<LifeStep>, s: Setup, totals: seq<nat>, calls: map<nat, Call>,
                                  c: Shared, result: Result) returns (more: seq<LifeStep>)
    requires !c.cancelled && c.completed == 0 == c.failed && Works(steps, s, totals, calls, c, Worker(0, Testing))
    ensures Works(more, s, totals, calls, CountsAfter(c, s.n, result), Worker(s.n, Testing))
  {
    more := steps;
    var i := 0;
    while i < s.n
      invariant i <= s.n && Works(more, s, totals, calls, CountsAfter(c, i, result), Worker(i, Testing))
    {
      more := AskNext(more, s, totals, calls, CountsAfter(c, i, result), i, result);
      more := CountNext(more, s, totals, calls, CountsAfter(c, i, result), i, result);
      i := i + 1;
    }
  }

  lemma OneThreadBegins(s: Setup)
    requires s.n >= 1 && IsOneThread(s)
    ensures ValidSetup(s) && Start(s).workers == [Worker(0, Testing)]
  {
    assert s.ranges[..0] == [];
  }

  /** The state between two batches. */
  ghost predicate Resets(steps: seq<LifeStep>, phase: Phase, totals: seq<nat>, calls: map<nat, Call>, c: Shared) {
    RunLife(steps).Some? &&
    var life := RunLife(steps).value;
    life.phase == phase && life.totals == totals && life.calls == calls && life.sys.shared == c
  }

  lemma {:induction false} ResetFlag(steps: seq<LifeStep>, totals: seq<nat>, calls: map<nat, Call>, c: Shared)
    returns (more: seq<LifeStep>)
    requires RunLife(steps).Some? && Possible(RunLife(steps).value, ClearFlag)
    requires Resets(steps, RunLife(steps).value.phase, totals, calls, c)
    ensures Resets(more, FlagCleared, totals, calls, c.(cancelled := false))
  {
    OneMore(steps, ClearFlag);
    more := steps + [ClearFlag];
  }

  lemma {:induction false} ResetCounts(steps: seq<LifeStep>, totals: seq<nat>, calls: map<nat, Call>, c: Shared)
    returns (more: seq<LifeStep>)
    requires Resets(steps, FlagCleared, totals, calls, c)
    ensures Resets(more, FailedCleared, totals, calls, c.(completed := 0, failed := 0))
  {
    OneMore(steps, ClearCompleted);
    OneMore(steps + [ClearCompleted], ClearFailed);
    more := steps + [ClearCompleted] + [ClearFailed];
  }

  lemma {:induction false} ResetResults(steps: seq<LifeStep>, totals: seq<nat>, calls: map<nat, Call>, c: Shared)
    returns (more: seq<LifeStep>)
    requires Resets(steps, FailedCleared, totals, calls, c)
    ensures Resets(more, Emptied, totals + [0], calls, c.(status := Running))
  {
    OneMore(steps, MarkRunning);
    OneMore(steps + [MarkRunning], Empty);
    more := steps + [MarkRunning] + [Empty];
  }

  /** The rest of the reset, up to the moment when the results are empty. */
  lemma {:induction false} ResetRest(steps: seq<LifeStep>, totals: seq<nat>, calls: map<nat, Call>, c: Shared)
    returns (more: seq<LifeStep>)
    requires Resets(steps, FlagCleared, totals, calls, c)
    ensures Resets(more, Emptied, totals + [0], calls, Shared(c.cancelled, Running, 0, 0, c.cancelling))
  {
    more := ResetCounts(steps, totals, calls, c);
    more := ResetResults(more, totals, calls, c.(completed := 0, failed := 0));
  }

  lemma RestIsEmpty(steps: seq<LifeStep>, totals: seq<nat>, calls: map<nat, Call>)
    requires |totals| % 2 == 0 && Rests(steps, totals, calls, 0, 0)
    ensures Resets(steps, Emptied, totals, calls, Counts(0, 0))
  {
  }

  lemma EmptyIsRest(steps: seq<LifeStep>, totals: seq<nat>, calls: map<nat, Call>)
    requires |totals| % 2 == 0 && Resets(steps, Emptied, totals, calls, Counts(0, 0))
    ensures Rests(steps, totals, calls, 0, 0)
  {
  }

  lemma {:induction false} EmptyAtRest(steps: seq<LifeStep>, totals: seq<nat>, calls: map<nat, Call>,
                                       completed: nat, failed: nat) returns (more: seq<LifeStep>)
    requires |totals| % 2 == 1 && Rests(steps, totals, calls, completed, failed)
    ensures Rests(more, totals + [0], calls, 0, 0)
  {
    var c := RunLife(steps).value.sys.shared;
    more := ResetFlag(steps, totals, calls, c);
    more := ResetRest(more, totals, calls, c.(cancelled := false));
    EmptyIsRest(more, totals + [0], calls);
  }

  lemma {:induction false} BeginBatch(steps: seq<LifeStep>, totals: seq<nat>, calls: map<nat, Call>,
                                      c: Shared, s: Setup)
    returns (more: seq<LifeStep>)
    requires Resets(steps, Emptied, totals, calls, c) && s.n >= 1 && IsOneThread(s)
    requires c == Shared(s.flagAtStart, Running, 0, 0, s.cancelling)
    ensures Works(more, s, totals + [s.n], calls, c, Worker(0, Testing))
  {
    OneThreadBegins(s);
    OneMore(steps, Resize(s));
    more := steps + [Resize(s)];
  }

  /** A batch that is over. */
  ghost predicate Ends(steps: seq<LifeStep>, s: Setup, totals: seq<nat>, calls: map<nat, Call>, c: Shared, main: Main) {
    RunLife(steps).Some? &&
    var life := RunLife(steps).value;
    && life.phase == InBatch && life.sys.main == main && life.sys.shared == c
    && life.totals == totals && life.calls == calls && life.setup == s
  }

  lemma {:induction false} EndBatch(steps: seq<LifeStep>, s: Setup, totals: seq<nat>, calls: map<nat, Call>, c: Shared)
    returns (more: seq<LifeStep>)
    requires !c.cancelled && Works(steps, s, totals, calls, c, Worker(s.n, Testing))
    ensures Ends(more, s, totals, calls, c.(status := Completed), Returned(false))
  {
    var move := Inner(Move(0, Answer("")));
    WorkerMoves(steps, s, totals, calls, c, Worker(s.n, Testing), Answer(""));
    OneMore(steps + [move], Inner(LoadFlag));
    OneMore(steps + [move] + [Inner(LoadFlag)], Inner(StoreStatus));
    more := steps + [move] + [Inner(LoadFlag)] + [Inner(StoreStatus)];
  }

  lemma EndIsRest(steps: seq<LifeStep>, s: Setup, totals: seq<nat>, calls: map<nat, Call>, c: Shared)
    requires |totals| % 2 == 1 && c.cancelling == 0 && Ends(steps, s, totals, calls, c, Returned(false))
    ensures Rests(steps, totals, calls, c.completed, c.failed)
  {
  }

  /** A whole batch on a setup, from the moment when the results are empty. */
  lemma {:induction false} BatchRuns(steps: seq<LifeStep>, totals: seq<nat>, calls: map<nat, Call>,
                                     s: Setup, result: Result) returns (more: seq<LifeStep>)
    requires Resets(steps, Emptied, totals, calls, Counts(0, 0)) && s.n >= 1 && s == OneThread(s.n, false, 0)
    ensures Ends(more, s, totals + [s.n], calls,
                 CountsAfter(Counts(0, 0), s.n, result).(status := Completed), Returned(false))
  {
    more := BeginBatch(steps, totals, calls, Counts(0, 0), s);
    more := AskAll(more, s, totals + [s.n], calls, Counts(0, 0), result);
    more := EndBatch(more, s, totals + [s.n], calls, CountsAfter(Counts(0, 0), s.n, result));
  }

  /** From one rest to the next. */
  lemma {:induction false} WholeBatch(steps: seq<LifeStep>, totals: seq<nat>, calls: map<nat, Call>,
                                      n: nat, result: Result) returns (more: seq<LifeStep>)
    requires n >= 1 && |totals| % 2 == 0 && Rests(steps, totals, calls, 0, 0)
    ensures var c := CountsAfter(Counts(0, 0), n, result);
      Rests(more, totals + [n], calls, c.completed, c.failed)
  {
    var s := OneThread(n, false, 0);
    RestIsEmpty(steps, totals, calls);
    more := BatchRuns(steps, totals, calls, s, result);
    EndIsRest(more, s, totals + [n], calls, CountsAfter(Counts(0, 0), n, result).(status := Completed));
  }

  // ---------------------------------------------------------------- exactly which reports are in bounds

  /** The sizes that the results can have one after another. */
  predicate Sizes(ns: seq<nat>) {
    ns != [] && forall i :: 0 <= i < |ns| ==> (ns[i] == 0 <==> i == 0 || i % 2 == 1)
  }

  /** How the questions of epoch `k` go in the run below. */
  function ResultIn(k: nat, cb: nat, fb: nat): Result {
    if k == fb && cb < fb then Failure("no") else Answer("yes")
  }

  /** The counts at the end of an epoch of `n` questions. */
  function CountsIn(n: nat, k: nat, cb: nat, fb: nat): Shared {
    CountsAfter(Counts(0, 0), n, ResultIn(k, cb, fb))
  }

  /** What a call has loaded by the end of epoch `k` if it makes each load at the end of an epoch. */
  function CallsBy(ns: seq<nat>, k: nat, tb: nat, cb: nat, fb: nat): map<nat, Call>
    requires tb < |ns| && cb < |ns| && fb < |ns|
  {
    var total, completed := Seen(ns[tb], tb), Seen(ns[cb], cb);
    if k < tb then map[]
    else if k < cb then map[0 := GotTotal(total)]
    else if k < fb then map[0 := GotCompleted(total, completed)]
    else map[0 := GotFailed(total, completed, Seen(if cb < fb then ns[fb] else 0, fb))]
  }

  lemma {:induction false} TotalAtRest(steps: seq<LifeStep>, totals: seq<nat>, completed: nat, failed: nat)
    requires totals != [] && Rests(steps, totals, map[], completed, failed)
    ensures Rests(steps + [LoadTotal(0)], totals,
                  map[0 := GotTotal(Seen(Last(totals), |totals| - 1))], completed, failed)
  {
    OneMore(steps, LoadTotal(0));
  }

  lemma {:induction false} CompletedAtRest(steps: seq<LifeStep>, totals: seq<nat>, total: Seen,
                                           completed: nat, failed: nat)
    requires totals != [] && Rests(steps, totals, map[0 := GotTotal(total)], completed, failed)
    ensures Rests(steps + [LoadCompletedCount(0)], totals,
                  map[0 := GotCompleted(total, Seen(completed, |totals| - 1))], completed, failed)
  {
    OneMore(steps, LoadCompletedCount(0));
  }

  lemma {:induction false} FailedAtRest(steps: seq<LifeStep>, totals: seq<nat>, total: Seen, count: Seen,
                                        completed: nat, failed: nat)
    requires totals != [] && Rests(steps, totals, map[0 := GotCompleted(total, count)], completed, failed)
    ensures Rests(steps + [LoadFailedCount(0)], totals,
                  map[0 := GotFailed(total, count, Seen(failed, |totals| - 1))], completed, failed)
  {
    OneMore(steps, LoadFailedCount(0));
  }

  /** The loads at the end of epoch `k`. */
  lemma {:induction false} LoadsAt(steps: seq<LifeStep>, ns: seq<nat>, k: nat, tb: nat, cb: nat, fb: nat)
    returns (more: seq<LifeStep>)
    requires Sizes(ns) && tb <= cb <= fb < |ns| && k < |ns|
    requires var c := CountsIn(ns[k], k, cb, fb);
      Rests(steps, ns[..k + 1], if k == 0 then map[] else CallsBy(ns, k - 1, tb, cb, fb), c.completed, c.failed)
    ensures var c := CountsIn(ns[k], k, cb, fb);
      Rests(more, ns[..k + 1], CallsBy(ns, k, tb, cb, fb), c.completed, c.failed)
  {
    var c, totals := CountsIn(ns[k], k, cb, fb), ns[..k + 1];
    more := steps;
    if k == tb {
      TotalAtRest(more, totals, c.completed, c.failed);
      more := more + [LoadTotal(0)];
    }
    if k == cb {
      CompletedAtRest(more, totals, Seen(ns[tb], tb), c.completed, c.failed);
      more := more + [LoadCompletedCount(0)];
    }
    if k == fb {
      FailedAtRest(more, totals, Seen(ns[tb], tb), Seen(ns[cb], cb), c.completed, c.failed);
      more := more + [LoadFailedCount(0)];
    }
  }

  /** From the end of one epoch to the end of the next. */
  lemma {:induction false} NextEpoch(steps: seq<LifeStep>, ns: seq<nat>, k: nat, calls: map<nat, Call>,
                                     cb: nat, fb: nat)
    returns (more: seq<LifeStep>)
    requires Sizes(ns) && 1 <= k < |ns|
    requires var c := CountsIn(ns[k - 1], k - 1, cb, fb); Rests(steps, ns[..k], calls, c.completed, c.failed)
    ensures var c := CountsIn(ns[k], k, cb, fb); Rests(more, ns[..k + 1], calls, c.completed, c.failed)
  {
    var c := CountsIn(ns[k - 1], k - 1, cb, fb);
    assert ns[..k] + [ns[k]] == ns[..k + 1];
    if k % 2 == 1 {
      more := EmptyAtRest(steps, ns[..k], calls, c.completed, c.failed);
    } else {
      more := WholeBatch(steps, ns[..k], calls, ns[k], ResultIn(k, cb, fb));
    }
  }

  /** A life with these sizes in which the call counts as much as it can. */
  lemma {:induction false} LivesUpTo(ns: seq<nat>, k: nat, tb: nat, cb: nat, fb: nat) returns (steps: seq<LifeStep>)
    requires Sizes(ns) && tb <= cb <= fb < |ns| && k < |ns|
    ensures var c := CountsIn(ns[k], k, cb, fb);
      Rests(steps, ns[..k + 1], CallsBy(ns, k, tb, cb, fb), c.completed, c.failed)
  {
    if k == 0 {
      assert ns[..1] == [0];
      steps := LoadsAt([], ns, 0, tb, cb, fb);
    } else {
      steps := LivesUpTo(ns, k - 1, tb, cb, fb);
      steps := NextEpoch(steps, ns, k, CallsBy(ns, k - 1, tb, cb, fb), cb, fb);
      steps := LoadsAt(steps, ns, k, tb, cb, fb);
    }
  }

  /** A whole `cancel` between batches. */
  lemma {:induction false} CancelNow(steps: seq<LifeStep>, phase: Phase, totals: seq<nat>, calls: map<nat, Call>,
                                     c: Shared) returns (more: seq<LifeStep>)
    requires Resets(steps, phase, totals, calls, c)
    ensures Resets(more, phase, totals, calls, c.(cancelled := true, status := Cancelled))
  {
    OneMore(steps, Inner(CancelFlag));
    OneMore(steps + [Inner(CancelFlag)], Inner(CancelStatus));
    more := steps + [Inner(CancelFlag)] + [Inner(CancelStatus)];
  }

  /** It makes the call report. */
  lemma {:induction false} CancelAtRest(steps: seq<LifeStep>, totals: seq<nat>, seen: Call, completed: nat, failed: nat)
    returns (more: seq<LifeStep>)
    requires seen.GotFailed? && Rests(steps, totals, map[0 := seen], completed, failed)
    ensures RunLife(more).Some? && RunLife(more).value.totals == totals
    ensures RunLife(more).value.calls == map[0 :=
      Reported(seen.total, seen.completed, seen.failed,
               seen.total.value - seen.completed.value - seen.failed.value)]
  {
    var life := RunLife(steps).value;
    more := CancelNow(steps, life.phase, totals, map[0 := seen], life.sys.shared);
    OneMore(more, LoadFinalStatus(0));
    more := more + [LoadFinalStatus(0)];
  }

  /** A life in which the counts reach the most they can, and the report says so. */
  lemma {:induction false} MostIsReached(ns: seq<nat>, tb: nat, cb: nat, fb: nat) returns (steps: seq<LifeStep>)
    requires Sizes(ns) && tb <= cb <= fb < |ns|
    ensures ReportsIn(steps, ns, 0, tb, cb, fb)
    ensures RunLife(steps).value.calls[0].cancelled == ns[tb] - MostCounted(ns, cb, fb)
  {
    var k := |ns| - 1;
    steps := LivesUpTo(ns, k, tb, cb, fb);
    var c := CountsIn(ns[k], k, cb, fb);
    assert ns[..k + 1] == ns;
    steps := CancelAtRest(steps, ns, CallsBy(ns, k, tb, cb, fb)[0], c.completed, c.failed);
  }

  /** Exactly when the reported number of cancelled questions is never negative, that is, the unsigned subtraction
      in `get_stats` never wraps, for calls that make their loads in given epochs: when the sizes of the results in the
      epochs of the two counts come to no more than the total that was loaded. If the total and the first count were
      loaded in one epoch, that is exactly when the second one was too, or was loaded while the results were empty. */
  lemma {:induction false} ReportsFitIff(ns: seq<nat>, tb: nat, cb: nat, fb: nat)
    requires Sizes(ns) && tb <= cb <= fb < |ns|
    ensures (forall steps, r :: ReportsIn(steps, ns, r, tb, cb, fb) ==> RunLife(steps).value.calls[r].cancelled >= 0)
      <==> MostCounted(ns, cb, fb) <= ns[tb]
    ensures tb == cb ==> (MostCounted(ns, cb, fb) <= ns[tb] <==> cb == fb || fb % 2 == 1)
  {
    forall steps, r | ReportsIn(steps, ns, r, tb, cb, fb) && MostCounted(ns, cb, fb) <= ns[tb]
      ensures RunLife(steps).value.calls[r].cancelled >= 0
    {
      ReportsFit(steps, ns, r, tb, cb, fb);
    }
    var steps := MostIsReached(ns, tb, cb, fb);
    assert ReportsIn(steps, ns, 0, tb, cb, fb);
  }

  // ---------------------------------------------------------------- a `cancel` across the reset

  /** A trace that a `cancel` has left. */
  predicate CancelSeen(life: Life) {
    life.sys.shared.cancelling > 0 || life.sys.shared.status == Cancelled || life.setup.cancelling > 0
  }

  lemma CancelNotSeen(life: Life, step: LifeStep)
    requires Possible(life, step) && step != Inner(CancelFlag) && !CancelSeen(life)
    ensures !CancelSeen(After(life, step))
  {
  }

  /** Only `cancel` begins what `cancel` ends. */
  lemma {:induction false} CancelWasCalled(steps: seq<LifeStep>)
    requires RunLife(steps).Some? && CancelSeen(RunLife(steps).value)
    ensures Inner(CancelFlag) in steps
  {
    if steps != [] {
      var before, step := steps[..|steps| - 1], steps[|steps| - 1];
      assert steps == before + [step];
      if step != Inner(CancelFlag) {
        var life := RunLife(before).value;
        if !CancelSeen(life) {
          CancelNotSeen(life, step);
        }
        CancelWasCalled(before);
      }
    }
  }

  lemma {:induction false} CancelEnded(s: Setup, steps: seq<Step>)
    requires Run(s, steps).Some? && Run(s, steps).value.shared.cancelling < s.cancelling
    ensures CancelStatus in steps
  {
    if steps != [] {
      var before, step := steps[..|steps| - 1], steps[|steps| - 1];
      assert steps == before + [step];
      if step != CancelStatus {
        CancelEnded(s, before);
      }
    }
  }

  lemma {:induction false} StoresCancelled(steps: seq<LifeStep>, s: Setup, totals: seq<nat>, calls: map<nat, Call>,
                                           c: Shared, w: Worker) returns (more: seq<LifeStep>)
    requires c.cancelling > 0 && Works(steps, s, totals, calls, c, w)
    ensures Works(more, s, totals, calls, c.(status := Cancelled, cancelling := c.cancelling - 1), w)
  {
    OneMore(steps, Inner(CancelStatus));
    more := steps + [Inner(CancelStatus)];
  }

  /** A reset that a `cancel` whose flag it clears has not yet got over. */
  lemma {:induction false} ResetClearsFlag() returns (steps: seq<LifeStep>)
    ensures Resets(steps, Emptied, [0] + [0], map[], Shared(false, Running, 0, 0, 1))
  {
    OneMore([], Inner(CancelFlag));
    steps := [] + [Inner(CancelFlag)];
    steps := ResetFlag(steps, [0], map[], Shared(true, Running, 0, 0, 1));
    steps := ResetRest(steps, [0], map[], Shared(false, Running, 0, 0, 1));
  }

  lemma {:induction false} LostRun(n: nat) returns (steps: seq<LifeStep>)
    requires n >= 1
    ensures Ends(steps, OneThread(n, false, 1), [0] + [0] + [n], map[],
                 Shared(false, Completed, n, 0, 0), Returned(false))
  {
    var s, totals := OneThread(n, false, 1), [0] + [0];
    steps := ResetClearsFlag();
    steps := BeginBatch(steps, totals, map[], Shared(false, Running, 0, 0, 1), s);
    steps := StoresCancelled(steps, s, totals + [n], map[], Shared(false, Running, 0, 0, 1), Worker(0, Testing));
    steps := AskAll(steps, s, totals + [n], map[], Shared(false, Cancelled, 0, 0, 0), Answer("yes"));
    steps := EndBatch(steps, s, totals + [n], map[], Shared(false, Cancelled, n, 0, 0));
  }

  /** A `cancel` whose flag the reset clears: its other store comes in the batch, and yet every question is asked and
      the batch shows COMPLETED. */
  lemma {:induction false} CancelLostInReset(n: nat) returns (steps: seq<LifeStep>)
    requires n >= 1
    ensures RunLife(steps).Some? && RunLife(steps).value.phase == InBatch && RunLife(steps).value.setup.n == n
    ensures Inner(CancelFlag) in steps && CancelFlag !in BatchSteps(steps) && CancelStatus in BatchSteps(steps)
    ensures RunLife(steps).value.sys.main == Returned(false)
    ensures RunLife(steps).value.sys.shared == Shared(false, Completed, n, 0, 0)
  {
    steps := LostRun(n);
    var life := RunLife(steps).value;
    CancelWasCalled(steps);
    BatchInLife(steps);
    CancelEnded(life.setup, BatchSteps(steps));
    UnsetMeansNoCancel(life.setup, BatchSteps(steps));
  }

  /** A `cancel` between two stores of the reset: nothing is asked, and when `process` and `cancel` have both returned
      the batch still shows RUNNING. */
  lemma {:induction false} CancelLeavesRunning(n: nat) returns (steps: seq<LifeStep>)
    requires n >= 1
    ensures RunLife(steps).Some? && RunLife(steps).value.phase == InBatch && RunLife(steps).value.setup.n == n
    ensures RunLife(steps).value.sys.main == Returned(true)
    ensures RunLife(steps).value.sys.shared == Shared(true, Running, 0, 0, 0)
  {
    var s, c := OneThread(n, true, 0), Shared(true, Running, 0, 0, 0);
    steps := ResetFlag([], [0], map[], Counts(0, 0));
    steps := CancelNow(steps, FlagCleared, [0], map[], Counts(0, 0));
    steps := ResetRest(steps, [0], map[], Shared(true, Cancelled, 0, 0, 0));
    steps := BeginBatch(steps, [0] + [0], map[], c, s);
    steps := EndCancelled(steps, s, [0] + [0] + [n], map[], c);
  }

  lemma {:induction false} EndCancelled(steps: seq<LifeStep>, s: Setup, totals: seq<nat>, calls: map<nat, Call>,
                                        c: Shared) returns (more: seq<LifeStep>)
    requires c.cancelled && Works(steps, s, totals, calls, c, Worker(0, Testing))
    ensures Ends(more, s, totals, calls, c, Returned(true))
  {
    var move := Inner(Move(0, Answer("")));
    WorkerMoves(steps, s, totals, calls, c, Worker(0, Testing), Answer(""));
    OneMore(steps + [move], Inner(LoadFlag));
    more := steps + [move] + [Inner(LoadFlag)];
  }
}
