/**
 A batch run as a transition system: worker threads over disjoint ranges, any number of concurrent
 `cancel` and `get_stats` calls, and the main thread that joins the workers and stores the final status.
 A step is one atomic load or store, one locked write of a result slot, or one call of the ask function;
 steps interleave in any order.
 */
module Batch {
  import opened FiniteSets
  import opened Options
  import opened WorkSplit

  /** What the ask function did for one question. */
  datatype Result = Answer(text: string) | Failure(error: string)

  datatype Status = Running | Completed | Failed | Cancelled

  /**
   One run: the number of questions, their division among the threads, the configuration, and what calls
   of `cancel` that overlap the reset at the start have left behind: the flag may already be set again,
   and some calls may still have to store the status.
   */
  datatype Setup = Setup(n: nat, ranges: seq<Range>, stopOnError: bool, flagAtStart: bool, cancelling: nat)

  /** How far one question has come; kept beside the program's own state to follow each question. */
  datatype Stage = Untouched | Asked(result: Result) | Stored(result: Result) | Counted(result: Result)

  /** The points of the worker loop. `Broken` is the end reached by stopping on an error. */
  datatype Point =
    | Testing | Rechecking | Asking | Answered(result: Result) | Written(result: Result)
    | RaisingFlag | RaisingStatus | Advancing | Done | Broken

  datatype Worker = Worker(next: nat, point: Point)

  datatype Main = Joining | Loaded(cancelled: bool) | Returned(cancelled: bool)

  /** A `get_stats` call after its first, second and third load. */
  datatype Reader = SawCompleted(completed: nat) | SawBoth(completed: nat, failed: nat)
    | Report(completed: nat, failed: nat, cancelled: int)

  datatype Shared = Shared(cancelled: bool, status: Status, completed: nat, failed: nat, cancelling: nat)

  datatype System = System(shared: Shared, slots: seq<Option<Result>>, stages: seq<Stage>,
                           workers: seq<Worker>, main: Main, readers: map<nat, Reader>)

  datatype Step =
    | Move(worker: nat, result: Result)   // the next action of a worker; `result` is used when it asks
    | CancelFlag | CancelStatus           // the two stores of `cancel`
    | LoadFlag | StoreStatus              // the end of `process`, after all workers have been joined
    | LoadCompleted(reader: nat) | LoadFailed(reader: nat) | LoadStatus(reader: nat)

  predicate ValidSetup(s: Setup) {
    s.n >= 1 && Contiguous(s.ranges, 0, s.n)
  }

  function Start(s: Setup): System {
    System(Shared(s.flagAtStart, Running, 0, 0, s.cancelling),
           seq(s.n, _ => None), seq(s.n, _ => Untouched),
           seq(|s.ranges|, k requires 0 <= k < |s.ranges| => Worker(s.ranges[k].lo, Testing)),
           Joining, map[])
  }

  predicate Over(w: Worker) {
    w.point == Done || w.point == Broken
  }

  predicate AllOver(workers: seq<Worker>) {
    forall k :: 0 <= k < |workers| ==> Over(workers[k])
  }

  predicate Enabled(s: Setup, sys: System, step: Step) {
    match step
    case Move(k, _) => k < |sys.workers| && k < |s.ranges| && !Over(sys.workers[k])
    case CancelFlag => true
    case CancelStatus => sys.shared.cancelling > 0
    case LoadFlag => sys.main == Joining && AllOver(sys.workers)
    case StoreStatus => sys.main == Loaded(false)
    case LoadCompleted(r) => r !in sys.readers
    case LoadFailed(r) => r in sys.readers && sys.readers[r].SawCompleted?
    case LoadStatus(r) => r in sys.readers && sys.readers[r].SawBoth?
  }

  // ---------------------------------------------------------------- one worker

  function Moved(s: Setup, hi: nat, c: Shared, w: Worker, result: Result): Worker {
    match w.point
    case Testing => w.(point := if w.next < hi && !c.cancelled then Rechecking else Done)
    case Rechecking => w.(point := if c.cancelled then Done else Asking)
    case Asking => w.(point := Answered(result))
    case Answered(x) => w.(point := Written(x))
    case Written(x) => w.(point := if x.Failure? && s.stopOnError then RaisingFlag else Advancing)
    case RaisingFlag => w.(point := RaisingStatus)
    case RaisingStatus => w.(point := Broken)
    case Advancing => Worker(w.next + 1, Testing)
    case Done => w
    case Broken => w
  }

  function SharedAfter(c: Shared, w: Worker): Shared {
    match w.point
    case Written(Answer(_)) => c.(completed := c.completed + 1)
    case Written(Failure(_)) => c.(failed := c.failed + 1)
    case RaisingFlag => c.(cancelled := true)
    case RaisingStatus => c.(status := Failed)
    case _ => c
  }

  function StageAfter(w: Worker, result: Result, was: Stage): Stage {
    match w.point
    case Asking => Asked(result)
    case Answered(x) => Stored(x)
    case Written(x) => Counted(x)
    case _ => was
  }

  function SlotAfter(w: Worker, was: Option<Result>): Option<Result> {
    if w.point.Answered? then Some(w.point.result) else was
  }

  // ---------------------------------------------------------------- the whole run

  function MoveWorker(s: Setup, sys: System, k: nat, result: Result): System
    requires k < |sys.workers| && k < |s.ranges|
  {
    var w, i := sys.workers[k], sys.workers[k].next;
    sys.(shared := SharedAfter(sys.shared, w),
         workers := sys.workers[k := Moved(s, s.ranges[k].hi, sys.shared, w, result)],
         stages := if i < |sys.stages| then sys.stages[i := StageAfter(w, result, sys.stages[i])] else sys.stages,
         slots := if i < |sys.slots| then sys.slots[i := SlotAfter(w, sys.slots[i])] else sys.slots)
  }

  function CancelledCount(s: Setup, c: Shared, r: Reader): int
    requires r.SawBoth?
  {
    if c.status == Cancelled then s.n - r.completed - r.failed else 0
  }

  function Next(s: Setup, sys: System, step: Step): System
    requires Enabled(s, sys, step)
  {
    var c := sys.shared;
    match step
    case Move(k, result) => MoveWorker(s, sys, k, result)
    case CancelFlag => sys.(shared := c.(cancelled := true, cancelling := c.cancelling + 1))
    case CancelStatus => sys.(shared := c.(status := Cancelled, cancelling := c.cancelling - 1))
    case LoadFlag => sys.(main := if c.cancelled then Returned(true) else Loaded(false))
    case StoreStatus => sys.(shared := c.(status := Completed), main := Returned(false))
    case LoadCompleted(r) => sys.(readers := sys.readers[r := SawCompleted(c.completed)])
    case LoadFailed(r) => sys.(readers := sys.readers[r := SawBoth(sys.readers[r].completed, c.failed)])
    case LoadStatus(r) =>
      var seen := sys.readers[r];
      sys.(readers := sys.readers[r := Report(seen.completed, seen.failed, CancelledCount(s, c, seen))])
  }

  /** The state after a sequence of steps, if each was possible when it was its turn. */
  function Run(s: Setup, steps: seq<Step>): Option<System> {
    if steps == [] then Some(Start(s))
    else
      match Run(s, steps[..|steps| - 1])
      case None => None
      case Some(sys) =>
        if Enabled(s, sys, steps[|steps| - 1]) then Some(Next(s, sys, steps[|steps| - 1])) else None
  }

  // ---------------------------------------------------------------- workers and questions

  /** The stage that a question must be at, given the worker whose range it is in. */
  predicate Agrees(w: Worker, i: nat, stage: Stage) {
    if i < w.next then stage.Counted?
    else if i > w.next then stage == Untouched
    else
      match w.point
      case Answered(x) => stage == Asked(x)
      case Written(x) => stage == Stored(x)
      case RaisingFlag => CountedAs(stage, false)
      case RaisingStatus => CountedAs(stage, false)
      case Broken => CountedAs(stage, false)
      case Advancing => stage.Counted?
      case _ => stage == Untouched
  }

  predicate CountedAs(stage: Stage, success: bool) {
    stage.Counted? && stage.result.Answer? == success
  }

  ghost predicate WorkerOk(s: Setup, cancelled: bool, w: Worker, r: Range, stages: seq<Stage>) {
    && r.lo <= w.next <= r.hi
    && (w.point != Testing && w.point != Done ==> w.next < r.hi)
    && (w.point == Done && w.next < r.hi ==> cancelled)
    && (w.point == RaisingFlag || w.point == RaisingStatus || w.point == Broken ==> s.stopOnError)
    && (w.point == RaisingStatus || w.point == Broken ==> cancelled)
    && forall i :: r.lo <= i < r.hi && i < |stages| ==> Agrees(w, i, stages[i])
  }

  ghost predicate WorkersOk(s: Setup, cancelled: bool, workers: seq<Worker>, stages: seq<Stage>) {
    && |workers| == |s.ranges|
    && forall k :: 0 <= k < |workers| ==> WorkerOk(s, cancelled, workers[k], s.ranges[k], stages)
  }

  lemma OtherUntouched(s: Setup, cancelled: bool, w: Worker, j: nat, k: nat, stages: seq<Stage>, i: nat, stage: Stage)
    requires ValidSetup(s) && |stages| == s.n && j < |s.ranges| && k < |s.ranges| && j != k
    requires i < |stages| && Inside(s.ranges[k], i)
    requires WorkerOk(s, cancelled, w, s.ranges[j], stages)
    ensures WorkerOk(s, cancelled, w, s.ranges[j], stages[i := stage])
  {
    if Inside(s.ranges[j], i) {
      Disjoint(s.ranges, 0, s.n, j, k, i);
    }
  }

  lemma FlagRaised(s: Setup, cancelled: bool, now: bool, workers: seq<Worker>, stages: seq<Stage>)
    requires WorkersOk(s, cancelled, workers, stages) && (cancelled ==> now)
    ensures WorkersOk(s, now, workers, stages)
  {
    forall k | 0 <= k < |workers|
      ensures WorkerOk(s, now, workers[k], s.ranges[k], stages)
    {
      assert WorkerOk(s, cancelled, workers[k], s.ranges[k], stages);
    }
  }

  lemma MovedOk(s: Setup, c: Shared, w: Worker, r: Range, stages: seq<Stage>, result: Result)
    requires WorkerOk(s, c.cancelled, w, r, stages) && !Over(w) && r.lo < r.hi <= |stages|
    ensures var now := if w.next < r.hi then stages[w.next := StageAfter(w, result, stages[w.next])] else stages;
      WorkerOk(s, SharedAfter(c, w).cancelled, Moved(s, r.hi, c, w, result), r, now)
  {
  }

  /** A worker's action keeps every worker in agreement with the questions of its own range. */
  lemma MoveKeepsWorkers(s: Setup, sys: System, k: nat, result: Result)
    requires ValidSetup(s) && |sys.stages| == s.n
    requires WorkersOk(s, sys.shared.cancelled, sys.workers, sys.stages)
    requires k < |sys.workers| && !Over(sys.workers[k])
    ensures var after := MoveWorker(s, sys, k, result);
      WorkersOk(s, after.shared.cancelled, after.workers, after.stages)
  {
    var after := MoveWorker(s, sys, k, result);
    var w, c := sys.workers[k], sys.shared;
    Within(s.ranges, 0, s.n, k);
    MovedOk(s, c, w, s.ranges[k], sys.stages, result);
    if w.next == s.ranges[k].hi {
      assert w.point == Testing;
      if w.next < |sys.stages| {
        assert after.stages == sys.stages;
      }
    }
    FlagRaised(s, c.cancelled, after.shared.cancelled, sys.workers, sys.stages);
    forall j | 0 <= j < |after.workers|
      ensures WorkerOk(s, after.shared.cancelled, after.workers[j], s.ranges[j], after.stages)
    {
      if j != k && w.next < s.ranges[k].hi {
        OtherUntouched(s, after.shared.cancelled, sys.workers[j], j, k, sys.stages, w.next, after.stages[w.next]);
      }
    }
  }

  // ---------------------------------------------------------------- slots and counters

  predicate SlotsOk(slots: seq<Option<Result>>, stages: seq<Stage>) {
    && |slots| == |stages|
    && forall i :: 0 <= i < |slots| ==> slots[i] == SlotOf(stages[i])
  }

  function SlotOf(stage: Stage): Option<Result> {
    if stage.Stored? || stage.Counted? then Some(stage.result) else None
  }

  /** The questions counted as answered, or as failed. */
  function Tally(stages: seq<Stage>, success: bool): set<nat> {
    set i: nat | i < |stages| && CountedAs(stages[i], success)
  }

  predicate CountsOk(c: Shared, stages: seq<Stage>) {
    c.completed == |Tally(stages, true)| && c.failed == |Tally(stages, false)|
  }

  lemma StageSet(stages: seq<Stage>, i: nat, stage: Stage, success: bool)
    requires i < |stages|
    ensures |Tally(stages[i := stage], success)| + One(CountedAs(stages[i], success))
      == |Tally(stages, success)| + One(CountedAs(stage, success))
  {
    OneElement(Tally(stages, success), Tally(stages[i := stage], success), i);
  }

  lemma TallyBound(stages: seq<Stage>)
    ensures |Tally(stages, true)| + |Tally(stages, false)| <= |stages|
    ensures (forall i :: 0 <= i < |stages| ==> stages[i].Counted?) ==>
      |Tally(stages, true)| + |Tally(stages, false)| == |stages|
  {
    var both := Tally(stages, true) + Tally(stages, false);
    Subset(both, UpTo(|stages|));
    if forall i :: 0 <= i < |stages| ==> stages[i].Counted? {
      assert UpTo(|stages|) <= both;
      Subset(UpTo(|stages|), both);
    }
  }

  lemma MoveKeepsBoard(s: Setup, sys: System, k: nat, result: Result)
    requires ValidSetup(s) && |sys.stages| == s.n
    requires WorkersOk(s, sys.shared.cancelled, sys.workers, sys.stages)
    requires SlotsOk(sys.slots, sys.stages) && CountsOk(sys.shared, sys.stages)
    requires k < |sys.workers| && !Over(sys.workers[k])
    ensures var after := MoveWorker(s, sys, k, result);
      SlotsOk(after.slots, after.stages) && CountsOk(after.shared, after.stages)
  {
    var after := MoveWorker(s, sys, k, result);
    var w := sys.workers[k];
    Within(s.ranges, 0, s.n, k);
    assert WorkerOk(s, sys.shared.cancelled, w, s.ranges[k], sys.stages);
    if w.next < |sys.stages| {
      var was := sys.stages[w.next];
      assert w.next < s.ranges[k].hi ==> Agrees(w, w.next, was);
      StageSet(sys.stages, w.next, StageAfter(w, result, was), true);
      StageSet(sys.stages, w.next, StageAfter(w, result, was), false);
    }
  }

  // ---------------------------------------------------------------- main thread, status and readers

  ghost predicate MainOk(s: Setup, sys: System) {
    && (sys.main != Joining ==> AllOver(sys.workers))
    && (sys.main != Joining && !sys.main.cancelled ==> AllFinished(s, sys.workers))
    && (sys.main != Joining && sys.main.cancelled ==> sys.shared.cancelled)
    && (sys.shared.status == Completed ==> sys.main == Returned(false))
    && (sys.shared.status == Failed ==> s.stopOnError && sys.shared.failed > 0)
    && (sys.main == Returned(false) ==> sys.shared.status == Completed || sys.shared.status == Cancelled)
  }

  /** Every worker has gone through its whole range. */
  predicate AllFinished(s: Setup, workers: seq<Worker>) {
    |workers| == |s.ranges| && forall k :: 0 <= k < |workers| ==> workers[k] == Worker(s.ranges[k].hi, Done)
  }

  /** What a reader has seen still fits the counters, which only grow. */
  predicate ReaderOk(n: nat, c: Shared, r: Reader) {
    match r
    case SawCompleted(x) => x <= c.completed
    case SawBoth(x, y) => x + y <= n
    case Report(x, y, cancelled) => x + y <= n && 0 <= cancelled <= n - x - y
  }

  ghost predicate ReadersOk(n: nat, c: Shared, readers: map<nat, Reader>) {
    forall r :: r in readers ==> ReaderOk(n, c, readers[r])
  }

  ghost predicate Safe(s: Setup, sys: System) {
    && |sys.stages| == s.n
    && WorkersOk(s, sys.shared.cancelled, sys.workers, sys.stages)
    && SlotsOk(sys.slots, sys.stages) && CountsOk(sys.shared, sys.stages)
    && MainOk(s, sys)
    && ReadersOk(s.n, sys.shared, sys.readers)
  }

  lemma StartSafe(s: Setup)
    requires ValidSetup(s)
    ensures Safe(s, Start(s))
  {
    var sys := Start(s);
    assert Tally(sys.stages, true) == {} && Tally(sys.stages, false) == {};
    forall k | 0 <= k < |sys.workers|
      ensures WorkerOk(s, s.flagAtStart, sys.workers[k], s.ranges[k], sys.stages)
    {
      Within(s.ranges, 0, s.n, k);
    }
  }

  lemma MoveKeepsMain(s: Setup, sys: System, k: nat, result: Result)
    requires ValidSetup(s) && Safe(s, sys) && k < |sys.workers| && !Over(sys.workers[k])
    ensures MainOk(s, MoveWorker(s, sys, k, result))
    ensures ReadersOk(s.n, MoveWorker(s, sys, k, result).shared, sys.readers)
  {
    var w, c := sys.workers[k], sys.shared;
    Within(s.ranges, 0, s.n, k);
    assert WorkerOk(s, c.cancelled, w, s.ranges[k], sys.stages);
    if w.point == RaisingStatus {
      assert w.next in Tally(sys.stages, false);
    }
    forall r | r in sys.readers
      ensures ReaderOk(s.n, SharedAfter(c, w), sys.readers[r])
    {
      assert ReaderOk(s.n, c, sys.readers[r]);
    }
  }

  lemma LoadFlagSafe(s: Setup, sys: System)
    requires ValidSetup(s) && Safe(s, sys) && sys.main == Joining && AllOver(sys.workers)
    ensures Safe(s, Next(s, sys, LoadFlag))
  {
    if !sys.shared.cancelled {
      forall k | 0 <= k < |sys.workers|
        ensures sys.workers[k] == Worker(s.ranges[k].hi, Done)
      {
        assert WorkerOk(s, false, sys.workers[k], s.ranges[k], sys.stages);
      }
    }
  }

  lemma StepSafe(s: Setup, sys: System, step: Step)
    requires ValidSetup(s) && Safe(s, sys) && Enabled(s, sys, step)
    ensures Safe(s, Next(s, sys, step))
  {
    match step
    case Move(k, result) =>
      MoveKeepsWorkers(s, sys, k, result);
      MoveKeepsBoard(s, sys, k, result);
      MoveKeepsMain(s, sys, k, result);
    case CancelFlag => FlagRaised(s, sys.shared.cancelled, true, sys.workers, sys.stages);
    case LoadFlag => LoadFlagSafe(s, sys);
    case LoadFailed(r) =>
      assert ReaderOk(s.n, sys.shared, sys.readers[r]);
      TallyBound(sys.stages);
    case LoadStatus(r) => assert ReaderOk(s.n, sys.shared, sys.readers[r]);
    case _ =>
  }

  lemma {:induction false} AlwaysSafe(s: Setup, steps: seq<Step>)
    requires ValidSetup(s) && Run(s, steps).Some?
    ensures Safe(s, Run(s, steps).value)
  {
    if steps == [] {
      StartSafe(s);
    } else {
      var before := steps[..|steps| - 1];
      AlwaysSafe(s, before);
      StepSafe(s, Run(s, before).value, steps[|steps| - 1]);
    }
  }

  // ---------------------------------------------------------------- what a batch promises

  /** Whether this step calls the ask function for question `i`. */
  predicate Asks(sys: System, step: Step, i: nat) {
    step.Move? && step.worker < |sys.workers| && sys.workers[step.worker] == Worker(i, Asking)
  }

  /** How often a run calls the ask function for question `i`. */
  function Attempts(s: Setup, steps: seq<Step>, i: nat): nat
    requires Run(s, steps).Some?
  {
    if steps == [] then 0
    else
      var before := steps[..|steps| - 1];
      Attempts(s, before, i) + One(Asks(Run(s, before).value, steps[|steps| - 1], i))
  }

  lemma MoveFollowsQuestion(s: Setup, sys: System, k: nat, result: Result, i: nat)
    requires ValidSetup(s) && Safe(s, sys) && i < s.n && k < |sys.workers| && !Over(sys.workers[k])
    ensures var after := MoveWorker(s, sys, k, result).stages[i];
      One(after != Untouched) == One(sys.stages[i] != Untouched) + One(Asks(sys, Move(k, result), i))
  {
    Within(s.ranges, 0, s.n, k);
    assert WorkerOk(s, sys.shared.cancelled, sys.workers[k], s.ranges[k], sys.stages);
    if i == sys.workers[k].next && i < s.ranges[k].hi {
      assert Agrees(sys.workers[k], i, sys.stages[i]);
    }
  }

  /** Under every interleaving, with or without cancellation, each question is attempted at most once. */
  lemma {:induction false} AttemptedAtMostOnce(s: Setup, steps: seq<Step>, i: nat)
    requires ValidSetup(s) && Run(s, steps).Some? && i < s.n
    ensures |Run(s, steps).value.stages| == s.n
    ensures Attempts(s, steps, i) == One(Run(s, steps).value.stages[i] != Untouched)
  {
    AlwaysSafe(s, steps);
    if steps != [] {
      var before, step := steps[..|steps| - 1], steps[|steps| - 1];
      AlwaysSafe(s, before);
      AttemptedAtMostOnce(s, before, i);
      if step.Move? {
        MoveFollowsQuestion(s, Run(s, before).value, step.worker, step.result, i);
      }
    }
  }

  /** The counters never exceed the number of questions, nor does a `get_stats` that reads them at
      different moments, so its count of cancelled questions never goes below zero. */
  lemma {:induction false} CountersStayInBounds(s: Setup, steps: seq<Step>)
    requires ValidSetup(s) && Run(s, steps).Some?
    ensures var sys := Run(s, steps).value;
      && sys.shared.completed + sys.shared.failed <= s.n
      && forall r :: r in sys.readers && sys.readers[r].Report? ==>
        var x := sys.readers[r];
        x.completed + x.failed <= s.n && 0 <= x.cancelled <= s.n - x.completed - x.failed
  {
    AlwaysSafe(s, steps);
    var sys := Run(s, steps).value;
    TallyBound(sys.stages);
    forall r | r in sys.readers
      ensures ReaderOk(s.n, sys.shared, sys.readers[r])
    {
    }
  }

  /** A filled slot holds what the ask function returned for that very question, and a counted question has
      its slot filled. */
  lemma {:induction false} SlotsAreOwn(s: Setup, steps: seq<Step>, i: nat)
    requires ValidSetup(s) && Run(s, steps).Some? && i < s.n
    ensures var sys := Run(s, steps).value;
      && |sys.slots| == |sys.stages| == s.n
      && (sys.slots[i].Some? ==> ReturnedFor(s, steps, i, sys.slots[i].value))
      && (sys.stages[i].Counted? ==> sys.slots[i].Some?)
  {
    AlwaysSafe(s, steps);
    StageIsReturned(s, steps, i);
  }

  /** Some step of the run called the ask function for question `i` and got `result`. */
  ghost predicate ReturnedFor(s: Setup, steps: seq<Step>, i: nat, result: Result)
    decreases |steps|
  {
    steps != [] && Run(s, steps[..|steps| - 1]).Some? &&
    var step := steps[|steps| - 1];
    || (Asks(Run(s, steps[..|steps| - 1]).value, step, i) && step.result == result)
    || ReturnedFor(s, steps[..|steps| - 1], i, result)
  }

  lemma MoveStages(s: Setup, sys: System, k: nat, result: Result, i: nat)
    requires ValidSetup(s) && Safe(s, sys) && i < s.n && k < |sys.workers| && !Over(sys.workers[k])
    ensures var before, after := sys.stages[i], MoveWorker(s, sys, k, result).stages[i];
      if Asks(sys, Move(k, result), i) then after == Asked(result)
      else after == before || (before != Untouched && after != Untouched && after.result == before.result)
  {
    Within(s.ranges, 0, s.n, k);
    assert WorkerOk(s, sys.shared.cancelled, sys.workers[k], s.ranges[k], sys.stages);
    if i == sys.workers[k].next && i < s.ranges[k].hi {
      assert Agrees(sys.workers[k], i, sys.stages[i]);
    }
  }

  lemma {:induction false} StageIsReturned(s: Setup, steps: seq<Step>, i: nat)
    requires ValidSetup(s) && Run(s, steps).Some? && i < s.n
    ensures |Run(s, steps).value.stages| == s.n
    ensures var stage := Run(s, steps).value.stages[i];
      stage != Untouched ==> ReturnedFor(s, steps, i, stage.result)
  {
    AlwaysSafe(s, steps);
    if steps != [] {
      var before, step := steps[..|steps| - 1], steps[|steps| - 1];
      AlwaysSafe(s, before);
      StageIsReturned(s, before, i);
      if step.Move? {
        MoveStages(s, Run(s, before).value, step.worker, step.result, i);
      } else {
        assert Run(s, steps).value.stages == Run(s, before).value.stages;
      }
    }
  }

  /** When the main thread finds the flag unset after joining, every question has been attempted exactly
      once, its own result is in its slot, and the counters add up to the number of questions. This also
      holds if the flag is raised afterwards. */
  lemma {:induction false} UncancelledRunsEverything(s: Setup, steps: seq<Step>)
    requires ValidSetup(s) && Run(s, steps).Some?
    requires Run(s, steps).value.main != Joining && !Run(s, steps).value.main.cancelled
    ensures var sys := Run(s, steps).value;
      && |sys.slots| == s.n
      && sys.shared.completed + sys.shared.failed == s.n
      && forall i :: 0 <= i < s.n ==>
        Attempts(s, steps, i) == 1 && sys.slots[i].Some? && ReturnedFor(s, steps, i, sys.slots[i].value)
  {
    AlwaysSafe(s, steps);
    var sys := Run(s, steps).value;
    forall i: nat | i < s.n
      ensures sys.stages[i].Counted? && Attempts(s, steps, i) == 1 && sys.slots[i].Some?
      ensures ReturnedFor(s, steps, i, sys.slots[i].value)
    {
      var k := Covered(s.ranges, 0, s.n, i);
      assert WorkerOk(s, sys.shared.cancelled, sys.workers[k], s.ranges[k], sys.stages);
      assert Agrees(sys.workers[k], i, sys.stages[i]);
      AttemptedAtMostOnce(s, steps, i);
      SlotsAreOwn(s, steps, i);
    }
    TallyBound(sys.stages);
  }

  /** A worker is about to raise the flag only because a failure is to stop the batch, and has been counted. */
  lemma RaisingMeansFailed(s: Setup, sys: System, k: nat)
    requires ValidSetup(s) && Safe(s, sys) && k < |sys.workers| && sys.workers[k].point == RaisingFlag
    ensures s.stopOnError && sys.shared.failed > 0
  {
    var w := sys.workers[k];
    Within(s.ranges, 0, s.n, k);
    assert WorkerOk(s, sys.shared.cancelled, w, s.ranges[k], sys.stages);
    assert Agrees(w, w.next, sys.stages[w.next]);
    assert w.next in Tally(sys.stages, false);
  }

  /** Nothing raises the flag but a `cancel`, and a failure in a batch that is to stop on one. */
  lemma {:induction false} FlagHasCause(s: Setup, steps: seq<Step>)
    requires ValidSetup(s) && Run(s, steps).Some? && Run(s, steps).value.shared.cancelled
    ensures s.flagAtStart || CancelFlag in steps || (s.stopOnError && Run(s, steps).value.shared.failed > 0)
  {
    if steps != [] {
      var before, step := steps[..|steps| - 1], steps[|steps| - 1];
      var sys := Run(s, before).value;
      AlwaysSafe(s, before);
      assert steps == before + [step];
      if sys.shared.cancelled {
        FlagHasCause(s, before);
      } else if step.Move? {
        RaisingMeansFailed(s, sys, step.worker);
      }
    }
  }

  /** A batch that nobody cancels, and that no failure is to stop, runs to its end: every question is asked exactly
      once, its own result is in its slot, and the counters add up. */
  lemma {:induction false} UnstoppedRunsEverything(s: Setup, steps: seq<Step>)
    requires ValidSetup(s) && Run(s, steps).Some? && Run(s, steps).value.main != Joining
    requires !s.flagAtStart && CancelFlag !in steps
    requires !s.stopOnError || Run(s, steps).value.shared.failed == 0
    ensures var sys := Run(s, steps).value;
      && !sys.main.cancelled
      && |sys.slots| == s.n
      && sys.shared.completed + sys.shared.failed == s.n
      && forall i :: 0 <= i < s.n ==>
        Attempts(s, steps, i) == 1 && sys.slots[i].Some? && ReturnedFor(s, steps, i, sys.slots[i].value)
  {
    AlwaysSafe(s, steps);
    if Run(s, steps).value.shared.cancelled {
      FlagHasCause(s, steps);
    }
    UncancelledRunsEverything(s, steps);
  }

  // ---------------------------------------------------------------- stopping on an error

  /** A worker that has met the failure that stops the batch. */
  predicate Stops(w: Worker) {
    w.point == RaisingFlag || w.point == RaisingStatus || w.point == Broken
  }

  /** A counted failure is held by the worker that met it, which goes on to raise the flag and store the status. */
  ghost predicate FailureHeld(s: Setup, sys: System) {
    s.stopOnError && sys.shared.failed > 0 ==> SomeoneStops(sys.workers)
  }

  ghost predicate SomeoneStops(workers: seq<Worker>) {
    exists k :: 0 <= k < |workers| && Stops(workers[k])
  }

  lemma StepKeepsFailureHeld(s: Setup, sys: System, step: Step)
    requires FailureHeld(s, sys) && Enabled(s, sys, step)
    ensures FailureHeld(s, Next(s, sys, step))
  {
    var after := Next(s, sys, step);
    if step.Move? && after.shared.failed > 0 && s.stopOnError {
      if SomeoneStops(sys.workers) {
        var k :| 0 <= k < |sys.workers| && Stops(sys.workers[k]);
        assert Stops(after.workers[k]);
      } else {
        assert Stops(after.workers[step.worker]);
      }
    }
  }

  lemma {:induction false} AlwaysFailureHeld(s: Setup, steps: seq<Step>)
    requires Run(s, steps).Some?
    ensures FailureHeld(s, Run(s, steps).value)
  {
    if steps != [] {
      var before := steps[..|steps| - 1];
      AlwaysFailureHeld(s, before);
      StepKeepsFailureHeld(s, Run(s, before).value, steps[|steps| - 1]);
    }
  }

  /** Once all workers are over, the one that met the failure has raised the flag. */
  lemma StoppedFlagIsSet(s: Setup, sys: System)
    requires ValidSetup(s) && Safe(s, sys) && FailureHeld(s, sys) && AllOver(sys.workers)
    requires s.stopOnError && sys.shared.failed > 0
    ensures sys.shared.cancelled && exists k :: 0 <= k < |sys.workers| && sys.workers[k].point == Broken
  {
    var k :| 0 <= k < |sys.workers| && Stops(sys.workers[k]);
    assert Over(sys.workers[k]);
    assert WorkerOk(s, sys.shared.cancelled, sys.workers[k], s.ranges[k], sys.stages);
    assert sys.workers[k].point == Broken;
  }

  /** A worker stops for good only after it has stored FAILED, which only a `cancel` or the end of the batch
      overwrites. */
  ghost predicate StopShows(sys: System, steps: seq<Step>) {
    (exists k :: 0 <= k < |sys.workers| && sys.workers[k].point == Broken) ==>
      sys.shared.status == Failed || CancelStatus in steps || sys.main == Returned(false)
  }

  lemma {:induction false} AlwaysStopShows(s: Setup, steps: seq<Step>)
    requires Run(s, steps).Some?
    ensures StopShows(Run(s, steps).value, steps)
  {
    if steps != [] {
      var before, step := steps[..|steps| - 1], steps[|steps| - 1];
      AlwaysStopShows(s, before);
      assert steps == before + [step];
    }
  }

  /** A failure in a batch that stops on errors does stop it: once the workers are joined the flag is set, the main
      thread has seen it set, and the status is FAILED unless a `cancel` stored another. */
  lemma {:induction false} FailureStops(s: Setup, steps: seq<Step>)
    requires ValidSetup(s) && Run(s, steps).Some? && s.stopOnError
    requires Run(s, steps).value.main != Joining && Run(s, steps).value.shared.failed > 0
    ensures var sys := Run(s, steps).value;
      && sys.shared.cancelled && sys.main == Returned(true)
      && (sys.shared.status == Failed || CancelStatus in steps)
      && sys.shared.status != Completed
  {
    var before, step := steps[..|steps| - 1], steps[|steps| - 1];
    AlwaysSafe(s, steps);
    AlwaysFailureHeld(s, steps);
    AlwaysStopShows(s, steps);
    StoppedFlagIsSet(s, Run(s, steps).value);
    if step == LoadFlag {
      assert Run(s, before).value.shared == Run(s, steps).value.shared;
    } else {
      JoinedFreezes(s, before, step);
      FailureStops(s, before);
    }
  }

  /** After the workers have been joined they do nothing more. */
  lemma {:induction false} JoinedFreezes(s: Setup, before: seq<Step>, step: Step)
    requires ValidSetup(s) && Run(s, before).Some? && Enabled(s, Run(s, before).value, step) && step != LoadFlag
    requires Next(s, Run(s, before).value, step).main != Joining
    ensures var sys, after := Run(s, before).value, Next(s, Run(s, before).value, step);
      sys.main != Joining && after.shared.failed == sys.shared.failed && (sys.main.Returned? ==> after.main == sys.main)
  {
    AlwaysSafe(s, before);
  }

  /** What a worker has passed by was answered. */
  predicate PassedAnswered(w: Worker, i: nat, stage: Stage) {
    i < w.next || (i == w.next && w.point == Advancing) ==> CountedAs(stage, true)
  }

  ghost predicate AllAnsweredBefore(s: Setup, workers: seq<Worker>, stages: seq<Stage>) {
    |workers| == |s.ranges| &&
    forall k, i :: 0 <= k < |workers| && s.ranges[k].lo <= i < s.ranges[k].hi && i < |stages| ==>
      PassedAnswered(workers[k], i, stages[i])
  }

  lemma MoveKeepsAnswered(s: Setup, sys: System, k: nat, result: Result)
    requires ValidSetup(s) && Safe(s, sys) && s.stopOnError && AllAnsweredBefore(s, sys.workers, sys.stages)
    requires k < |sys.workers| && !Over(sys.workers[k])
    ensures AllAnsweredBefore(s, MoveWorker(s, sys, k, result).workers, MoveWorker(s, sys, k, result).stages)
  {
    var after, w := MoveWorker(s, sys, k, result), sys.workers[k];
    Within(s.ranges, 0, s.n, k);
    assert WorkerOk(s, sys.shared.cancelled, w, s.ranges[k], sys.stages);
    forall j, i | 0 <= j < |after.workers| && s.ranges[j].lo <= i < s.ranges[j].hi && i < |after.stages|
      ensures PassedAnswered(after.workers[j], i, after.stages[i])
    {
      assert PassedAnswered(sys.workers[j], i, sys.stages[i]);
      if i == w.next && w.next < s.ranges[k].hi {
        assert Agrees(w, i, sys.stages[i]);
        Disjoint(s.ranges, 0, s.n, j, k, i);
      }
    }
  }

  lemma {:induction false} AlwaysAnsweredBefore(s: Setup, steps: seq<Step>)
    requires ValidSetup(s) && Run(s, steps).Some? && s.stopOnError
    ensures AllAnsweredBefore(s, Run(s, steps).value.workers, Run(s, steps).value.stages)
  {
    AlwaysSafe(s, steps);
    if steps != [] {
      var before, step := steps[..|steps| - 1], steps[|steps| - 1];
      AlwaysSafe(s, before);
      AlwaysAnsweredBefore(s, before);
      if step.Move? {
        MoveKeepsAnswered(s, Run(s, before).value, step.worker, step.result);
      }
    }
  }

  /** In a batch that stops on errors, no question behind a failed one is asked by the same thread. */
  lemma {:induction false} NothingAskedBehindFailure(s: Setup, steps: seq<Step>, k: nat, i: nat, j: nat)
    requires ValidSetup(s) && Run(s, steps).Some? && s.stopOnError
    requires k < |s.ranges| && Inside(s.ranges[k], i) && Inside(s.ranges[k], j) && i < j
    requires i < |Run(s, steps).value.stages| && CountedAs(Run(s, steps).value.stages[i], false)
    ensures j < s.n && Attempts(s, steps, j) == 0
  {
    var sys := Run(s, steps).value;
    Within(s.ranges, 0, s.n, k);
    AlwaysSafe(s, steps);
    AlwaysAnsweredBefore(s, steps);
    AttemptedAtMostOnce(s, steps, j);
    assert WorkerOk(s, sys.shared.cancelled, sys.workers[k], s.ranges[k], sys.stages);
    assert PassedAnswered(sys.workers[k], i, sys.stages[i]);
    assert Agrees(sys.workers[k], i, sys.stages[i]);
    assert Agrees(sys.workers[k], j, sys.stages[j]);
  }

  // ---------------------------------------------------------------- what the flag keeps from happening

  /** Some worker has looked at the flag twice for question `i` and is about to ask it. */
  ghost predicate AboutToAsk(workers: seq<Worker>, i: nat) {
    exists k :: 0 <= k < |workers| && workers[k] == Worker(i, Asking)
  }

  lemma FlagHoldsBack(s: Setup, sys: System, step: Step, i: nat)
    requires sys.shared.cancelled && !AboutToAsk(sys.workers, i) && Enabled(s, sys, step)
    ensures var after := Next(s, sys, step);
      after.shared.cancelled && !AboutToAsk(after.workers, i) && !Asks(sys, step, i)
  {
  }

  /** Once the flag is set, by a `cancel` or by a failure, no question is asked any more but those for which some
      worker had already looked at it twice. */
  lemma {:induction false} FlagStopsAsking(s: Setup, steps: seq<Step>, p: nat, i: nat)
    requires Run(s, steps).Some? && p <= |steps| && Run(s, steps[..p]).Some?
    requires Run(s, steps[..p]).value.shared.cancelled && !AboutToAsk(Run(s, steps[..p]).value.workers, i)
    ensures Run(s, steps).value.shared.cancelled && !AboutToAsk(Run(s, steps).value.workers, i)
    ensures Attempts(s, steps, i) == Attempts(s, steps[..p], i)
  {
    if p == |steps| {
      assert steps[..p] == steps;
    } else {
      var before := steps[..|steps| - 1];
      assert before[..p] == steps[..p];
      FlagStopsAsking(s, before, p, i);
      FlagHoldsBack(s, Run(s, before).value, steps[|steps| - 1], i);
    }
  }

  lemma {:induction false} Extended(s: Setup, steps: seq<Step>, step: Step)
    requires Run(s, steps).Some? && Enabled(s, Run(s, steps).value, step)
    ensures Run(s, steps + [step]) == Some(Next(s, Run(s, steps).value, step))
  {
    assert (steps + [step])[..|steps|] == steps;
  }

  // ---------------------------------------------------------------- what a report says

  /** The value of the shared state before step `p`. */
  ghost predicate SharedAt(s: Setup, steps: seq<Step>, p: nat, step: Step, c: Shared) {
    p < |steps| && steps[p] == step && Run(s, steps[..p]).Some? && Run(s, steps[..p]).value.shared == c
  }

  lemma SharedStays(s: Setup, before: seq<Step>, last: Step, p: nat, step: Step, c: Shared)
    requires SharedAt(s, before, p, step, c)
    ensures SharedAt(s, before + [last], p, step, c)
  {
    assert (before + [last])[..p] == before[..p];
  }

  /** Where a reader's first value comes from. */
  lemma {:induction false} SawCompletedAt(s: Setup, steps: seq<Step>, r: nat) returns (p: nat, c: Shared)
    requires Run(s, steps).Some? && r in Run(s, steps).value.readers
    ensures SharedAt(s, steps, p, LoadCompleted(r), c)
    ensures Run(s, steps).value.readers[r].completed == c.completed
  {
    var before, step := steps[..|steps| - 1], steps[|steps| - 1];
    assert steps == before + [step];
    if step == LoadCompleted(r) {
      p, c := |steps| - 1, Run(s, before).value.shared;
    } else {
      p, c := SawCompletedAt(s, before, r);
      SharedStays(s, before, step, p, LoadCompleted(r), c);
    }
  }

  /** Where its second value comes from. */
  lemma {:induction false} SawFailedAt(s: Setup, steps: seq<Step>, r: nat) returns (q: nat, c: Shared)
    requires Run(s, steps).Some? && r in Run(s, steps).value.readers && !Run(s, steps).value.readers[r].SawCompleted?
    ensures SharedAt(s, steps, q, LoadFailed(r), c)
    ensures Run(s, steps).value.readers[r].failed == c.failed
  {
    var before, step := steps[..|steps| - 1], steps[|steps| - 1];
    assert steps == before + [step];
    if step == LoadFailed(r) {
      q, c := |steps| - 1, Run(s, before).value.shared;
    } else {
      q, c := SawFailedAt(s, before, r);
      SharedStays(s, before, step, q, LoadFailed(r), c);
    }
  }

  /** What `get_stats` reports as cancelled: all that it did not count if the status was CANCELLED when it looked, so
      that its three numbers add up to the number of questions, and otherwise nothing. */
  lemma {:induction false} ReportAddsUp(s: Setup, steps: seq<Step>, r: nat) returns (v: nat, c: Shared)
    requires Run(s, steps).Some? && r in Run(s, steps).value.readers && Run(s, steps).value.readers[r].Report?
    ensures SharedAt(s, steps, v, LoadStatus(r), c)
    ensures var x := Run(s, steps).value.readers[r];
      if c.status == Cancelled then x.completed + x.failed + x.cancelled == s.n else x.cancelled == 0
  {
    var before, step := steps[..|steps| - 1], steps[|steps| - 1];
    assert steps == before + [step];
    if step == LoadStatus(r) {
      v, c := |steps| - 1, Run(s, before).value.shared;
    } else {
      v, c := ReportAddsUp(s, before, r);
      SharedStays(s, before, step, v, LoadStatus(r), c);
    }
  }

  /** A whole `cancel` can be made at any time: it sets the flag, and the status is CANCELLED until overwritten. */
  lemma {:induction false} CancelAnyTime(s: Setup, steps: seq<Step>)
    requires Run(s, steps).Some?
    ensures var all := steps + [CancelFlag] + [CancelStatus];
      && Run(s, all).Some? && Run(s, all).value.shared.cancelled && Run(s, all).value.shared.status == Cancelled
      && Run(s, all).value.shared.cancelling == Run(s, steps).value.shared.cancelling
  {
    Extended(s, steps, CancelFlag);
    Extended(s, steps + [CancelFlag], CancelStatus);
  }

  /** A `get_stats` that nothing disturbs can be made at any time, and reports the counters as they are. */
  lemma {:induction false} UndisturbedReport(s: Setup, steps: seq<Step>, r: nat)
    requires Run(s, steps).Some? && r !in Run(s, steps).value.readers
    ensures var c, all := Run(s, steps).value.shared, steps + [LoadCompleted(r)] + [LoadFailed(r)] + [LoadStatus(r)];
      && Run(s, all).Some? && r in Run(s, all).value.readers
      && Run(s, all).value.readers[r] ==
        Report(c.completed, c.failed, if c.status == Cancelled then s.n - c.completed - c.failed else 0)
  {
    Extended(s, steps, LoadCompleted(r));
    Extended(s, steps + [LoadCompleted(r)], LoadFailed(r));
    Extended(s, steps + [LoadCompleted(r)] + [LoadFailed(r)], LoadStatus(r));
  }

  // ---------------------------------------------------------------- the final status

  /** What the status says about the run: COMPLETED only after the main thread found the flag unset, FAILED
      only when a failure was to stop the batch and one was counted. */
  lemma {:induction false} StatusMeans(s: Setup, steps: seq<Step>)
    requires ValidSetup(s) && Run(s, steps).Some?
    ensures var sys := Run(s, steps).value;
      && (sys.shared.status == Completed ==> sys.main == Returned(false))
      && (sys.shared.status == Failed ==> s.stopOnError && sys.shared.failed > 0)
  {
    AlwaysSafe(s, steps);
  }

  /** The main thread stored COMPLETED and no `cancel` stored CANCELLED after that. */
  predicate EndsCompleted(steps: seq<Step>) {
    steps != [] &&
    var last := steps[|steps| - 1];
    last.StoreStatus? || (!last.CancelStatus? && EndsCompleted(steps[..|steps| - 1]))
  }

  /** Exactly when a run shows COMPLETED: the last status store was the main thread's. In particular a
      `cancel` that returns before that store is overwritten. */
  lemma {:induction false} CompletedIff(s: Setup, steps: seq<Step>)
    requires ValidSetup(s) && Run(s, steps).Some?
    ensures Run(s, steps).value.shared.status == Completed <==> EndsCompleted(steps)
  {
    if steps != [] {
      var before, step := steps[..|steps| - 1], steps[|steps| - 1];
      CompletedIff(s, before);
      AlwaysSafe(s, before);
      assert Enabled(s, Run(s, before).value, step);
    }
  }

  lemma {:induction false} UnsetMeansNoCancel(s: Setup, steps: seq<Step>)
    requires Run(s, steps).Some? && !Run(s, steps).value.shared.cancelled
    ensures !s.flagAtStart && CancelFlag !in steps
  {
    if steps != [] {
      var before := steps[..|steps| - 1];
      UnsetMeansNoCancel(s, before);
      assert steps == before + [steps[|steps| - 1]];
    }
  }

  /** The main thread looked at the flag, found it unset, and no `cancel` had raised it by then. */
  ghost predicate LookedInTime(s: Setup, steps: seq<Step>, p: nat) {
    p < |steps| && steps[p] == LoadFlag && !s.flagAtStart && CancelFlag !in steps[..p]
  }

  /** If the main thread is past joining and saw the flag unset, it looked before any `cancel` raised it. */
  lemma {:induction false} LookedBeforeCancel(s: Setup, steps: seq<Step>) returns (p: nat)
    requires Run(s, steps).Some?
    requires Run(s, steps).value.main != Joining && !Run(s, steps).value.main.cancelled
    ensures LookedInTime(s, steps, p)
  {
    var before, step := steps[..|steps| - 1], steps[|steps| - 1];
    if step == LoadFlag {
      p := |steps| - 1;
      UnsetMeansNoCancel(s, before);
    } else {
      p := LookedBeforeCancel(s, before);
      assert before[..p] == steps[..p];
    }
  }

  /** The last status store of the run is number `q`, and it is the main thread's. */
  ghost predicate StoredLast(steps: seq<Step>, q: nat) {
    q < |steps| && steps[q] == StoreStatus && CancelStatus !in steps[q..]
  }

  lemma {:induction false} EndsCompletedMeans(steps: seq<Step>)
    ensures EndsCompleted(steps) <==> exists q: nat :: StoredLast(steps, q)
  {
    if steps != [] {
      var n := |steps| - 1;
      var before, last := steps[..n], steps[n];
      EndsCompletedMeans(before);
      if last == StoreStatus {
        assert steps[n..] == [last];
        assert StoredLast(steps, n);
      } else {
        forall q: nat | q < n
          ensures StoredLast(steps, q) <==> StoredLast(before, q) && last != CancelStatus
        {
          assert steps[q..] == before[q..] + [last];
        }
      }
    }
  }

  /** The main thread looks before it stores. */
  lemma {:induction false} LooksBeforeStore(s: Setup, steps: seq<Step>, q: nat) returns (p: nat)
    requires Run(s, steps).Some? && q < |steps| && steps[q] == StoreStatus
    ensures p < q && LookedInTime(s, steps, p)
  {
    var n := |steps| - 1;
    var before := steps[..n];
    if q < n {
      p := LooksBeforeStore(s, before, q);
    } else {
      p := LookedBeforeCancel(s, before);
    }
    assert before[..p] == steps[..p];
  }

  /** The window: the flag was looked at by step `p`, before any `cancel` raised it, COMPLETED was stored by step
      `q`, and no `cancel` stored its status after that. */
  ghost predicate Window(s: Setup, steps: seq<Step>, p: nat, q: nat) {
    p < q && LookedInTime(s, steps, p) && StoredLast(steps, q)
  }

  /** Exactly which runs show COMPLETED. */
  lemma CompletedIffWindow(s: Setup, steps: seq<Step>)
    requires ValidSetup(s) && Run(s, steps).Some?
    ensures Run(s, steps).value.shared.status == Completed <==> exists p: nat, q: nat :: Window(s, steps, p, q)
  {
    CompletedIff(s, steps);
    EndsCompletedMeans(steps);
    if EndsCompleted(steps) {
      var q: nat :| StoredLast(steps, q);
      var p := LooksBeforeStore(s, steps, q);
      assert Window(s, steps, p, q);
    }
    if p: nat, q: nat :| Window(s, steps, p, q) {
      assert StoredLast(steps, q);
    }
  }

  /** Exactly which runs show COMPLETED although some `cancel` made one of its stores in the batch: it raised the flag
      after the last look at it, or its flag was cleared by the reset, and whatever status a `cancel` stored was stored
      before COMPLETED was. How the steps of the `cancel` lie between other steps does not matter. */
  lemma CancelledYetCompletedIff(s: Setup, steps: seq<Step>)
    requires ValidSetup(s) && Run(s, steps).Some?
    ensures Run(s, steps).value.shared.status == Completed && (CancelFlag in steps || CancelStatus in steps) <==>
      exists p: nat, q: nat :: Window(s, steps, p, q) && (CancelFlag in steps[p..] || CancelStatus in steps[..q])
  {
    CompletedIffWindow(s, steps);
    forall p: nat, q: nat | Window(s, steps, p, q)
      ensures CancelFlag in steps <==> CancelFlag in steps[p..]
      ensures CancelStatus in steps <==> CancelStatus in steps[..q]
    {
      assert steps == steps[..p] + steps[p..] == steps[..q] + steps[q..];
    }
  }

  /** A `cancel` is never lost if it raises the flag in the batch before the main thread looks, or stores its status
      after the main thread did. */
  lemma CancelInTimeCounts(s: Setup, steps: seq<Step>, a: nat)
    requires ValidSetup(s) && Run(s, steps).Some? && a < |steps|
    requires (steps[a] == CancelFlag && LoadFlag !in steps[..a])
      || (steps[a] == CancelStatus && StoreStatus !in steps[a..])
    ensures Run(s, steps).value.shared.status != Completed
  {
    CompletedIffWindow(s, steps);
    if p: nat, q: nat :| Window(s, steps, p, q) {
      EarlyOrLate(steps, a, p, q);
    }
  }

  lemma EarlyOrLate(steps: seq<Step>, a: nat, p: nat, q: nat)
    requires p < q < |steps| && a < |steps| && steps[p] == LoadFlag && steps[q] == StoreStatus
    requires CancelFlag !in steps[..p] && CancelStatus !in steps[q..]
    ensures steps[a] == CancelFlag ==> LoadFlag in steps[..a]
    ensures steps[a] == CancelStatus ==> StoreStatus in steps[a..]
  {
    if steps[a] == CancelFlag {
      Outside(steps, CancelFlag, 0, p, a);
      InPart(steps, 0, p, a);
    }
    if steps[a] == CancelStatus {
      Outside(steps, CancelStatus, q, |steps|, a);
      InPart(steps, a, q, |steps|);
    }
  }

  lemma Outside(steps: seq<Step>, x: Step, from: nat, to: nat, i: nat)
    requires from <= to <= |steps| && x !in steps[from..to] && i < |steps| && steps[i] == x
    ensures !(from <= i < to)
  {
    if from <= i < to {
      InPart(steps, from, i, to);
    }
  }

  lemma InPart<T>(s: seq<T>, from: nat, i: nat, to: nat)
    requires from <= i < to <= |s|
    ensures s[i] in s[from..to]
  {
    assert s[from..to][i - from] == s[i];
  }

  /** Some worker is between raising the flag and storing FAILED. */
  ghost predicate SomeoneFailing(workers: seq<Worker>) {
    exists k :: 0 <= k < |workers| && workers[k].point == RaisingStatus
  }

  /** The flag is never raised without a status to follow. */
  ghost predicate FlagExplained(s: Setup, sys: System) {
    sys.shared.cancelled && sys.shared.status == Running ==>
      s.flagAtStart || sys.shared.cancelling > 0 || SomeoneFailing(sys.workers)
  }

  lemma StepKeepsFlagExplained(s: Setup, sys: System, step: Step)
    requires FlagExplained(s, sys) && Enabled(s, sys, step)
    ensures FlagExplained(s, Next(s, sys, step))
  {
    var after := Next(s, sys, step);
    if step.Move? && sys.workers[step.worker].point == RaisingFlag {
      assert after.workers[step.worker].point == RaisingStatus;
    } else if step.Move? && SomeoneFailing(sys.workers) {
      var k :| 0 <= k < |sys.workers| && sys.workers[k].point == RaisingStatus;
      assert k != step.worker ==> after.workers[k].point == RaisingStatus;
    }
  }

  lemma {:induction false} AlwaysFlagExplained(s: Setup, steps: seq<Step>)
    requires Run(s, steps).Some?
    ensures FlagExplained(s, Run(s, steps).value)
  {
    if steps != [] {
      var before := steps[..|steps| - 1];
      AlwaysFlagExplained(s, before);
      StepKeepsFlagExplained(s, Run(s, before).value, steps[|steps| - 1]);
    }
  }

  /** The status is RUNNING only as long as no `cancel` has stored one, and CANCELLED only if one has. */
  lemma {:induction false} StatusNeedsCancel(s: Setup, steps: seq<Step>)
    requires Run(s, steps).Some?
    ensures Run(s, steps).value.shared.status == Running ==> CancelStatus !in steps
    ensures Run(s, steps).value.shared.status == Cancelled ==> CancelStatus in steps
  {
    if steps != [] {
      var before := steps[..|steps| - 1];
      StatusNeedsCancel(s, before);
      assert steps == before + [steps[|steps| - 1]];
    }
  }

  /** The workers have only looked at the flag. */
  ghost predicate Idle(sys: System) {
    && sys.shared.cancelled
    && (forall k :: 0 <= k < |sys.workers| ==> sys.workers[k].point == Testing || sys.workers[k].point == Done)
    && (sys.main == Joining || sys.main == Returned(true))
    && (sys.shared.status == Running || sys.shared.status == Cancelled)
  }

  lemma StepKeepsIdle(s: Setup, sys: System, step: Step)
    requires Idle(sys) && Enabled(s, sys, step)
    ensures Idle(Next(s, sys, step))
  {
  }

  /** If the flag was raised between its reset and the start of the workers, nothing is asked. */
  lemma {:induction false} FlagAtStartIdles(s: Setup, steps: seq<Step>, i: nat)
    requires ValidSetup(s) && s.flagAtStart && Run(s, steps).Some?
    ensures Idle(Run(s, steps).value) && Attempts(s, steps, i) == 0
  {
    if steps != [] {
      var before := steps[..|steps| - 1];
      FlagAtStartIdles(s, before, i);
      StepKeepsIdle(s, Run(s, before).value, steps[|steps| - 1]);
    }
  }

  /** The status of a batch that has returned, once every `cancel` has returned too. If the main thread found the flag
      unset it is COMPLETED or CANCELLED, and otherwise FAILED or CANCELLED, but for one case: it is still RUNNING if
      and only if the flag was raised during the reset and no `cancel` stored a status after RUNNING was stored. */
  lemma {:induction false} StatusAtReturn(s: Setup, steps: seq<Step>)
    requires ValidSetup(s) && Run(s, steps).Some?
    requires Run(s, steps).value.main.Returned? && Run(s, steps).value.shared.cancelling == 0
    ensures var sys := Run(s, steps).value;
      && (sys.shared.status == Running <==> s.flagAtStart && CancelStatus !in steps)
      && (sys.main.cancelled ==> sys.shared.status != Completed)
      && (!sys.main.cancelled ==> sys.shared.status == Completed || sys.shared.status == Cancelled)
  {
    AlwaysSafe(s, steps);
    AlwaysFlagExplained(s, steps);
    StatusNeedsCancel(s, steps);
    var sys := Run(s, steps).value;
    assert !SomeoneFailing(sys.workers) by {
      assert forall k :: 0 <= k < |sys.workers| ==> Over(sys.workers[k]);
    }
    if s.flagAtStart {
      FlagAtStartIdles(s, steps, 0);
    }
  }

  /** A `cancel` that runs from its first to its last store after the main thread has looked at the flag, and
      before it stores the status, leaves no trace in the status. */
  lemma {:induction false} LateCancelIsOverwritten(s: Setup, steps: seq<Step>)
    requires Run(s, steps).Some? && Run(s, steps).value.main == Loaded(false)
    ensures var late := steps + [CancelFlag] + [CancelStatus] + [StoreStatus];
      && Run(s, late).Some?
      && Run(s, late).value.shared.cancelled
      && Run(s, late).value.shared.status == Completed
  {
    Extended(s, steps, CancelFlag);
    Extended(s, steps + [CancelFlag], CancelStatus);
    Extended(s, steps + [CancelFlag] + [CancelStatus], StoreStatus);
  }

  const ONE_QUESTION := Setup(1, [Range(0, 1)], false, false, 0)

  /** The one worker of that run after each of its actions. */
  function Itinerary(i: nat): Worker
    requires i <= 7
  {
    var yes := Answer("yes");
    if i == 0 then Worker(0, Testing)
    else if i == 1 then Worker(0, Rechecking)
    else if i == 2 then Worker(0, Asking)
    else if i == 3 then Worker(0, Answered(yes))
    else if i == 4 then Worker(0, Written(yes))
    else if i == 5 then Worker(0, Advancing)
    else if i == 6 then Worker(1, Testing)
    else Worker(1, Done)
  }

  /** Its run up to there. */
  predicate After(steps: seq<Step>, i: nat)
    requires i <= 7
  {
    Run(ONE_QUESTION, steps).Some? &&
    var sys := Run(ONE_QUESTION, steps).value;
    sys.workers == [Itinerary(i)] && !sys.shared.cancelled && sys.main == Joining
  }

  lemma OneMove(steps: seq<Step>, i: nat)
    requires i < 7 && After(steps, i)
    ensures After(steps + [Move(0, Answer("yes"))], i + 1)
  {
    var move := Move(0, Answer("yes"));
    var sys := Run(ONE_QUESTION, steps).value;
    Extended(ONE_QUESTION, steps, move);
    assert Moved(ONE_QUESTION, 1, sys.shared, Itinerary(i), Answer("yes")) == Itinerary(i + 1);
  }

  /** Such a run exists: one question, one worker, and a `cancel` between the last load and the last store. */
  lemma LateCancelHappens() returns (s: Setup, steps: seq<Step>)
    ensures ValidSetup(s) && !s.flagAtStart && s.cancelling == 0
    ensures Run(s, steps).Some? && CancelStatus in steps
    ensures Run(s, steps).value.shared.cancelled && Run(s, steps).value.shared.status == Completed
  {
    s := ONE_QUESTION;
    assert s.ranges[..0] == [];
    steps := [];
    var i := 0;
    while i < 7
      invariant i <= 7 && After(steps, i)
    {
      OneMove(steps, i);
      steps := steps + [Move(0, Answer("yes"))];
      i := i + 1;
    }
    Extended(s, steps, LoadFlag);
    LateCancelIsOverwritten(s, steps + [LoadFlag]);
    steps := steps + [LoadFlag] + [CancelFlag] + [CancelStatus] + [StoreStatus];
  }
}
