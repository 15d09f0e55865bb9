/** A batch never gets stuck: from wherever a run has come to, it can be brought to its end. */
module BatchProgress {
  import opened Batch
  import opened Options
  import opened Ranks
  import opened Slices

  function PointRank(point: Point): nat {
    match point
    case Testing => 8
    case Rechecking => 7
    case Asking => 6
    case Answered(_) => 5
    case Written(_) => 4
    case RaisingFlag => 3
    case RaisingStatus => 2
    case Advancing => 1
    case _ => 0
  }

  /** How much is left for a worker of a range that ends at `hi`. */
  function WorkerRank(w: Worker, hi: nat): nat {
    if Over(w) || w.next > hi then 0 else 10 * (hi - w.next) + PointRank(w.point)
  }

  function WorkLeft(s: Setup, workers: seq<Worker>): map<nat, nat> {
    map k: nat | k < |workers| && k < |s.ranges| :: WorkerRank(workers[k], s.ranges[k].hi)
  }

  function Itself(n: nat): nat {
    n
  }

  function MainRank(main: Main): nat {
    match main
    case Joining => 2
    case Loaded(_) => 1
    case Returned(_) => 0
  }

  function Rank(s: Setup, sys: System): nat {
    |Left(WorkLeft(s, sys.workers), Itself)|
  }

  lemma MoveIsProgress(s: Setup, sys: System, k: nat, result: Result)
    requires ValidSetup(s) && Safe(s, sys) && k < |sys.workers| && !Over(sys.workers[k])
    ensures Rank(s, MoveWorker(s, sys, k, result)) < Rank(s, sys)
  {
    var after := MoveWorker(s, sys, k, result);
    assert WorkerOk(s, sys.shared.cancelled, sys.workers[k], s.ranges[k], sys.stages);
    var rank := WorkerRank(after.workers[k], s.ranges[k].hi);
    assert WorkLeft(s, after.workers) == WorkLeft(s, sys.workers)[k := rank];
    LeftShrinks(WorkLeft(s, sys.workers), Itself, k, rank);
  }

  /** A batch that is left to itself: no `cancel`, no `get_stats`. */
  predicate IsOwn(step: Step) {
    step.Move? || step.LoadFlag? || step.StoreStatus?
  }

  predicate AllOwn(steps: seq<Step>) {
    forall i :: 0 <= i < |steps| ==> IsOwn(steps[i])
  }

  lemma NextStep(s: Setup, sys: System) returns (step: Step)
    requires ValidSetup(s) && Safe(s, sys) && !sys.main.Returned? && !(sys.main.Loaded? && sys.main.cancelled)
    ensures IsOwn(step) && Enabled(s, sys, step)
    ensures var after := Next(s, sys, step);
      || Rank(s, after) < Rank(s, sys)
      || (after.workers == sys.workers && MainRank(after.main) < MainRank(sys.main))
  {
    if sys.main.Loaded? {
      step := StoreStatus;
    } else if k :| 0 <= k < |sys.workers| && !Over(sys.workers[k]) {
      step := Move(k, Answer(""));
      MoveIsProgress(s, sys, k, Answer(""));
    } else {
      step := LoadFlag;
    }
  }

  /** The main thread is never left with a flag that it has found set. */
  lemma {:induction false} LoadedIsUnset(s: Setup, steps: seq<Step>)
    requires Run(s, steps).Some? && Run(s, steps).value.main.Loaded?
    ensures !Run(s, steps).value.main.cancelled
  {
    var before := steps[..|steps| - 1];
    if Run(s, before).value.main.Loaded? {
      LoadedIsUnset(s, before);
    }
  }

  lemma OwnMore(step: Step, rest: seq<Step>)
    requires IsOwn(step) && AllOwn(rest)
    ensures AllOwn([step] + rest)
  {
  }

  /** From every state that a batch can come to, with or without a `cancel` or failures so far, some continuation with
      steps of its own alone ends it. */
  lemma {:induction false} CanAlwaysFinish(s: Setup, steps: seq<Step>) returns (more: seq<Step>)
    requires ValidSetup(s) && Run(s, steps).Some?
    ensures AllOwn(more) && Run(s, steps + more).Some?
    ensures Run(s, steps + more).value.main.Returned? && AllOver(Run(s, steps + more).value.workers)
    decreases Rank(s, Run(s, steps).value), MainRank(Run(s, steps).value.main)
  {
    var sys := Run(s, steps).value;
    AlwaysSafe(s, steps);
    if sys.main.Returned? {
      more := [];
      assert steps + more == steps;
    } else {
      if sys.main.Loaded? {
        LoadedIsUnset(s, steps);
      }
      var step := NextStep(s, sys);
      Extended(s, steps, step);
      var rest := CanAlwaysFinish(s, steps + [step]);
      more := [step] + rest;
      OwnMore(step, rest);
      Regroup(steps, [step], rest);
    }
  }
}
