/** When a cancelled command stays cancelled. */
module CommandCancel {
  import opened Options
  import opened CommandProtocol
  import opened CommandSafety

  predicate Done(stage: Stage) {
    stage == Leaving || stage == Deregistered
  }

  /** The dispatcher does not hold the command, and whichever worker had it has made its last write. */
  ghost predicate Quiet(s: State, id: Id) {
    s.fetched != Some(id) && forall w :: w in s.workers && s.workers[w].cmd == id ==> Done(s.workers[w].stage)
  }

  ghost predicate IsCancelled(s: State, id: Id) {
    id in s.rows && s.rows[id].status == Cancelled
  }

  // ---------------------------------------------------------------- a quiet command stays as it is

  lemma StepKeepsCancelledRow(s: State, step: Step, id: Id)
    requires Enabled(s, step) && IsCancelled(s, id) && Quiet(s, id)
    ensures IsCancelled(Apply(s, step), id)
  {
  }

  predicate MovesWorker(step: Step) {
    step.Register? || step.Mark? || step.RunHandler? || step.RejectUnknown? || step.WriteResult? || step.Deregister?
  }

  lemma MovedWorker(s: State, step: Step, v: nat)
    requires MovesWorker(step) && Enabled(s, step) && v in Apply(s, step).workers && !Done(Apply(s, step).workers[v].stage)
    ensures v in s.workers && s.workers[v].cmd == Apply(s, step).workers[v].cmd && !Done(s.workers[v].stage)
  {
  }

  /** Where a worker that may still write comes from. */
  lemma StepWorker(s: State, step: Step, v: nat)
    requires Enabled(s, step) && v in Apply(s, step).workers && !Done(Apply(s, step).workers[v].stage)
    ensures || (v in s.workers && s.workers[v].cmd == Apply(s, step).workers[v].cmd && !Done(s.workers[v].stage))
            || (step.Acquire? && s.fetched == Some(Apply(s, step).workers[v].cmd))
  {
    if MovesWorker(step) {
      MovedWorker(s, step, v);
    }
  }

  lemma StepKeepsQuiet(s: State, step: Step, id: Id)
    requires Enabled(s, step) && IsCancelled(s, id) && Quiet(s, id)
    ensures Quiet(Apply(s, step), id)
  {
    StepFetched(s, step);
    var t := Apply(s, step);
    forall v | v in t.workers && t.workers[v].cmd == id ensures Done(t.workers[v].stage) {
      if !Done(t.workers[v].stage) {
        StepWorker(s, step, v);
      }
    }
  }

  /** A command cancelled while it is quiet stays cancelled, and its handler is never called again. */
  lemma {:induction false} CancelledStays(s: State, steps: seq<Step>, id: Id)
    requires CanRun(s, steps) && IsCancelled(s, id) && Quiet(s, id)
    ensures IsCancelled(Run(s, steps), id) && Quiet(Run(s, steps), id)
    ensures s.ran <= Run(s, steps).ran && id !in Run(s, steps).ran[|s.ran|..]
    decreases |steps|
  {
    if steps != [] {
      var s1 := Apply(s, steps[0]);
      StepKeepsCancelledRow(s, steps[0], id);
      StepKeepsQuiet(s, steps[0], id);
      StepRuns(s, steps[0]);
      CancelledStays(s1, steps[1..], id);
      var t := Run(s, steps);
      assert forall i :: |s1.ran| <= i < |t.ran| ==> t.ran[i] == t.ran[|s1.ran|..][i - |s1.ran|];
    }
  }

  // ---------------------------------------------------------------- any other command can be taken back

  lemma Prepend(s: State, step: Step, steps: seq<Step>)
    requires Enabled(s, step) && CanRun(Apply(s, step), steps)
    ensures CanRun(s, [step] + steps) && Run(s, [step] + steps) == Run(Apply(s, step), steps)
    ensures !step.Start? && NoStart(steps) ==> NoStart([step] + steps)
  {
    RunOne(s, step);
    RunPrefix(s, [step], steps);
  }

  /** A worker that has not made its last write can still replace the status. */
  lemma {:induction false} WorkerOverwrites(s: State, w: nat, id: Id) returns (steps: seq<Step>)
    requires id in s.rows && w in s.workers && s.workers[w].cmd == id && !Done(s.workers[w].stage)
    ensures CanRun(s, steps) && !IsCancelled(Run(s, steps), id)
    decreases match s.workers[w].stage case Started => 3 case Registered => 2 case Marked => 1 case _ => 0
  {
    var stage := s.workers[w].stage;
    if stage == Started {
      var rest := WorkerOverwrites(Apply(s, Register(w)), w, id);
      Prepend(s, Register(w), rest);
      steps := [Register(w)] + rest;
    } else if stage == Marked && s.workers[w].name in s.handlers {
      var rest := WorkerOverwrites(Apply(s, RunHandler(w, true)), w, id);
      Prepend(s, RunHandler(w, true), rest);
      steps := [RunHandler(w, true)] + rest;
    } else {
      var step :=
        if stage == Registered then Mark(w, s.clock, true)
        else if stage == Marked then RejectUnknown(w, s.clock, true)
        else WriteResult(w, s.clock, true);
      RunOne(s, step);
      steps := [step];
    }
  }

  /** What a worker does next when all its writes fail. */
  function NextFailing(s: State, w: nat): Step
    requires w in s.workers
  {
    match s.workers[w].stage
    case Started => Register(w)
    case Registered => Mark(w, s.clock, false)
    case Marked => if s.workers[w].name in s.handlers then RunHandler(w, true) else RejectUnknown(w, s.clock, false)
    case Returned(_) => WriteResult(w, s.clock, false)
    case Leaving => CommandProtocol.Deregister(w)
    case Deregistered => Release(w)
  }

  function StepsLeft(stage: Stage): nat {
    match stage
    case Started => 5
    case Registered => 4
    case Marked => 3
    case Returned(_) => 2
    case Leaving => 1
    case Deregistered => 0
  }

  lemma FailingStepMoves(s: State, w: nat)
    requires w in s.workers && s.workers[w].stage != Deregistered
    ensures Enabled(s, NextFailing(s, w))
    ensures var t := Apply(s, NextFailing(s, w));
            w in t.workers && StepsLeft(t.workers[w].stage) < StepsLeft(s.workers[w].stage)
  {
  }

  /** A step of a worker that writes nothing into the table. */
  predicate WritesNothing(step: Step) {
    || step.Register? || step.RunHandler? || step.Deregister?
    || (step.Mark? && !step.ok) || (step.RejectUnknown? && !step.ok) || (step.WriteResult? && !step.ok)
  }

  lemma QuietStep(s: State, step: Step)
    requires WritesNothing(step) && Enabled(s, step)
    ensures var t := Apply(s, step);
            t.rows == s.rows && t.fetched == s.fetched && t.up == s.up && t.max == s.max && t.slots == s.slots
  {
  }

  /** One slot is free that was not, and nothing else that the dispatcher sees has changed. */
  predicate OneSlotLess(s: State, t: State) {
    t.rows == s.rows && t.fetched == s.fetched && t.up == s.up && t.max == s.max && t.slots == s.slots - 1
  }

  /** Any worker can leave without changing a row. */
  lemma {:induction false} WorkerLeaves(s: State, w: nat) returns (steps: seq<Step>)
    requires Inv(s) && w in s.workers && s.slots > 0
    ensures CanRun(s, steps) && NoStart(steps) && Inv(Run(s, steps)) && OneSlotLess(s, Run(s, steps))
    decreases StepsLeft(s.workers[w].stage)
  {
    var step := NextFailing(s, w);
    if s.workers[w].stage == Deregistered {
      StepKeepsInv(s, Release(w));
      RunOne(s, Release(w));
      steps := [Release(w)];
    } else {
      FailingStepMoves(s, w);
      QuietStep(s, step);
      StepKeepsInv(s, step);
      var rest := WorkerLeaves(Apply(s, step), w);
      Prepend(s, step, rest);
      steps := [step] + rest;
    }
  }

  /** A command the dispatcher holds is started when a slot is free. */
  lemma FetchedOverwrites(s: State, id: Id) returns (steps: seq<Step>)
    requires Inv(s) && s.fetched == Some(id) && s.slots < s.max
    ensures CanRun(s, steps) && !IsCancelled(Run(s, steps), id)
  {
    var rest := WorkerOverwrites(Apply(s, Acquire), s.nextWorker, id);
    Prepend(s, Acquire, rest);
    steps := [Acquire] + rest;
  }

  lemma SomeWorker(s: State) returns (w: nat)
    requires Inv(s) && s.slots == s.max
    ensures w in s.workers
  {
    assert |s.workers.Keys| == |s.workers|;
    assert s.workers.Keys != {};
    w :| w in s.workers.Keys;
  }

  lemma DispatcherOverwrites(s: State, id: Id) returns (steps: seq<Step>)
    requires Inv(s) && s.fetched == Some(id)
    ensures CanRun(s, steps) && !IsCancelled(Run(s, steps), id)
  {
    if s.slots < s.max {
      steps := FetchedOverwrites(s, id);
    } else {
      var w := SomeWorker(s);
      var first := WorkerLeaves(s, w);
      var rest := FetchedOverwrites(Run(s, first), id);
      RunPrefix(s, first, rest);
      steps := first + rest;
    }
  }

  ghost predicate StaysCancelled(s: State, steps: seq<Step>, id: Id) {
    CanRun(s, steps) ==> IsCancelled(Run(s, steps), id)
  }

  /** The exact condition: a cancelled row stays cancelled in every continuation precisely when it is quiet. */
  lemma StaysCancelledIffQuiet(s: State, id: Id)
    requires Inv(s) && IsCancelled(s, id)
    ensures (forall steps :: StaysCancelled(s, steps, id)) <==> Quiet(s, id)
  {
    if Quiet(s, id) {
      forall steps ensures StaysCancelled(s, steps, id) {
        if CanRun(s, steps) {
          CancelledStays(s, steps, id);
        }
      }
    } else if s.fetched == Some(id) {
      var steps := DispatcherOverwrites(s, id);
      assert !StaysCancelled(s, steps, id);
    } else {
      var w: nat :| w in s.workers && s.workers[w].cmd == id && !Done(s.workers[w].stage);
      var steps := WorkerOverwrites(s, w, id);
      assert !StaysCancelled(s, steps, id);
    }
  }
}
