/** How often the handler of a command can be called before the next start. */
module CommandOnce {
  import opened Options
  import opened CommandProtocol
  import opened CommandSafety
  import opened CommandCancel

  /** Worker `w` is on its way to calling the handler for `id`. */
  ghost predicate Holds(s: State, id: Id, w: nat) {
    w in s.workers && s.workers[w].cmd == id && BeforeHandler(s.workers[w].stage) && s.workers[w].name in s.handlers
  }

  ghost predicate Known(s: State, id: Id) {
    id in s.rows && s.rows[id].name in s.handlers
  }

  ghost predicate DispatcherHolds(s: State, id: Id) {
    s.fetched == Some(id) && Known(s, id)
  }

  /** The query can still return the command. */
  ghost predicate Dispatchable(s: State, id: Id) {
    s.up && Known(s, id) && s.rows[id].status == Queued
  }

  /** Nobody is on the way to the handler. */
  ghost predicate NoneHolds(s: State, id: Id) {
    !DispatcherHolds(s, id) && forall w :: !Holds(s, id, w)
  }

  /** Of the dispatcher and the workers at most one is. */
  ghost predicate OneHolds(s: State, id: Id) {
    && (forall v, w :: Holds(s, id, v) && Holds(s, id, w) ==> v == w)
    && (DispatcherHolds(s, id) ==> forall w :: !Holds(s, id, w))
  }

  ghost function Calls(ran: seq<Id>, id: Id): nat {
    multiset(ran)[id]
  }

  // ---------------------------------------------------------------- what no step takes back

  predicate Outside(step: Step) {
    step.Queue? || step.Fetch? || step.CancelSignal? || step.CancelWrite? || step.Crash? || step.Release?
  }

  lemma OutsideHolds(s: State, step: Step, id: Id, v: nat)
    requires Outside(step) && Enabled(s, step)
    ensures Holds(Apply(s, step), id, v) ==> Holds(s, id, v)
  {
  }

  lemma MovedHolds(s: State, step: Step, id: Id, v: nat)
    requires MovesWorker(step) && Enabled(s, step)
    ensures Holds(Apply(s, step), id, v) ==> Holds(s, id, v) && !(step.RunHandler? && step.w == v)
  {
  }

  lemma AcquiredHolds(s: State, id: Id, v: nat)
    requires Enabled(s, Acquire)
    ensures Holds(Apply(s, Acquire), id, v) ==> Holds(s, id, v) || (DispatcherHolds(s, id) && v == s.nextWorker)
  {
  }

  /** A holder was one before, or has just got the command from the dispatcher. */
  lemma StepHolds(s: State, step: Step, id: Id, v: nat)
    requires Enabled(s, step) && !step.Start? && Holds(Apply(s, step), id, v)
    ensures || (Holds(s, id, v) && !(step.RunHandler? && step.w == v))
            || (step.Acquire? && DispatcherHolds(s, id) && v == s.nextWorker)
  {
    if Outside(step) {
      OutsideHolds(s, step, id, v);
    } else if MovesWorker(step) {
      MovedHolds(s, step, id, v);
    } else {
      AcquiredHolds(s, id, v);
    }
  }

  lemma StepKnown(s: State, step: Step, id: Id)
    requires Enabled(s, step) && id in s.rows
    ensures Known(Apply(s, step), id) <==> Known(s, id)
  {
    StepKeepsRows(s, step, id);
  }

  lemma StepDispatcher(s: State, step: Step, id: Id)
    requires Enabled(s, step) && !step.Start? && id in s.rows && !Dispatchable(s, id)
    ensures DispatcherHolds(Apply(s, step), id) ==> DispatcherHolds(s, id) && !step.Acquire?
  {
    StepKnown(s, step, id);
    StepFetched(s, step);
  }

  lemma StepNotDispatchable(s: State, step: Step, id: Id)
    requires Enabled(s, step) && !step.Start? && id in s.rows && !Dispatchable(s, id)
    ensures id in Apply(s, step).rows && !Dispatchable(Apply(s, step), id)
  {
    StepKeepsRows(s, step, id);
    StepKnown(s, step, id);
    if s.rows[id].status != Queued {
      StepNeverRequeues(s, step, id);
    } else if !s.up {
      StillDown(s, step);
    }
  }

  lemma StillDown(s: State, step: Step)
    requires Enabled(s, step) && !step.Start? && !s.up
    ensures !Apply(s, step).up
  {
  }

  lemma StepKeepsNone(s: State, step: Step, id: Id)
    requires Enabled(s, step) && !step.Start? && id in s.rows && !Dispatchable(s, id) && NoneHolds(s, id)
    ensures NoneHolds(Apply(s, step), id)
  {
    StepDispatcher(s, step, id);
    forall w ensures !Holds(Apply(s, step), id, w) {
      if Holds(Apply(s, step), id, w) {
        StepHolds(s, step, id, w);
      }
    }
  }

  lemma StepKeepsOne(s: State, step: Step, id: Id)
    requires Enabled(s, step) && !step.Start? && id in s.rows && !Dispatchable(s, id) && OneHolds(s, id)
    ensures OneHolds(Apply(s, step), id)
  {
    StepDispatcher(s, step, id);
    forall v, w | Holds(Apply(s, step), id, v) && Holds(Apply(s, step), id, w) ensures v == w {
      StepHolds(s, step, id, v);
      StepHolds(s, step, id, w);
    }
    forall w | Holds(Apply(s, step), id, w) ensures !DispatcherHolds(Apply(s, step), id) {
      StepHolds(s, step, id, w);
    }
  }

  /** The only holder lets go when it calls the handler. */
  lemma CallLetsGo(s: State, w: nat, ok: bool, id: Id)
    requires Enabled(s, RunHandler(w, ok)) && s.workers[w].cmd == id && id in s.rows
    requires !Dispatchable(s, id) && OneHolds(s, id)
    ensures Holds(s, id, w) && NoneHolds(Apply(s, RunHandler(w, ok)), id)
  {
    var step := RunHandler(w, ok);
    assert Holds(s, id, w);
    StepDispatcher(s, step, id);
    forall v ensures !Holds(Apply(s, step), id, v) {
      if Holds(Apply(s, step), id, v) {
        StepHolds(s, step, id, v);
      }
    }
  }

  lemma StepCalls(s: State, step: Step, id: Id)
    requires Enabled(s, step)
    ensures Calls(Apply(s, step).ran, id) == Calls(s.ran, id) + if step.RunHandler? && s.workers[step.w].cmd == id then 1 else 0
  {
    StepRuns(s, step);
  }

  lemma {:induction false} NoneNeverCalls(s: State, steps: seq<Step>, id: Id)
    requires CanRun(s, steps) && NoStart(steps) && id in s.rows && !Dispatchable(s, id) && NoneHolds(s, id)
    ensures Calls(Run(s, steps).ran, id) == Calls(s.ran, id)
    decreases |steps|
  {
    if steps != [] {
      StepKeepsNone(s, steps[0], id);
      StepNotDispatchable(s, steps[0], id);
      StepCalls(s, steps[0], id);
      if steps[0].RunHandler? {
        assert !Holds(s, id, steps[0].w);
      }
      NoneNeverCalls(Apply(s, steps[0]), steps[1..], id);
    }
  }

  lemma {:induction false} OneCallsOnce(s: State, steps: seq<Step>, id: Id)
    requires CanRun(s, steps) && NoStart(steps) && id in s.rows && !Dispatchable(s, id) && OneHolds(s, id)
    ensures Calls(Run(s, steps).ran, id) <= Calls(s.ran, id) + 1
    decreases |steps|
  {
    if steps != [] {
      var step := steps[0];
      StepNotDispatchable(s, step, id);
      StepCalls(s, step, id);
      if step.RunHandler? && s.workers[step.w].cmd == id {
        CallLetsGo(s, step.w, step.succeeded, id);
        NoneNeverCalls(Apply(s, step), steps[1..], id);
      } else {
        StepKeepsOne(s, step, id);
        OneCallsOnce(Apply(s, step), steps[1..], id);
      }
    }
  }

  // ---------------------------------------------------------------- runs that do call

  ghost predicate Leads(s: State, steps: seq<Step>, t: State) {
    CanRun(s, steps) && NoStart(steps) && Run(s, steps) == t
  }

  /** Some run without a start leads from one state to the other. */
  ghost predicate CanReach(s: State, t: State) {
    exists steps :: Leads(s, steps, t)
  }

  lemma ReachSelf(s: State)
    ensures CanReach(s, s)
  {
    assert Leads(s, [], s);
  }

  lemma ReachTwice(s: State, t: State, u: State)
    requires CanReach(s, t) && CanReach(t, u)
    ensures CanReach(s, u)
  {
    var a :| Leads(s, a, t);
    var b :| Leads(t, b, u);
    RunPrefix(s, a, b);
    assert Leads(s, a + b, u);
  }

  lemma ReachOne(s: State, step: Step)
    requires Enabled(s, step) && !step.Start?
    ensures CanReach(s, Apply(s, step))
  {
    RunOne(s, step);
    assert Leads(s, [step], Apply(s, step));
  }

  /** What a run without a start keeps. */
  ghost predicate SameBoot(s: State, t: State) {
    && t.handlers == s.handlers && t.boot == s.boot && s.ran <= t.ran
    && forall id :: id in s.rows ==> id in t.rows && t.rows[id].name == s.rows[id].name
  }

  lemma StepSameBoot(s: State, step: Step)
    requires Enabled(s, step) && !step.Start?
    ensures SameBoot(s, Apply(s, step))
  {
    StepRuns(s, step);
    forall id | id in s.rows ensures id in Apply(s, step).rows && Apply(s, step).rows[id].name == s.rows[id].name {
      StepKeepsRows(s, step, id);
    }
  }

  lemma {:induction false} RunSameBoot(s: State, steps: seq<Step>)
    requires Inv(s) && CanRun(s, steps) && NoStart(steps)
    ensures Inv(Run(s, steps)) && SameBoot(s, Run(s, steps))
    decreases |steps|
  {
    if steps != [] {
      StepSameBoot(s, steps[0]);
      StepKeepsInv(s, steps[0]);
      RunSameBoot(Apply(s, steps[0]), steps[1..]);
    }
  }

  lemma ReachKeeps(s: State, t: State)
    requires Inv(s) && CanReach(s, t)
    ensures Inv(t) && SameBoot(s, t)
  {
    var steps :| Leads(s, steps, t);
    RunSameBoot(s, steps);
  }

  lemma MoreCalls(s: State, t: State, id: Id)
    requires SameBoot(s, t)
    ensures Calls(s.ran, id) <= Calls(t.ran, id)
  {
    assert t.ran == s.ran + t.ran[|s.ran|..];
  }

  function NextStep(s: State, w: nat): Step
    requires w in s.workers && BeforeHandler(s.workers[w].stage)
  {
    if s.workers[w].stage == Started then Register(w)
    else if s.workers[w].stage == Registered then Mark(w, s.clock, true)
    else RunHandler(w, true)
  }

  lemma HolderMoves(s: State, id: Id, w: nat)
    requires Holds(s, id, w)
    ensures Enabled(s, NextStep(s, w))
    ensures var t := Apply(s, NextStep(s, w));
            && t.fetched == s.fetched
            && (s.workers[w].stage != Marked ==> Holds(t, id, w) && StepsLeft(t.workers[w].stage) < StepsLeft(s.workers[w].stage))
  {
  }

  lemma OtherStays(s: State, id: Id, step: Step, w: nat, v: nat)
    requires (step.Register? || step.Mark? || step.RunHandler?) && step.w == w
    requires Enabled(s, step) && v != w && Holds(s, id, v)
    ensures Holds(Apply(s, step), id, v)
  {
  }

  /** A holder goes on to call the handler, and leaves the others as they are. */
  lemma {:induction false} HolderCalls(s: State, id: Id, w: nat) returns (t: State)
    requires Inv(s) && Holds(s, id, w)
    ensures CanReach(s, t) && Calls(t.ran, id) == Calls(s.ran, id) + 1
    ensures t.fetched == s.fetched && forall v :: v != w && Holds(s, id, v) ==> Holds(t, id, v)
    decreases StepsLeft(s.workers[w].stage)
  {
    var step := NextStep(s, w);
    HolderMoves(s, id, w);
    forall v | v != w && Holds(s, id, v) ensures Holds(Apply(s, step), id, v) {
      OtherStays(s, id, step, w, v);
    }
    StepCalls(s, step, id);
    StepKeepsInv(s, step);
    ReachOne(s, step);
    if s.workers[w].stage == Marked {
      t := Apply(s, step);
    } else {
      t := HolderCalls(Apply(s, step), id, w);
      ReachTwice(s, Apply(s, step), t);
    }
  }

  lemma FreeSlot(s: State) returns (t: State)
    requires Inv(s)
    ensures CanReach(s, t) && Inv(t) && t.slots < t.max && t.rows == s.rows && t.fetched == s.fetched && t.up == s.up
  {
    if s.slots < s.max {
      ReachSelf(s);
      t := s;
    } else {
      var w := SomeWorker(s);
      var steps := WorkerLeaves(s, w);
      t := Run(s, steps);
      assert Leads(s, steps, t);
    }
  }

  lemma AcquireHolds(s: State, id: Id)
    requires Inv(s) && DispatcherHolds(s, id) && s.slots < s.max
    ensures Enabled(s, Acquire) && Holds(Apply(s, Acquire), id, s.nextWorker)
    ensures Apply(s, Acquire).fetched == None && Apply(s, Acquire).rows == s.rows && Apply(s, Acquire).up == s.up
  {
  }

  lemma DispatcherCalls(s: State, id: Id) returns (t: State)
    requires Inv(s) && DispatcherHolds(s, id)
    ensures CanReach(s, t) && Calls(t.ran, id) >= Calls(s.ran, id) + 1
  {
    var a := FreeSlot(s);
    ReachKeeps(s, a);
    MoreCalls(s, a, id);
    AcquireHolds(a, id);
    var b := Apply(a, Acquire);
    ReachOne(a, Acquire);
    StepKeepsInv(a, Acquire);
    t := HolderCalls(b, id, a.nextWorker);
    ReachTwice(s, a, b);
    ReachTwice(s, b, t);
  }

  lemma SomeoneCalls(s: State, id: Id) returns (t: State)
    requires Inv(s) && !NoneHolds(s, id)
    ensures CanReach(s, t) && Calls(t.ran, id) >= Calls(s.ran, id) + 1
  {
    if DispatcherHolds(s, id) {
      t := DispatcherCalls(s, id);
    } else {
      var w: nat :| Holds(s, id, w);
      t := HolderCalls(s, id, w);
    }
  }

  lemma TwoCall(s: State, id: Id) returns (t: State)
    requires Inv(s) && id in s.rows && !OneHolds(s, id)
    ensures CanReach(s, t) && Calls(t.ran, id) >= Calls(s.ran, id) + 2
  {
    var w: nat;
    if DispatcherHolds(s, id) {
      w :| Holds(s, id, w);
    } else {
      var v: nat;
      v, w :| Holds(s, id, v) && Holds(s, id, w) && v != w;
    }
    var a := HolderCalls(s, id, w);
    ReachKeeps(s, a);
    t := SomeoneCalls(a, id);
    ReachTwice(s, a, t);
  }

  // ---------------------------------------------------------------- a queued command gets two holders

  ghost function Rivals(s: State, id: Id): set<Id> {
    set other | other in s.rows && other != id && s.rows[other].status == Queued
  }

  lemma CancelRival(s: State, id: Id, other: Id)
    requires s.up && other in Rivals(s, id)
    ensures var step := CancelWrite(other, s.clock, true);
            && Enabled(s, step)
            && var t := Apply(s, step);
               && Rivals(t, id) == Rivals(s, id) - {other}
               && (id in s.rows ==> id in t.rows && t.rows[id] == s.rows[id])
               && t.fetched == s.fetched && t.slots == s.slots && t.max == s.max && t.up
  {
  }

  /** The other queued commands can be cancelled. */
  lemma {:induction false} ClearQueue(s: State, id: Id) returns (t: State)
    requires Inv(s) && s.up && id in s.rows && s.rows[id].status == Queued
    ensures CanReach(s, t) && Inv(t) && IsNext(t.rows, id)
    ensures t.fetched == s.fetched && t.slots == s.slots && t.max == s.max && t.up
    decreases Rivals(s, id)
  {
    if Rivals(s, id) == {} {
      forall other | other in s.rows && s.rows[other].status == Queued ensures other == id {
        assert other !in Rivals(s, id);
      }
      ReachSelf(s);
      t := s;
    } else {
      var other: Id :| other in Rivals(s, id);
      var step := CancelWrite(other, s.clock, true);
      CancelRival(s, id, other);
      StepKeepsInv(s, step);
      ReachOne(s, step);
      t := ClearQueue(Apply(s, step), id);
      ReachTwice(s, Apply(s, step), t);
    }
  }

  lemma EmptyDispatcher(s: State) returns (t: State)
    requires Inv(s) && s.up
    ensures CanReach(s, t) && Inv(t) && t.fetched == None && t.rows == s.rows && t.up
  {
    if s.fetched == None {
      ReachSelf(s);
      t := s;
    } else {
      StepKeepsInv(s, Acquire);
      ReachOne(s, Acquire);
      t := Apply(s, Acquire);
    }
  }

  /** A free dispatcher, a free slot and no rival in the queue. */
  lemma FreeWay(s: State, id: Id) returns (t: State)
    requires Inv(s) && Dispatchable(s, id)
    ensures CanReach(s, t) && Inv(t) && Dispatchable(t, id) && IsNext(t.rows, id)
    ensures t.fetched == None && t.slots < t.max
  {
    var a := EmptyDispatcher(s);
    var b := FreeSlot(a);
    t := ClearQueue(b, id);
    ReachTwice(s, a, b);
    ReachTwice(s, b, t);
    ReachKeeps(s, t);
  }

  /** One dispatch, up to the worker's start, leaves the row in the queue. */
  lemma DispatchOnce(s: State, id: Id)
    requires Inv(s) && Dispatchable(s, id) && IsNext(s.rows, id) && s.fetched == None && s.slots < s.max
    ensures Enabled(s, Fetch(id)) && Enabled(Apply(s, Fetch(id)), Acquire)
    ensures var t := Apply(Apply(s, Fetch(id)), Acquire);
            && Inv(t) && CanReach(s, t) && Holds(t, id, s.nextWorker)
            && t.rows == s.rows && t.fetched == None && t.up && t.handlers == s.handlers && t.ran == s.ran
  {
    var a := Apply(s, Fetch(id));
    StepKeepsInv(s, Fetch(id));
    ReachOne(s, Fetch(id));
    AcquireHolds(a, id);
    StepKeepsInv(a, Acquire);
    ReachOne(a, Acquire);
    ReachTwice(s, a, Apply(a, Acquire));
  }

  /** Before the worker marks the row, the next query returns it again. */
  lemma TwoHold(s: State, id: Id) returns (t: State)
    requires Inv(s) && Dispatchable(s, id)
    ensures CanReach(s, t) && Inv(t) && id in t.rows && !OneHolds(t, id)
  {
    var a := FreeWay(s, id);
    DispatchOnce(a, id);
    var b := Apply(Apply(a, Fetch(id)), Acquire);
    ReachTwice(s, a, b);
    ReachOne(b, Fetch(id));
    StepKeepsInv(b, Fetch(id));
    t := Apply(b, Fetch(id));
    ReachTwice(s, b, t);
    assert Holds(t, id, a.nextWorker) && DispatcherHolds(t, id);
  }

  /**
   * Every command that is queued can have its handler called twice before the next start, whatever the limit and
   * whoever is busy: the row stays queued until the worker that was given it marks it.
   */
  lemma SlowWorkerRunsTwice(s: State, id: Id) returns (steps: seq<Step>)
    requires Inv(s) && Dispatchable(s, id)
    ensures CanRun(s, steps) && NoStart(steps) && Calls(Run(s, steps).ran, id) >= Calls(s.ran, id) + 2
  {
    var a := TwoHold(s, id);
    ReachKeeps(s, a);
    MoreCalls(s, a, id);
    var t := TwoCall(a, id);
    ReachTwice(s, a, t);
    steps :| Leads(s, steps, t);
  }

  // ---------------------------------------------------------------- the exact conditions

  ghost predicate AtMostMore(s: State, steps: seq<Step>, id: Id, n: nat) {
    CanRun(s, steps) && NoStart(steps) ==> Calls(Run(s, steps).ran, id) <= Calls(s.ran, id) + n
  }

  lemma Exceeds(s: State, t: State, id: Id, n: nat)
    requires CanReach(s, t) && Calls(t.ran, id) > Calls(s.ran, id) + n
    ensures exists steps :: !AtMostMore(s, steps, id, n)
  {
    var steps :| Leads(s, steps, t);
    assert !AtMostMore(s, steps, id, n);
  }

  /** No handler call for the command can come before the next start exactly when it is not queued and nobody holds it. */
  lemma NoMoreCallsIff(s: State, id: Id)
    requires Inv(s) && id in s.rows
    ensures (forall steps :: AtMostMore(s, steps, id, 0)) <==> !Dispatchable(s, id) && NoneHolds(s, id)
  {
    if Dispatchable(s, id) {
      var steps := SlowWorkerRunsTwice(s, id);
      assert !AtMostMore(s, steps, id, 0);
    } else if NoneHolds(s, id) {
      forall steps ensures AtMostMore(s, steps, id, 0) {
        if CanRun(s, steps) && NoStart(steps) {
          NoneNeverCalls(s, steps, id);
        }
      }
    } else {
      var t := SomeoneCalls(s, id);
      Exceeds(s, t, id, 0);
    }
  }

  /** At most one call can come exactly when the command is not queued and at most one holds it. */
  lemma OneMoreCallIff(s: State, id: Id)
    requires Inv(s) && id in s.rows
    ensures (forall steps :: AtMostMore(s, steps, id, 1)) <==> !Dispatchable(s, id) && OneHolds(s, id)
  {
    if Dispatchable(s, id) {
      var steps := SlowWorkerRunsTwice(s, id);
      assert !AtMostMore(s, steps, id, 1);
    } else if OneHolds(s, id) {
      forall steps ensures AtMostMore(s, steps, id, 1) {
        if CanRun(s, steps) && NoStart(steps) {
          OneCallsOnce(s, steps, id);
        }
      }
    } else {
      var t := TwoCall(s, id);
      Exceeds(s, t, id, 1);
    }
  }

  /** The handler has been called at most once since the last start, and stays so after these steps. */
  ghost predicate OncePerBoot(s: State, steps: seq<Step>, id: Id)
    requires Inv(s)
  {
    CanRun(s, steps) && NoStart(steps) ==>
      Run(s, steps).boot <= |Run(s, steps).ran| && Calls(RanNow(Run(s, steps)), id) <= 1
  }

  lemma CallsSinceBoot(s: State, steps: seq<Step>, id: Id)
    requires Inv(s) && CanRun(s, steps) && NoStart(steps)
    ensures Run(s, steps).boot <= |Run(s, steps).ran|
    ensures Calls(RanNow(Run(s, steps)), id) - Calls(RanNow(s), id) == Calls(Run(s, steps).ran, id) - Calls(s.ran, id)
  {
    RunSameBoot(s, steps);
    CallsFrom(s.ran, Run(s, steps).ran, s.boot, id);
  }

  lemma CallsFrom(a: seq<Id>, b: seq<Id>, n: nat, id: Id)
    requires n <= |a| && a <= b
    ensures Calls(b[n..], id) - Calls(a[n..], id) == Calls(b, id) - Calls(a, id)
  {
    assert b[..n] == a[..n];
    assert b == b[..n] + b[n..] && a == a[..n] + a[n..];
  }

  lemma OnceAsMore(s: State, id: Id, n: nat)
    requires Inv(s) && Calls(RanNow(s), id) + n == 1
    ensures (forall steps :: OncePerBoot(s, steps, id)) <==> (forall steps :: AtMostMore(s, steps, id, n))
  {
    forall steps ensures OncePerBoot(s, steps, id) <==> AtMostMore(s, steps, id, n) {
      if CanRun(s, steps) && NoStart(steps) {
        CallsSinceBoot(s, steps, id);
      }
    }
  }

  /**
   * The exact condition for "at most once between two starts": the command is not queued, and either it has not
   * been called since the last start and at most one of the dispatcher and the workers holds it, or it has been
   * called once and nobody does.
   */
  lemma OncePerStartIff(s: State, id: Id)
    requires Inv(s) && id in s.rows
    ensures (forall steps :: OncePerBoot(s, steps, id)) <==>
            && !Dispatchable(s, id)
            && (|| (Calls(RanNow(s), id) == 0 && OneHolds(s, id))
                || (Calls(RanNow(s), id) == 1 && NoneHolds(s, id)))
  {
    var c := Calls(RanNow(s), id);
    if c == 0 {
      OnceAsMore(s, id, 1);
      OneMoreCallIff(s, id);
    } else if c == 1 {
      OnceAsMore(s, id, 0);
      NoMoreCallsIff(s, id);
    } else {
      assert CanRun(s, []) && Run(s, []) == s;
      assert !OncePerBoot(s, [], id);
    }
  }
}
