/** Safety of the command queue over whole runs. */
module CommandSafety {
  import opened Options
  import opened CommandProtocol

  // ---------------------------------------------------------------- no command is lost

  predicate SameCommand(a: Row, b: Row) {
    a.name == b.name && a.priority == b.priority && a.trigger == b.trigger && a.queuedAt == b.queuedAt
  }

  lemma StepKeepsRows(s: State, step: Step, id: Id)
    requires Enabled(s, step) && id in s.rows
    ensures id in Apply(s, step).rows && SameCommand(s.rows[id], Apply(s, step).rows[id])
  {
    if step.Start? {
      StartKeepsRows(s, step, id);
    }
  }

  lemma StartKeepsRows(s: State, step: Step, id: Id)
    requires Enabled(s, step) && step.Start? && id in s.rows
    ensures id in Apply(s, step).rows && SameCommand(s.rows[id], Apply(s, step).rows[id])
  {
  }

  lemma {:induction false} RunKeepsRows(s: State, steps: seq<Step>, id: Id)
    requires CanRun(s, steps) && id in s.rows
    ensures id in Run(s, steps).rows && SameCommand(s.rows[id], Run(s, steps).rows[id])
    decreases |steps|
  {
    if steps != [] {
      StepKeepsRows(s, steps[0], id);
      RunKeepsRows(Apply(s, steps[0]), steps[1..], id);
    }
  }

  /**
   * A command once queued is there after every run, and it is queued, finished, or running under the
   * live worker that marked it, or waiting for recovery.
   */
  lemma NoCommandLost(s: State, steps: seq<Step>, id: Id)
    requires Inv(s) && CanRun(s, steps) && id in s.rows
    ensures var t := Run(s, steps);
            && id in t.rows && SameCommand(s.rows[id], t.rows[id])
            && (t.rows[id].status == Running ==> !t.up || id in t.lost || MarkedByLive(t, id))
  {
    EveryRunKeepsInv(s, steps);
    RunKeepsRows(s, steps, id);
  }

  /** After a start whose recovery succeeds nothing is running, and what was running is queued again. */
  lemma StartRecovers(s: State)
    requires Enabled(s, Start(true))
    ensures forall id :: id in s.rows ==>
              Apply(s, Start(true)).rows[id].status == if s.rows[id].status == Running then Queued else s.rows[id].status
  {
  }

  // ---------------------------------------------------------------- single steps

  /** Where the dispatcher's command comes from. */
  lemma StepFetched(s: State, step: Step)
    requires Enabled(s, step)
    ensures Apply(s, step).fetched == None || Apply(s, step).fetched == s.fetched ||
            (step.Fetch? && Apply(s, step).fetched == Some(step.id) && step.id in s.rows && s.rows[step.id].status == Queued)
  {
  }

  lemma StepRuns(s: State, step: Step)
    requires Enabled(s, step)
    ensures Apply(s, step).ran == s.ran + if step.RunHandler? then [s.workers[step.w].cmd] else []
  {
  }

  // ---------------------------------------------------------------- when every worker marks its row before the next query

  predicate PromptStep(s: State, step: Step) {
    match step
    case Fetch(_) => forall w :: w in s.workers ==> s.workers[w].stage != Started && s.workers[w].stage != Registered
    case Mark(_, _, ok) => ok
    case _ => true
  }

  ghost predicate PromptRun(s: State, steps: seq<Step>)
    requires CanRun(s, steps)
    decreases |steps|
  {
    steps == [] || (PromptStep(s, steps[0]) && PromptRun(Apply(s, steps[0]), steps[1..]))
  }

  /** Handler calls since the last start. */
  ghost function RanNow(s: State): seq<Id>
    requires s.boot <= |s.ran|
  {
    s.ran[s.boot..]
  }

  predicate BeforeMark(stage: Stage) {
    stage == Started || stage == Registered
  }

  ghost predicate NoDuplicates(ids: seq<Id>) {
    forall i, j :: 0 <= i < j < |ids| ==> ids[i] != ids[j]
  }

  /** At most one worker per command; every executing worker can be cancelled; no handler runs twice per start. */
  ghost predicate Exclusive(s: State) {
    && (forall v, w :: v in s.workers && w in s.workers && v != w ==> s.workers[v].cmd != s.workers[w].cmd)
    && (s.fetched != None ==> forall w :: w in s.workers ==> s.workers[w].cmd != s.fetched.value)
    && (forall w :: w in s.workers && HoldsCancel(s.workers[w].stage) ==>
          s.workers[w].cmd in s.running && s.running[s.workers[w].cmd] == w)
  }

  /** A worker past its mark has a row that is no longer queued. */
  ghost predicate MarkedNotQueued(s: State) {
    forall w :: w in s.workers && !BeforeMark(s.workers[w].stage) ==>
      s.workers[w].cmd in s.rows && s.rows[s.workers[w].cmd].status != Queued
  }

  /** Handlers are called once, and their commands are not queued again. */
  ghost predicate RanOnce(s: State) {
    && s.boot <= |s.ran| && NoDuplicates(RanNow(s))
    && (forall i :: s.boot <= i < |s.ran| ==> s.ran[i] in s.rows && s.rows[s.ran[i]].status != Queued)
  }

  /** What is on its way to a handler has not been to one since the last start. */
  ghost predicate NotYetRan(s: State) {
    && s.boot <= |s.ran|
    && (s.fetched != None ==> s.fetched.value !in RanNow(s))
    && (forall w :: w in s.workers && (BeforeMark(s.workers[w].stage) || s.workers[w].stage == Marked) ==>
          s.workers[w].cmd !in RanNow(s))
  }

  ghost predicate OncePerStart(s: State) {
    MarkedNotQueued(s) && RanOnce(s) && NotYetRan(s)
  }

  /** Only a start puts a row back into the queue. */
  lemma StepNeverRequeues(s: State, step: Step, id: Id)
    requires Enabled(s, step) && !step.Start? && id in s.rows && s.rows[id].status != Queued
    ensures id in Apply(s, step).rows && Apply(s, step).rows[id].status != Queued
  {
  }

  /** A worker past its mark was so before, or is marking its row now. */
  lemma StepPastMark(s: State, step: Step, w: nat)
    requires Enabled(s, step) && PromptStep(s, step)
    requires w in Apply(s, step).workers && !BeforeMark(Apply(s, step).workers[w].stage)
    ensures w in s.workers && s.workers[w].cmd == Apply(s, step).workers[w].cmd
    ensures !BeforeMark(s.workers[w].stage) || (step.Mark? && step.w == w && step.ok)
  {
  }

  lemma StepKeepsMarked(s: State, step: Step)
    requires Inv(s) && MarkedNotQueued(s) && Enabled(s, step) && PromptStep(s, step)
    ensures MarkedNotQueued(Apply(s, step))
  {
    var s' := Apply(s, step);
    forall w | w in s'.workers && !BeforeMark(s'.workers[w].stage)
      ensures s'.workers[w].cmd in s'.rows && s'.rows[s'.workers[w].cmd].status != Queued
    {
      StepPastMark(s, step, w);
      if !BeforeMark(s.workers[w].stage) && !step.Start? {
        StepNeverRequeues(s, step, s.workers[w].cmd);
      }
    }
  }

  lemma StepRanNow(s: State, step: Step)
    requires Inv(s) && Enabled(s, step)
    ensures Apply(s, step).boot <= |Apply(s, step).ran|
    ensures RanNow(Apply(s, step)) ==
            if step.Start? then [] else if step.RunHandler? then RanNow(s) + [s.workers[step.w].cmd] else RanNow(s)
  {
  }

  lemma StepKeepsRanOnce(s: State, step: Step)
    requires Inv(s) && OncePerStart(s) && Enabled(s, step) && PromptStep(s, step)
    ensures RanOnce(Apply(s, step))
  {
    StepRanNow(s, step);
    StepRuns(s, step);
    if !step.Start? {
      forall i | s.boot <= i < |s.ran| ensures s.ran[i] in Apply(s, step).rows && Apply(s, step).rows[s.ran[i]].status != Queued {
        StepNeverRequeues(s, step, s.ran[i]);
      }
      if step.RunHandler? {
        StepNeverRequeues(s, step, s.workers[step.w].cmd);
      }
    }
  }

  predicate BeforeHandler(stage: Stage) {
    BeforeMark(stage) || stage == Marked
  }

  /** Where the workers that have not called their handler yet come from. */
  lemma StepFresh(s: State, step: Step, v: nat)
    requires Enabled(s, step)
    requires v in Apply(s, step).workers && BeforeHandler(Apply(s, step).workers[v].stage)
    ensures || (v in s.workers && BeforeHandler(s.workers[v].stage) && s.workers[v].cmd == Apply(s, step).workers[v].cmd
                && !(step.RunHandler? && step.w == v))
            || (step.Acquire? && s.fetched == Some(Apply(s, step).workers[v].cmd))
  {
  }

  lemma StepKeepsNotYetRan(s: State, step: Step)
    requires Inv(s) && Exclusive(s) && OncePerStart(s) && Enabled(s, step) && PromptStep(s, step)
    ensures NotYetRan(Apply(s, step))
  {
    var s' := Apply(s, step);
    StepRanNow(s, step);
    StepFetched(s, step);
    forall v | v in s'.workers && BeforeHandler(s'.workers[v].stage) ensures s'.workers[v].cmd !in RanNow(s') {
      StepFresh(s, step, v);
    }
    RanNotQueued(s);
  }

  lemma RanNotQueued(s: State)
    requires RanOnce(s)
    ensures forall id :: id in RanNow(s) ==> id in s.rows && s.rows[id].status != Queued
  {
    assert forall i :: 0 <= i < |RanNow(s)| ==> RanNow(s)[i] == s.ran[s.boot + i];
  }

  lemma StepKeepsExclusiveOutside(s: State, step: Step)
    requires step.Queue? || step.CancelSignal? || step.CancelWrite? || step.Crash? || step.Start?
    requires RowsSane(s) && Exclusive(s) && Enabled(s, step)
    ensures Exclusive(Apply(s, step))
  {
  }

  lemma StepKeepsExclusiveMidway(s: State, step: Step)
    requires step.Mark? || step.RunHandler?
    requires Exclusive(s) && Enabled(s, step)
    ensures Exclusive(Apply(s, step))
  {
  }

  lemma StepKeepsExclusiveFinishing(s: State, step: Step)
    requires step.RejectUnknown? || step.WriteResult?
    requires Exclusive(s) && Enabled(s, step)
    ensures Exclusive(Apply(s, step))
  {
  }

  /** When all workers have marked their rows, the next queued row is none of theirs. */
  lemma FetchKeepsExclusive(s: State, id: Id)
    requires Exclusive(s) && MarkedNotQueued(s) && Enabled(s, Fetch(id)) && PromptStep(s, Fetch(id))
    ensures Exclusive(Apply(s, Fetch(id)))
  {
  }

  lemma AcquireKeepsExclusive(s: State)
    requires SlotsCounted(s) && CancelsLive(s) && Exclusive(s) && Enabled(s, Acquire)
    ensures Exclusive(Apply(s, Acquire))
  {
  }

  lemma StepKeepsExclusiveHolding(s: State, step: Step)
    requires step.Register? || step.Deregister? || step.Release?
    requires CancelsLive(s) && Exclusive(s) && Enabled(s, step)
    ensures Exclusive(Apply(s, step))
  {
  }

  lemma StepKeepsExclusive(s: State, step: Step)
    requires Inv(s) && Exclusive(s) && OncePerStart(s) && Enabled(s, step) && PromptStep(s, step)
    ensures Exclusive(Apply(s, step))
  {
    if step.Queue? || step.CancelSignal? || step.CancelWrite? || step.Crash? || step.Start? {
      StepKeepsExclusiveOutside(s, step);
    } else if step.Mark? || step.RunHandler? {
      StepKeepsExclusiveMidway(s, step);
    } else if step.RejectUnknown? || step.WriteResult? {
      StepKeepsExclusiveFinishing(s, step);
    } else if step.Fetch? {
      FetchKeepsExclusive(s, step.id);
    } else if step.Acquire? {
      AcquireKeepsExclusive(s);
    } else {
      StepKeepsExclusiveHolding(s, step);
    }
  }

  /** Every handler is called at most once between two starts, and a cancellation reaches every executing worker. */
  lemma {:induction false} PromptRunsAreExclusive(s: State, steps: seq<Step>)
    requires Inv(s) && Exclusive(s) && OncePerStart(s) && CanRun(s, steps) && PromptRun(s, steps)
    ensures Exclusive(Run(s, steps)) && OncePerStart(Run(s, steps))
    decreases |steps|
  {
    if steps != [] {
      StepKeepsInv(s, steps[0]);
      StepKeepsExclusive(s, steps[0]);
      StepKeepsMarked(s, steps[0]);
      StepKeepsRanOnce(s, steps[0]);
      StepKeepsNotYetRan(s, steps[0]);
      PromptRunsAreExclusive(Apply(s, steps[0]), steps[1..]);
    }
  }

  /** In such runs a cancellation signals whichever worker is executing the command. */
  lemma CancelReachesExecuting(s: State, w: nat)
    requires Inv(s) && Exclusive(s) && s.up && w in s.workers && HoldsCancel(s.workers[w].stage)
    ensures w in Apply(s, CancelSignal(s.workers[w].cmd)).signalled
  {
  }

  /** Before its first start the queue is in such a state. */
  lemma InitExclusive(maxConcurrent: int, handlers: set<string>)
    ensures Exclusive(Init(maxConcurrent, handlers)) && OncePerStart(Init(maxConcurrent, handlers))
  {
  }

  // ---------------------------------------------------------------- runs in parts

  lemma {:induction false} RunPrefix(s: State, a: seq<Step>, b: seq<Step>)
    requires CanRun(s, a) && CanRun(Run(s, a), b)
    ensures CanRun(s, a + b) && Run(s, a + b) == Run(Run(s, a), b)
    decreases |a|
  {
    if a == [] {
      assert a + b == b;
    } else {
      assert (a + b)[0] == a[0] && (a + b)[1..] == a[1..] + b;
      RunPrefix(Apply(s, a[0]), a[1..], b);
    }
  }

  lemma RunOne(s: State, step: Step)
    requires Enabled(s, step)
    ensures CanRun(s, [step]) && Run(s, [step]) == Apply(s, step)
  {
    assert [step][1..] == [];
    assert CanRun(Apply(s, step), []);
  }

  // ---------------------------------------------------------------- the order of dispatch

  /** The queued commands that the query would return before `id`. */
  ghost function Ahead(s: State, id: Id): set<Id>
    requires id in s.rows
  {
    set other | other in s.rows && s.rows[other].status == Queued && Before(s.rows[other], s.rows[id])
  }

  lemma AheadStep(s: State, step: Step, id: Id)
    requires Inv(s) && Enabled(s, step) && !step.Start? && id in s.rows
    ensures id in Apply(s, step).rows && Ahead(Apply(s, step), id) <= Ahead(s, id)
  {
    var s' := Apply(s, step);
    StepKeepsRows(s, step, id);
    forall other | other in Ahead(s', id) ensures other in Ahead(s, id) {
      if other in s.rows {
        StepKeepsRows(s, step, other);
        if s.rows[other].status != Queued {
          StepNeverRequeues(s, step, other);
        }
      } else {
        NewRowIsLast(s, step, other);
      }
    }
  }

  lemma NewRowIsLast(s: State, step: Step, other: Id)
    requires Inv(s) && Enabled(s, step) && other !in s.rows && other in Apply(s, step).rows
    ensures step.Queue? && Apply(s, step).rows[other].priority == 0 && Apply(s, step).rows[other].queuedAt >= s.clock
  {
  }

  ghost predicate NoStart(steps: seq<Step>) {
    forall i :: 0 <= i < |steps| ==> !steps[i].Start?
  }

  /** Between starts the commands ahead of a command never become more. */
  lemma {:induction false} AheadNeverGrows(s: State, steps: seq<Step>, id: Id)
    requires Inv(s) && CanRun(s, steps) && NoStart(steps) && id in s.rows
    ensures id in Run(s, steps).rows && Ahead(Run(s, steps), id) <= Ahead(s, id)
    decreases |steps|
  {
    if steps != [] {
      AheadStep(s, steps[0], id);
      StepKeepsInv(s, steps[0]);
      AheadNeverGrows(Apply(s, steps[0]), steps[1..], id);
    }
  }

  /** And each time another command is dispatched and leaves the queue, they become fewer. */
  lemma DispatchShortensTheQueue(s: State, steps: seq<Step>, first: Id, id: Id)
    requires Inv(s) && CanRun(s, steps) && NoStart(steps)
    requires IsNext(s.rows, first) && id in s.rows && s.rows[id].status == Queued && id != first
    requires s.rows[id].queuedAt != s.rows[first].queuedAt
    requires first in Run(s, steps).rows && Run(s, steps).rows[first].status != Queued
    ensures id in Run(s, steps).rows && |Ahead(Run(s, steps), id)| < |Ahead(s, id)|
  {
    AheadNeverGrows(s, steps, id);
    var before, after := Ahead(s, id), Ahead(Run(s, steps), id);
    assert first in before && first !in after;
    SmallerSet(after, before);
  }

  lemma {:induction false} SmallerSet<T>(a: set<T>, b: set<T>)
    requires a < b
    ensures |a| < |b|
  {
    var x :| x in b && x !in a;
    SubsetSize(a, b - {x});
  }

  lemma {:induction false} SubsetSize<T>(a: set<T>, b: set<T>)
    requires a <= b
    ensures |a| <= |b|
  {
    if a != {} {
      var x :| x in a;
      SubsetSize(a - {x}, b - {x});
    }
  }
}
