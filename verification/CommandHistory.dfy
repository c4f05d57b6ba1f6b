/** What the table says about a command, read against the history of the run. */
module CommandHistory {
  import opened Options
  import opened CommandProtocol
  import opened CommandSafety

  // ---------------------------------------------------------------- events of a run

  /** When step `i` is taken, `w` is a worker of command `id`. */
  ghost predicate WorkerAt(s: State, steps: seq<Step>, i: nat, w: nat, id: Id) {
    && i < |steps| && CanRun(s, steps[..i])
    && w in Run(s, steps[..i]).workers && Run(s, steps[..i]).workers[w].cmd == id
  }

  /** Step `i` is the write of the running status. */
  ghost predicate Marks(s: State, steps: seq<Step>, i: nat, w: nat, at: int, id: Id) {
    WorkerAt(s, steps, i, w, id) && steps[i] == Mark(w, at, true)
  }

  /** Step `i` is a call of the handler for `id`, which returns nil or an error. */
  ghost predicate Calls(s: State, steps: seq<Step>, i: nat, w: nat, returnsNil: bool, id: Id) {
    WorkerAt(s, steps, i, w, id) && steps[i] == RunHandler(w, returnsNil)
  }

  /** Step `i` is a worker's write after its handler has returned. */
  ghost predicate Writes(s: State, steps: seq<Step>, i: nat, w: nat, at: int, id: Id) {
    WorkerAt(s, steps, i, w, id) && steps[i] == WriteResult(w, at, true)
  }

  /** Step `i` is the write for a command without a handler. */
  ghost predicate Rejects(s: State, steps: seq<Step>, i: nat, w: nat, at: int, id: Id) {
    WorkerAt(s, steps, i, w, id) && steps[i] == RejectUnknown(w, at, true)
  }

  /** A worker of the command called its handler, and later wrote the result. */
  ghost predicate Returned(s: State, steps: seq<Step>, id: Id, returnsNil: bool, at: int) {
    exists i, j, w :: i < j && Calls(s, steps, i, w, returnsNil, id) && Writes(s, steps, j, w, at, id)
  }

  ghost predicate Rejected(s: State, steps: seq<Step>, id: Id, at: int) {
    exists i, w :: Rejects(s, steps, i, w, at, id)
  }

  ghost predicate MarkedAt(s: State, steps: seq<Step>, id: Id, at: int) {
    exists i, w :: Marks(s, steps, i, w, at, id)
  }

  // ---------------------------------------------------------------- what a row means

  /** The command was queued with just these fields. */
  ghost predicate HasOrigin(steps: seq<Step>, id: Id, row: Row) {
    row.priority == 0 && Queue(id, row.name, row.trigger, row.queuedAt) in steps
  }

  /** The status, with its time, has been written for what happened. */
  ghost predicate Explained(s: State, steps: seq<Step>, id: Id, row: Row) {
    match row.status
    case Queued => true
    case Running => row.startedAt.Some? && MarkedAt(s, steps, id, row.startedAt.value)
    case Completed => row.endedAt.Some? && Returned(s, steps, id, true, row.endedAt.value)
    case Failed => row.endedAt.Some? && (Returned(s, steps, id, false, row.endedAt.value) || Rejected(s, steps, id, row.endedAt.value))
    case Cancelled => row.endedAt.Some? && CancelWrite(id, row.endedAt.value, true) in steps
  }

  /** An executing worker has marked its row; one whose handler has returned has called it, with that result. */
  ghost predicate WorkerExplained(s: State, steps: seq<Step>, w: nat, worker: Worker) {
    && (Executing(worker.stage) ==> exists i, at :: Marks(s, steps, i, w, at, worker.cmd))
    && (worker.stage.Returned? ==> exists i :: Calls(s, steps, i, w, worker.stage.ok, worker.cmd))
  }

  ghost predicate RowsExplained(s: State, steps: seq<Step>, t: State) {
    forall id :: id in t.rows ==> HasOrigin(steps, id, t.rows[id]) && Explained(s, steps, id, t.rows[id])
  }

  ghost predicate WorkersExplained(s: State, steps: seq<Step>, t: State) {
    forall w :: w in t.workers ==>
      && t.workers[w].cmd in t.rows && t.workers[w].name == t.rows[t.workers[w].cmd].name
      && WorkerExplained(s, steps, w, t.workers[w])
  }

  // ---------------------------------------------------------------- events stay events

  lemma Earlier(steps: seq<Step>, x: Step, i: nat)
    requires i < |steps|
    ensures (steps + [x])[..i] == steps[..i] && (steps + [x])[i] == steps[i]
  {
  }

  lemma KeepReturned(s: State, steps: seq<Step>, x: Step, id: Id, returnsNil: bool, at: int)
    requires Returned(s, steps, id, returnsNil, at)
    ensures Returned(s, steps + [x], id, returnsNil, at)
  {
    var i, j, w :| i < j && Calls(s, steps, i, w, returnsNil, id) && Writes(s, steps, j, w, at, id);
    Earlier(steps, x, i);
    Earlier(steps, x, j);
    assert Calls(s, steps + [x], i, w, returnsNil, id) && Writes(s, steps + [x], j, w, at, id);
  }

  lemma KeepRejected(s: State, steps: seq<Step>, x: Step, id: Id, at: int)
    requires Rejected(s, steps, id, at)
    ensures Rejected(s, steps + [x], id, at)
  {
    var i, w :| Rejects(s, steps, i, w, at, id);
    Earlier(steps, x, i);
    assert Rejects(s, steps + [x], i, w, at, id);
  }

  lemma KeepMarked(s: State, steps: seq<Step>, x: Step, id: Id, at: int)
    requires MarkedAt(s, steps, id, at)
    ensures MarkedAt(s, steps + [x], id, at)
  {
    var i, w :| Marks(s, steps, i, w, at, id);
    Earlier(steps, x, i);
    assert Marks(s, steps + [x], i, w, at, id);
  }

  lemma KeepExplained(s: State, steps: seq<Step>, x: Step, id: Id, row: Row)
    requires Explained(s, steps, id, row)
    ensures Explained(s, steps + [x], id, row)
  {
    match row.status
    case Queued =>
    case Running => KeepMarked(s, steps, x, id, row.startedAt.value);
    case Completed => KeepReturned(s, steps, x, id, true, row.endedAt.value);
    case Failed =>
      if Returned(s, steps, id, false, row.endedAt.value) {
        KeepReturned(s, steps, x, id, false, row.endedAt.value);
      } else {
        KeepRejected(s, steps, x, id, row.endedAt.value);
      }
    case Cancelled =>
  }

  lemma KeepWorker(s: State, steps: seq<Step>, x: Step, w: nat, worker: Worker)
    requires WorkerExplained(s, steps, w, worker)
    ensures WorkerExplained(s, steps + [x], w, worker)
  {
    if Executing(worker.stage) {
      var i, at :| Marks(s, steps, i, w, at, worker.cmd);
      Earlier(steps, x, i);
      assert Marks(s, steps + [x], i, w, at, worker.cmd);
    }
    if worker.stage.Returned? {
      var i :| Calls(s, steps, i, w, worker.stage.ok, worker.cmd);
      Earlier(steps, x, i);
      assert Calls(s, steps + [x], i, w, worker.stage.ok, worker.cmd);
    }
  }

  // ---------------------------------------------------------------- one more step

  predicate WritesRow(t: State, x: Step, id: Id)
    requires Enabled(t, x)
  {
    match x
    case Queue(_, _, _, _) => x.id == id
    case Mark(w, _, ok) => ok && t.workers[w].cmd == id
    case RejectUnknown(w, _, ok) => ok && t.workers[w].cmd == id
    case WriteResult(w, _, ok) => ok && t.workers[w].cmd == id
    case CancelWrite(other, _, ok) => ok && other == id
    case Start(ok) => ok
    case _ => false
  }

  /** A step that writes nothing into a row leaves it as it is. */
  lemma RowStays(t: State, x: Step, id: Id)
    requires Enabled(t, x) && !WritesRow(t, x, id) && id in Apply(t, x).rows
    ensures id in t.rows && Apply(t, x).rows[id] == t.rows[id]
  {
  }

  /** What the writes write, time by time. */
  lemma RowWritten(t: State, x: Step, id: Id)
    requires Enabled(t, x) && WritesRow(t, x, id) && id in Apply(t, x).rows && RowsSane(t)
    ensures var row := Apply(t, x).rows[id];
            && (x.Queue? ==> row == Row(x.name, Queued, 0, x.trigger, x.now, None, None))
            && (!x.Queue? ==> id in t.rows && SameCommand(row, t.rows[id]))
            && (x.Mark? ==> row.status == Running && row.startedAt == Some(x.now))
            && (x.WriteResult? ==>
                  && row.status == (if t.workers[x.w].stage == Stage.Returned(true) then Completed else Failed)
                  && row.endedAt == Some(x.now))
            && (x.RejectUnknown? ==> row.status == Failed && row.endedAt == Some(x.now))
            && (x.CancelWrite? ==> row.status == Cancelled && row.endedAt == Some(x.now))
            && (x.Start? ==> if t.rows[id].status == Running then row.status == Queued else row == t.rows[id])
  {
  }

  lemma NowAt(s: State, steps: seq<Step>, x: Step, w: nat, id: Id)
    requires CanRun(s, steps) && w in Run(s, steps).workers && Run(s, steps).workers[w].cmd == id
    ensures WorkerAt(s, steps + [x], |steps|, w, id) && (steps + [x])[|steps|] == x
  {
    assert (steps + [x])[..|steps|] == steps;
  }

  /** A worker's result is written for what its handler returned. */
  lemma ResultExplained(s: State, steps: seq<Step>, x: Step)
    requires CanRun(s, steps) && Enabled(Run(s, steps), x) && x.WriteResult? && x.ok
    requires WorkersExplained(s, steps, Run(s, steps))
    ensures var worker := Run(s, steps).workers[x.w];
            Returned(s, steps + [x], worker.cmd, worker.stage.ok, x.now)
  {
    var worker := Run(s, steps).workers[x.w];
    assert WorkerExplained(s, steps, x.w, worker);
    var i :| Calls(s, steps, i, x.w, worker.stage.ok, worker.cmd);
    Earlier(steps, x, i);
    NowAt(s, steps, x, x.w, worker.cmd);
    assert Calls(s, steps + [x], i, x.w, worker.stage.ok, worker.cmd);
    assert Writes(s, steps + [x], |steps|, x.w, x.now, worker.cmd);
  }

  lemma WrittenExplained(s: State, steps: seq<Step>, x: Step, id: Id)
    requires CanRun(s, steps) && Enabled(Run(s, steps), x) && RowsSane(Run(s, steps))
    requires RowsExplained(s, steps, Run(s, steps)) && WorkersExplained(s, steps, Run(s, steps))
    requires WritesRow(Run(s, steps), x, id) && id in Apply(Run(s, steps), x).rows
    ensures Explained(s, steps + [x], id, Apply(Run(s, steps), x).rows[id])
  {
    var t := Run(s, steps);
    RowWritten(t, x, id);
    if x.Mark? {
      NowAt(s, steps, x, x.w, id);
      assert Marks(s, steps + [x], |steps|, x.w, x.now, id);
    } else if x.WriteResult? {
      ResultExplained(s, steps, x);
    } else if x.RejectUnknown? {
      NowAt(s, steps, x, x.w, id);
      assert Rejects(s, steps + [x], |steps|, x.w, x.now, id);
    } else if x.CancelWrite? {
      assert (steps + [x])[|steps|] == x;
    } else if x.Start? {
      KeepExplained(s, steps, x, id, t.rows[id]);
    }
  }

  lemma StepKeepsOrigin(s: State, steps: seq<Step>, x: Step, id: Id)
    requires CanRun(s, steps) && Enabled(Run(s, steps), x) && RowsSane(Run(s, steps))
    requires RowsExplained(s, steps, Run(s, steps)) && id in Apply(Run(s, steps), x).rows
    ensures HasOrigin(steps + [x], id, Apply(Run(s, steps), x).rows[id])
  {
    var t := Run(s, steps);
    if WritesRow(t, x, id) {
      RowWritten(t, x, id);
      assert x in steps + [x];
    } else {
      RowStays(t, x, id);
    }
  }

  lemma StepKeepsRowsExplained(s: State, steps: seq<Step>, x: Step)
    requires CanRun(s, steps) && Enabled(Run(s, steps), x) && RowsSane(Run(s, steps))
    requires RowsExplained(s, steps, Run(s, steps)) && WorkersExplained(s, steps, Run(s, steps))
    ensures RowsExplained(s, steps + [x], Apply(Run(s, steps), x))
  {
    var t := Run(s, steps);
    forall id | id in Apply(t, x).rows
      ensures HasOrigin(steps + [x], id, Apply(t, x).rows[id]) && Explained(s, steps + [x], id, Apply(t, x).rows[id])
    {
      StepKeepsOrigin(s, steps, x, id);
      if WritesRow(t, x, id) {
        WrittenExplained(s, steps, x, id);
      } else {
        RowStays(t, x, id);
        KeepExplained(s, steps, x, id, t.rows[id]);
      }
    }
  }

  predicate WorkerStep(x: Step, w: nat) {
    match x
    case Register(v) => v == w
    case Mark(v, _, _) => v == w
    case RunHandler(v, _) => v == w
    case RejectUnknown(v, _, _) => v == w
    case WriteResult(v, _, _) => v == w
    case Deregister(v) => v == w
    case _ => false
  }

  lemma WorkerStays(t: State, x: Step, w: nat)
    requires Enabled(t, x) && RowsSane(t) && w in Apply(t, x).workers && !WorkerStep(x, w)
    ensures var a := Apply(t, x).workers[w];
            || (w in t.workers && a == t.workers[w])
            || (x.Acquire? && a.stage == Started && a.cmd in t.rows && a.name == t.rows[a.cmd].name)
  {
  }

  lemma WorkerSteps(t: State, x: Step, w: nat)
    requires Enabled(t, x) && w in Apply(t, x).workers && WorkerStep(x, w)
    ensures var a := Apply(t, x).workers[w];
            && w in t.workers && a.cmd == t.workers[w].cmd && a.name == t.workers[w].name
            && (Executing(a.stage) ==> (x.Mark? && x == Mark(w, x.now, true)) || (Executing(t.workers[w].stage) && x.RunHandler?))
            && (a.stage.Returned? ==> x == RunHandler(w, a.stage.ok))
  {
  }

  /** How a worker has come to its stage. */
  lemma WorkerMoves(t: State, x: Step, w: nat)
    requires Enabled(t, x) && RowsSane(t) && w in Apply(t, x).workers
    ensures var a := Apply(t, x).workers[w];
            || (w in t.workers && a == t.workers[w])
            || (x.Acquire? && a.stage == Started && a.cmd in t.rows && a.name == t.rows[a.cmd].name)
            || (&& w in t.workers && a.cmd == t.workers[w].cmd && a.name == t.workers[w].name
                && (Executing(a.stage) ==> (x.Mark? && x == Mark(w, x.now, true)) || (Executing(t.workers[w].stage) && x.RunHandler?))
                && (a.stage.Returned? ==> x == RunHandler(w, a.stage.ok)))
  {
    if WorkerStep(x, w) {
      WorkerSteps(t, x, w);
    } else {
      WorkerStays(t, x, w);
    }
  }

  lemma StepKeepsWorker(s: State, steps: seq<Step>, x: Step, w: nat)
    requires CanRun(s, steps) && Enabled(Run(s, steps), x) && RowsSane(Run(s, steps))
    requires WorkersExplained(s, steps, Run(s, steps)) && w in Apply(Run(s, steps), x).workers
    ensures WorkerExplained(s, steps + [x], w, Apply(Run(s, steps), x).workers[w])
  {
    var t := Run(s, steps);
    var a := Apply(t, x).workers[w];
    WorkerMoves(t, x, w);
    if w in t.workers {
      KeepWorker(s, steps, x, w, t.workers[w]);
      if a != t.workers[w] && a.cmd == t.workers[w].cmd {
        NowAt(s, steps, x, w, a.cmd);
        if x.Mark? && x == Mark(w, x.now, true) {
          assert Marks(s, steps + [x], |steps|, w, x.now, a.cmd);
        }
        if a.stage.Returned? && x == RunHandler(w, a.stage.ok) {
          assert Calls(s, steps + [x], |steps|, w, a.stage.ok, a.cmd);
        }
      }
    }
  }

  lemma StepKeepsNames(t: State, x: Step, w: nat)
    requires Enabled(t, x) && RowsSane(t) && w in Apply(t, x).workers
    requires w in t.workers ==> t.workers[w].cmd in t.rows && t.workers[w].name == t.rows[t.workers[w].cmd].name
    ensures var a := Apply(t, x).workers[w];
            a.cmd in Apply(t, x).rows && a.name == Apply(t, x).rows[a.cmd].name
  {
    WorkerMoves(t, x, w);
    StepKeepsRows(t, x, Apply(t, x).workers[w].cmd);
  }

  lemma StepKeepsWorkersExplained(s: State, steps: seq<Step>, x: Step)
    requires CanRun(s, steps) && Enabled(Run(s, steps), x) && RowsSane(Run(s, steps))
    requires WorkersExplained(s, steps, Run(s, steps))
    ensures WorkersExplained(s, steps + [x], Apply(Run(s, steps), x))
  {
    forall w | w in Apply(Run(s, steps), x).workers
      ensures var a := Apply(Run(s, steps), x).workers[w];
              && a.cmd in Apply(Run(s, steps), x).rows && a.name == Apply(Run(s, steps), x).rows[a.cmd].name
              && WorkerExplained(s, steps + [x], w, a)
    {
      StepKeepsNames(Run(s, steps), x, w);
      StepKeepsWorker(s, steps, x, w);
    }
  }

  // ---------------------------------------------------------------- whole runs

  lemma {:induction false} RunBefore(s: State, steps: seq<Step>, i: nat)
    requires CanRun(s, steps) && i <= |steps|
    ensures CanRun(s, steps[..i]) && (i < |steps| ==> Enabled(Run(s, steps[..i]), steps[i]))
    decreases i
  {
    if i > 0 {
      assert steps[..i][0] == steps[0] && steps[..i][1..] == steps[1..][..i - 1];
      RunBefore(Apply(s, steps[0]), steps[1..], i - 1);
    }
  }

  lemma OneMore(s: State, steps: seq<Step>, x: Step)
    requires CanRun(s, steps) && Enabled(Run(s, steps), x)
    ensures CanRun(s, steps + [x]) && Run(s, steps + [x]) == Apply(Run(s, steps), x)
  {
    RunOne(Run(s, steps), x);
    RunPrefix(s, steps, [x]);
  }

  lemma LastStep(s: State, steps: seq<Step>) returns (before: seq<Step>, x: Step)
    requires CanRun(s, steps) && steps != []
    ensures steps == before + [x] && CanRun(s, before) && Enabled(Run(s, before), x)
    ensures Run(s, steps) == Apply(Run(s, before), x)
  {
    var n := |steps| - 1;
    before, x := steps[..n], steps[n];
    RunBefore(s, steps, n);
    OneMore(s, before, x);
  }

  ghost predicate New(s: State) {
    Inv(s) && s.rows == map[] && s.workers == map[]
  }

  /**
   * In every run of a new scheduler every row was queued with the fields it has, and its status is true: running
   * was written by a worker that marked it; completed by one whose handler returned nil; failed by one whose
   * handler returned an error, or for want of a handler; cancelled by a cancellation; each with the time of that write.
   */
  lemma {:induction false} EveryRowIsExplained(s: State, steps: seq<Step>)
    requires New(s) && CanRun(s, steps)
    ensures RowsExplained(s, steps, Run(s, steps)) && WorkersExplained(s, steps, Run(s, steps))
    decreases |steps|
  {
    if steps != [] {
      var before, x := LastStep(s, steps);
      EveryRowIsExplained(s, before);
      EveryRunKeepsInv(s, before);
      StepKeepsRowsExplained(s, before, x);
      StepKeepsWorkersExplained(s, before, x);
    }
  }

  lemma InitIsNew(maxConcurrent: int, handlers: set<string>)
    ensures New(Init(maxConcurrent, handlers))
    ensures Init(maxConcurrent, handlers).max == if maxConcurrent > 0 then maxConcurrent else 3
    ensures Init(maxConcurrent, handlers).handlers == handlers
  {
  }

  /** A completed row has a handler that returned nil, and ended when that was written. */
  lemma CompletedMeansReturned(maxConcurrent: int, handlers: set<string>, steps: seq<Step>, id: Id)
    requires CanRun(Init(maxConcurrent, handlers), steps)
    requires var t := Run(Init(maxConcurrent, handlers), steps); id in t.rows && t.rows[id].status == Completed
    ensures var s := Init(maxConcurrent, handlers);
            var ended := Run(s, steps).rows[id].endedAt;
            && ended.Some?
            && exists i: nat, j: nat, w: nat :: i < j < |steps| && WorkerAt(s, steps, i, w, id)
                 && steps[i] == RunHandler(w, true) && steps[j] == WriteResult(w, ended.value, true)
  {
    var s := Init(maxConcurrent, handlers);
    InitIsNew(maxConcurrent, handlers);
    EveryRowIsExplained(s, steps);
    var at := Run(s, steps).rows[id].endedAt.value;
    assert Returned(s, steps, id, true, at);
    var i, j, w :| i < j && Calls(s, steps, i, w, true, id) && Writes(s, steps, j, w, at, id);
    assert WorkerAt(s, steps, i, w, id);
  }

  /** A failed row has a handler that returned an error, or none at all. */
  lemma FailedMeansError(maxConcurrent: int, handlers: set<string>, steps: seq<Step>, id: Id)
    requires CanRun(Init(maxConcurrent, handlers), steps)
    requires var t := Run(Init(maxConcurrent, handlers), steps); id in t.rows && t.rows[id].status == Failed
    ensures var s := Init(maxConcurrent, handlers);
            var ended := Run(s, steps).rows[id].endedAt;
            && ended.Some?
            && (|| (exists i: nat, j: nat, w: nat :: i < j < |steps| && WorkerAt(s, steps, i, w, id)
                      && steps[i] == RunHandler(w, false) && steps[j] == WriteResult(w, ended.value, true))
                || (exists j: nat, w: nat :: WorkerAt(s, steps, j, w, id) && steps[j] == RejectUnknown(w, ended.value, true)))
  {
    var s := Init(maxConcurrent, handlers);
    InitIsNew(maxConcurrent, handlers);
    EveryRowIsExplained(s, steps);
    var at := Run(s, steps).rows[id].endedAt.value;
    if Returned(s, steps, id, false, at) {
      var i, j, w :| i < j && Calls(s, steps, i, w, false, id) && Writes(s, steps, j, w, at, id);
      assert WorkerAt(s, steps, i, w, id);
    } else {
      var i, w :| Rejects(s, steps, i, w, at, id);
      assert WorkerAt(s, steps, i, w, id);
    }
  }

  /** Every queued name has a handler, and no handler returns an error. */
  ghost predicate AllSucceed(handlers: set<string>, steps: seq<Step>) {
    forall i :: 0 <= i < |steps| ==>
      match steps[i]
      case Queue(_, name, _, _) => name in handlers
      case RunHandler(_, succeeded) => succeeded
      case _ => true
  }

  lemma {:induction false} HandlersStay(s: State, steps: seq<Step>)
    requires CanRun(s, steps)
    ensures Run(s, steps).handlers == s.handlers
    decreases |steps|
  {
    if steps != [] {
      HandlersStay(Apply(s, steps[0]), steps[1..]);
    }
  }

  /** With a handler for every name no command is rejected. */
  lemma NoRejection(maxConcurrent: int, handlers: set<string>, steps: seq<Step>, i: nat)
    requires CanRun(Init(maxConcurrent, handlers), steps) && AllSucceed(handlers, steps) && i < |steps|
    ensures !steps[i].RejectUnknown?
  {
    var s, before := Init(maxConcurrent, handlers), steps[..i];
    InitIsNew(maxConcurrent, handlers);
    RunBefore(s, steps, i);
    EveryRowIsExplained(s, before);
    HandlersStay(s, before);
    var t := Run(s, before);
    forall w | w in t.workers ensures t.workers[w].name in handlers {
      var id := t.workers[w].cmd;
      assert HasOrigin(before, id, t.rows[id]);
      var k :| 0 <= k < i && before[k] == Queue(id, t.rows[id].name, t.rows[id].trigger, t.rows[id].queuedAt);
      assert steps[k] == before[k];
    }
  }

  /** So when every call succeeds and every name has a handler, no row says failed. */
  lemma NothingFails(maxConcurrent: int, handlers: set<string>, steps: seq<Step>, id: Id)
    requires CanRun(Init(maxConcurrent, handlers), steps) && AllSucceed(handlers, steps)
    requires id in Run(Init(maxConcurrent, handlers), steps).rows
    ensures Run(Init(maxConcurrent, handlers), steps).rows[id].status != Failed
  {
    var s := Init(maxConcurrent, handlers);
    InitIsNew(maxConcurrent, handlers);
    EveryRowIsExplained(s, steps);
    var row := Run(s, steps).rows[id];
    if row.status == Failed {
      forall i | 0 <= i < |steps| ensures !steps[i].RejectUnknown? && (steps[i].RunHandler? ==> steps[i].succeeded) {
        NoRejection(maxConcurrent, handlers, steps, i);
      }
      NoFailureIsExplained(s, steps, id, row);
    }
  }

  lemma NoFailureIsExplained(s: State, steps: seq<Step>, id: Id, row: Row)
    requires forall i :: 0 <= i < |steps| ==> !steps[i].RejectUnknown? && (steps[i].RunHandler? ==> steps[i].succeeded)
    ensures Explained(s, steps, id, row) ==> row.status != Failed
  {
  }

  /** A handler is called only by a worker that has marked its row before. */
  lemma CalledOnlyWhenMarked(s: State, steps: seq<Step>, i: nat, w: nat, returnsNil: bool, id: Id)
    requires New(s) && CanRun(s, steps) && Calls(s, steps, i, w, returnsNil, id)
    ensures exists j: nat, at :: j < i && WorkerAt(s, steps, j, w, id) && steps[j] == Mark(w, at, true)
  {
    var before := steps[..i];
    RunBefore(s, steps, i);
    EveryRowIsExplained(s, before);
    MarkedBefore(s, steps, i, w, Run(s, before).workers[w]);
  }

  lemma MarkedBefore(s: State, steps: seq<Step>, i: nat, w: nat, worker: Worker)
    requires i <= |steps| && WorkerExplained(s, steps[..i], w, worker) && Executing(worker.stage)
    ensures exists j: nat, at :: j < i && WorkerAt(s, steps, j, w, worker.cmd) && steps[j] == Mark(w, at, true)
  {
    var before := steps[..i];
    var j: nat, at :| Marks(s, before, j, w, at, worker.cmd);
    assert before[..j] == steps[..j] && before[j] == steps[j];
    assert WorkerAt(s, steps, j, w, worker.cmd);
  }

  // ---------------------------------------------------------------- what a worker writes when it can

  /** The worker has called its handler with that result, or is gone. */
  ghost predicate HasCalled(t: State, w: nat, returnsNil: bool, id: Id) {
    && w < t.nextWorker
    && (w in t.workers ==>
          && t.workers[w].cmd == id
          && t.workers[w].stage in {Stage.Returned(returnsNil), Leaving, Deregistered})
  }

  lemma StepKeepsCalled(t: State, x: Step, w: nat, returnsNil: bool, id: Id)
    requires Enabled(t, x) && HasCalled(t, w, returnsNil, id)
    ensures HasCalled(Apply(t, x), w, returnsNil, id)
  {
  }

  lemma {:induction false} StillCalled(s: State, steps: seq<Step>, i: nat, w: nat, returnsNil: bool, id: Id)
    requires Inv(s) && CanRun(s, steps) && Calls(s, steps, i, w, returnsNil, id)
    ensures HasCalled(Run(s, steps), w, returnsNil, id)
    decreases |steps|
  {
    var before, x := LastStep(s, steps);
    EveryRunKeepsInv(s, before);
    assert steps[..|before|] == before;
    if i < |before| {
      assert before[..i] == steps[..i] && before[i] == steps[i];
      StillCalled(s, before, i, w, returnsNil, id);
      StepKeepsCalled(Run(s, before), x, w, returnsNil, id);
    }
  }

  /**
   * After the call the worker's write, if it works, ends the row as completed or as failed, for what the handler
   * returned, with the time of the write.
   */
  lemma ResultIsWritten(s: State, steps: seq<Step>, i: nat, w: nat, returnsNil: bool, id: Id, now: int)
    requires New(s) && CanRun(s, steps) && Calls(s, steps, i, w, returnsNil, id)
    requires Enabled(Run(s, steps), WriteResult(w, now, true))
    ensures var row := Apply(Run(s, steps), WriteResult(w, now, true)).rows;
            && id in row && row[id].endedAt == Some(now)
            && (returnsNil ==> row[id].status == Completed) && (!returnsNil ==> row[id].status == Failed)
  {
    EveryRunKeepsInv(s, steps);
    StillCalled(s, steps, i, w, returnsNil, id);
  }

  /** Commands are served in the order of their queueing: the dispatcher takes one that waits longest. */
  lemma FirstComeFirstServed(maxConcurrent: int, handlers: set<string>, steps: seq<Step>, id: Id, other: Id)
    requires CanRun(Init(maxConcurrent, handlers), steps) && Enabled(Run(Init(maxConcurrent, handlers), steps), Fetch(id))
    ensures var rows := Run(Init(maxConcurrent, handlers), steps).rows;
            && id in rows && rows[id].status == Queued
            && (other in rows && rows[other].status == Queued ==> rows[id].queuedAt <= rows[other].queuedAt)
  {
    var s := Init(maxConcurrent, handlers);
    InitIsNew(maxConcurrent, handlers);
    EveryRowIsExplained(s, steps);
    var rows := Run(s, steps).rows;
    assert HasOrigin(steps, id, rows[id]);
    if other in rows && rows[other].status == Queued {
      assert HasOrigin(steps, other, rows[other]);
      assert !Before(rows[other], rows[id]);
    }
  }
}
