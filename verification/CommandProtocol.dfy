/**
 * The command queue as interleaved atomic steps: the dispatcher, the worker goroutines, cancellation,
 * crashes and restarts. Every database write of a worker may fail.
 */
module CommandProtocol {
  import opened Options

  /** A command id. */
  datatype Id = Uuid(bits: nat)

  datatype Status = Queued | Running | Completed | Failed | Cancelled

  datatype Trigger = Manual | Scheduled

  /** A row of the commands table; times are seconds. */
  datatype Row = Row(name: string, status: Status, priority: int, trigger: Trigger,
                     queuedAt: int, startedAt: Option<int>, endedAt: Option<int>)

  /**
   * How far executeCommand has come: slot acquired, cancel function stored, row marked running,
   * handler returned, on the way out, cancel function deleted.
   */
  datatype Stage = Started | Registered | Marked | Returned(ok: bool) | Leaving | Deregistered

  datatype Worker = Worker(cmd: Id, name: string, stage: Stage)

  datatype State = State(
    up: bool,                  // the process is running
    clock: int,
    rows: map<Id, Row>,
    handlers: set<string>,
    max: nat,                  // capacity of workerSem
    slots: nat,                // length of workerSem
    running: map<Id, nat>,     // command -> the worker whose cancel function is stored
    workers: map<nat, Worker>, // live goroutines
    nextWorker: nat,
    fetched: Option<Id>,       // what the dispatcher holds between its query and its select
    signalled: set<nat>,       // workers whose context was cancelled
    // history
    markedBy: map<Id, nat>,    // the worker that last wrote 'running'
    lost: set<Id>,             // rows whose last worker could not write its result, or that Start could not recover
    ran: seq<Id>,              // all handler calls, in order
    boot: nat)                 // how many of them were before the last start

  datatype Step =
    | Queue(id: Id, name: string, trigger: Trigger, now: int)
    | Fetch(id: Id)
    | Acquire
    | Register(w: nat)
    | Mark(w: nat, now: int, ok: bool)
    | RunHandler(w: nat, succeeded: bool)
    | RejectUnknown(w: nat, now: int, ok: bool)
    | WriteResult(w: nat, now: int, ok: bool)
    | Deregister(w: nat)
    | Release(w: nat)
    | CancelSignal(id: Id)
    | CancelWrite(id: Id, now: int, ok: bool)
    | Crash
    | Start(ok: bool)

  /** New: maxConcurrent <= 0 becomes 3. */
  function Init(maxConcurrent: int, handlers: set<string>): State {
    State(false, 0, map[], handlers, if maxConcurrent <= 0 then 3 else maxConcurrent, 0, map[], map[], 0, None, {}, map[], {}, [], 0)
  }

  /** Row `a` comes before row `b` in ORDER BY priority DESC, queued_at ASC. */
  predicate Before(a: Row, b: Row) {
    a.priority > b.priority || (a.priority == b.priority && a.queuedAt < b.queuedAt)
  }

  /** `id` may be the row of the query for the next queued command. */
  predicate IsNext(rows: map<Id, Row>, id: Id) {
    id in rows && rows[id].status == Queued
    && forall other :: other in rows && rows[other].status == Queued ==> !Before(rows[other], rows[id])
  }

  predicate At(s: State, w: nat, stage: Stage) {
    w in s.workers && s.workers[w].stage == stage
  }

  predicate Enabled(s: State, step: Step) {
    match step
    case Queue(id, name, trigger, now) => s.up && id !in s.rows && now >= s.clock
    case Fetch(id) => s.up && s.fetched == None && IsNext(s.rows, id)
    case Acquire => s.up && s.fetched != None && s.fetched.value in s.rows
    case Register(w) => At(s, w, Started)
    case Mark(w, now, ok) => At(s, w, Registered) && now >= s.clock
    case RunHandler(w, succeeded) => At(s, w, Marked) && s.workers[w].name in s.handlers
    case RejectUnknown(w, now, ok) => At(s, w, Marked) && s.workers[w].name !in s.handlers && now >= s.clock
    case WriteResult(w, now, ok) => w in s.workers && s.workers[w].stage.Returned? && now >= s.clock
    case Deregister(w) => At(s, w, Leaving)
    case Release(w) => At(s, w, Deregistered) && s.slots > 0
    case CancelSignal(id) => s.up
    case CancelWrite(id, now, ok) => s.up && now >= s.clock
    case Crash => s.up
    case Start(ok) => !s.up
  }

  function MoveTo(workers: map<nat, Worker>, w: nat, stage: Stage): map<nat, Worker>
    requires w in workers
  {
    workers[w := workers[w].(stage := stage)]
  }

  function WithStatus(row: Row, status: Status, now: int): Row {
    if status == Running then row.(status := Running, startedAt := Some(now))
    else if status == Queued then row.(status := Queued)
    else row.(status := status, endedAt := Some(now))
  }

  /** updateCommandStatus: a row that does not exist is not created. */
  function SetStatus(rows: map<Id, Row>, id: Id, status: Status, now: int): map<Id, Row> {
    if id in rows then rows[id := WithStatus(rows[id], status, now)] else rows
  }

  /** The last write of a worker; if it fails the row stays as it is. */
  function Finish(s: State, w: nat, status: Status, now: int, ok: bool): State
    requires w in s.workers
  {
    s.(clock := now, workers := MoveTo(s.workers, w, Leaving),
       rows := if ok then SetStatus(s.rows, s.workers[w].cmd, status, now) else s.rows,
       lost := if ok then s.lost else s.lost + {s.workers[w].cmd})
  }

  /** recoverOrphanedCommands */
  function Recovered(rows: map<Id, Row>): map<Id, Row> {
    map id | id in rows :: if rows[id].status == Running then rows[id].(status := Queued) else rows[id]
  }

  /** What a failed recovery leaves behind. */
  function StillRunning(rows: map<Id, Row>): set<Id> {
    set id | id in rows && rows[id].status == Running
  }

  function Apply(s: State, step: Step): State
    requires Enabled(s, step)
  {
    match step
    case Queue(id, name, trigger, now) =>
      s.(clock := now, rows := s.rows[id := Row(name, Queued, 0, trigger, now, None, None)])
    case Fetch(id) => s.(fetched := Some(id))
    case Acquire =>
      var id := s.fetched.value;
      if s.slots < s.max then
        s.(fetched := None, slots := s.slots + 1, nextWorker := s.nextWorker + 1,
           workers := s.workers[s.nextWorker := Worker(id, s.rows[id].name, Started)])
      else s.(fetched := None)
    case Register(w) =>
      s.(workers := MoveTo(s.workers, w, Registered), running := s.running[s.workers[w].cmd := w])
    case Mark(w, now, ok) =>
      var id := s.workers[w].cmd;
      if ok then
        s.(clock := now, workers := MoveTo(s.workers, w, Marked), rows := SetStatus(s.rows, id, Running, now),
           markedBy := s.markedBy[id := w], lost := s.lost - {id})
      else s.(clock := now, workers := MoveTo(s.workers, w, Leaving))
    case RunHandler(w, succeeded) =>
      s.(workers := MoveTo(s.workers, w, Returned(succeeded)), ran := s.ran + [s.workers[w].cmd])
    case RejectUnknown(w, now, ok) => Finish(s, w, Failed, now, ok)
    case WriteResult(w, now, ok) => Finish(s, w, if s.workers[w].stage.ok then Completed else Failed, now, ok)
    case Deregister(w) =>
      s.(workers := MoveTo(s.workers, w, Deregistered), running := s.running - {s.workers[w].cmd})
    case Release(w) => s.(workers := s.workers - {w}, slots := s.slots - 1)
    case CancelSignal(id) => if id in s.running then s.(signalled := s.signalled + {s.running[id]}) else s
    case CancelWrite(id, now, ok) =>
      s.(clock := now, rows := if ok then SetStatus(s.rows, id, Cancelled, now) else s.rows)
    case Crash =>
      s.(up := false, slots := 0, running := map[], workers := map[], fetched := None, signalled := {})
    case Start(ok) =>
      if ok then s.(up := true, rows := Recovered(s.rows), lost := {}, boot := |s.ran|)
      else s.(up := true, lost := StillRunning(s.rows), boot := |s.ran|)
  }

  /** All steps are enabled one after the other. */
  ghost predicate CanRun(s: State, steps: seq<Step>)
    decreases |steps|
  {
    steps == [] || (Enabled(s, steps[0]) && CanRun(Apply(s, steps[0]), steps[1..]))
  }

  ghost function Run(s: State, steps: seq<Step>): State
    requires CanRun(s, steps)
    decreases |steps|
  {
    if steps == [] then s else Run(Apply(s, steps[0]), steps[1..])
  }

  // ---------------------------------------------------------------- what every run keeps

  predicate HoldsCancel(stage: Stage) {
    stage == Registered || stage == Marked || stage.Returned? || stage == Leaving
  }

  predicate Executing(stage: Stage) {
    stage == Marked || stage.Returned?
  }

  /** The workers holding a slot are counted exactly by the semaphore. */
  ghost predicate SlotsCounted(s: State) {
    s.slots == |s.workers| <= s.max && s.max > 0 && forall w :: w in s.workers ==> w < s.nextWorker
  }

  /** Every stored cancel function belongs to a live worker of that command. */
  ghost predicate CancelsLive(s: State) {
    forall id :: id in s.running ==>
      s.running[id] in s.workers && s.workers[s.running[id]].cmd == id && HoldsCancel(s.workers[s.running[id]].stage)
  }

  ghost predicate MarkedByLive(s: State, id: Id) {
    id in s.markedBy && s.markedBy[id] in s.workers
    && s.workers[s.markedBy[id]].cmd == id && Executing(s.workers[s.markedBy[id]].stage)
  }

  /** Every running row has the live worker that wrote it, or its writer failed to write a result. */
  ghost predicate RunningOwned(s: State) {
    forall id :: id in s.rows && s.rows[id].status == Running ==> !s.up || id in s.lost || MarkedByLive(s, id)
  }

  ghost predicate RowsSane(s: State) {
    && (forall id :: id in s.rows ==> s.rows[id].priority == 0 && s.rows[id].queuedAt <= s.clock)
    && (forall w :: w in s.workers ==> s.workers[w].cmd in s.rows)
    && (s.fetched != None ==> s.fetched.value in s.rows)
    && s.boot <= |s.ran|
    && (!s.up ==> s.workers == map[] && s.slots == 0 && s.running == map[] && s.fetched == None)
  }

  ghost predicate Inv(s: State) {
    SlotsCounted(s) && CancelsLive(s) && RunningOwned(s) && RowsSane(s)
  }

  lemma InitInv(maxConcurrent: int, handlers: set<string>)
    ensures Inv(Init(maxConcurrent, handlers))
  {
  }

  /** A worker that moves on does not change the number of workers. */
  lemma MoveCounts(workers: map<nat, Worker>, w: nat, stage: Stage)
    requires w in workers
    ensures MoveTo(workers, w, stage).Keys == workers.Keys && |MoveTo(workers, w, stage)| == |workers|
  {
    assert MoveTo(workers, w, stage).Keys == workers.Keys;
  }

  lemma QueueKeeps(s: State, id: Id, name: string, trigger: Trigger, now: int)
    requires Inv(s) && Enabled(s, Queue(id, name, trigger, now))
    ensures Inv(Apply(s, Queue(id, name, trigger, now)))
  {
  }

  lemma FetchKeeps(s: State, id: Id)
    requires Inv(s) && Enabled(s, Fetch(id))
    ensures Inv(Apply(s, Fetch(id)))
  {
  }

  lemma OneMoreWorker(workers: map<nat, Worker>, w: nat, worker: Worker)
    requires w !in workers
    ensures |workers[w := worker]| == |workers| + 1
  {
    assert workers[w := worker].Keys == workers.Keys + {w};
  }

  lemma OneWorkerLess(workers: map<nat, Worker>, w: nat)
    requires w in workers
    ensures |workers - {w}| == |workers| - 1
  {
    assert (workers - {w}).Keys == workers.Keys - {w};
  }

  lemma AcquireCounts(s: State)
    requires SlotsCounted(s) && Enabled(s, Acquire)
    ensures SlotsCounted(Apply(s, Acquire))
  {
    var id := s.fetched.value;
    OneMoreWorker(s.workers, s.nextWorker, Worker(id, s.rows[id].name, Started));
  }

  lemma AcquireKeepsOwners(s: State)
    requires SlotsCounted(s) && CancelsLive(s) && RunningOwned(s) && Enabled(s, Acquire)
    ensures CancelsLive(Apply(s, Acquire)) && RunningOwned(Apply(s, Acquire))
  {
  }

  lemma AcquireKeeps(s: State)
    requires Inv(s) && Enabled(s, Acquire)
    ensures Inv(Apply(s, Acquire))
  {
    AcquireCounts(s);
    AcquireKeepsOwners(s);
  }

  lemma RegisterKeeps(s: State, w: nat)
    requires Inv(s) && Enabled(s, Register(w))
    ensures Inv(Apply(s, Register(w)))
  {
    MoveCounts(s.workers, w, Registered);
  }

  lemma MarkKeeps(s: State, w: nat, now: int, ok: bool)
    requires Inv(s) && Enabled(s, Mark(w, now, ok))
    ensures Inv(Apply(s, Mark(w, now, ok)))
  {
    MoveCounts(s.workers, w, if ok then Marked else Leaving);
  }

  lemma RunHandlerKeeps(s: State, w: nat, succeeded: bool)
    requires Inv(s) && Enabled(s, RunHandler(w, succeeded))
    ensures Inv(Apply(s, RunHandler(w, succeeded)))
  {
    MoveCounts(s.workers, w, Returned(succeeded));
  }

  lemma FinishKeeps(s: State, w: nat, status: Status, now: int, ok: bool)
    requires Inv(s) && w in s.workers && Executing(s.workers[w].stage) && now >= s.clock
    requires status == Completed || status == Failed
    ensures Inv(Finish(s, w, status, now, ok))
  {
    MoveCounts(s.workers, w, Leaving);
  }

  lemma DeregisterKeeps(s: State, w: nat)
    requires Inv(s) && Enabled(s, Deregister(w))
    ensures Inv(Apply(s, Deregister(w)))
  {
    MoveCounts(s.workers, w, Deregistered);
  }

  lemma ReleaseKeeps(s: State, w: nat)
    requires Inv(s) && Enabled(s, Release(w))
    ensures Inv(Apply(s, Release(w)))
  {
    OneWorkerLess(s.workers, w);
  }

  lemma CancelSignalKeeps(s: State, id: Id)
    requires Inv(s) && Enabled(s, CancelSignal(id))
    ensures Inv(Apply(s, CancelSignal(id)))
  {
  }

  lemma CancelWriteKeeps(s: State, id: Id, now: int, ok: bool)
    requires Inv(s) && Enabled(s, CancelWrite(id, now, ok))
    ensures Inv(Apply(s, CancelWrite(id, now, ok)))
  {
  }

  lemma CrashKeeps(s: State)
    requires Inv(s) && Enabled(s, Crash)
    ensures Inv(Apply(s, Crash))
  {
  }

  lemma StartKeeps(s: State, ok: bool)
    requires Inv(s) && Enabled(s, Start(ok))
    ensures Inv(Apply(s, Start(ok)))
  {
  }

  lemma StepKeepsInv(s: State, step: Step)
    requires Inv(s) && Enabled(s, step)
    ensures Inv(Apply(s, step))
  {
    match step
    case Queue(id, name, trigger, now) => QueueKeeps(s, id, name, trigger, now);
    case Fetch(id) => FetchKeeps(s, id);
    case Acquire => AcquireKeeps(s);
    case Register(w) => RegisterKeeps(s, w);
    case Mark(w, now, ok) => MarkKeeps(s, w, now, ok);
    case RunHandler(w, succeeded) => RunHandlerKeeps(s, w, succeeded);
    case RejectUnknown(w, now, ok) => FinishKeeps(s, w, Failed, now, ok);
    case WriteResult(w, now, ok) => FinishKeeps(s, w, if s.workers[w].stage.ok then Completed else Failed, now, ok);
    case Deregister(w) => DeregisterKeeps(s, w);
    case Release(w) => ReleaseKeeps(s, w);
    case CancelSignal(id) => CancelSignalKeeps(s, id);
    case CancelWrite(id, now, ok) => CancelWriteKeeps(s, id, now, ok);
    case Crash => CrashKeeps(s);
    case Start(ok) => StartKeeps(s, ok);
  }

  /** In every interleaving, with double dispatches, failing writes, crashes and restarts. */
  lemma {:induction false} EveryRunKeepsInv(s: State, steps: seq<Step>)
    requires Inv(s) && CanRun(s, steps)
    ensures var t := Run(s, steps);
            && Inv(t)
            && t.slots == |t.workers| <= t.max
            && (forall id :: id in t.running ==> t.running[id] in t.workers && t.workers[t.running[id]].cmd == id)
            && (forall id :: id in t.rows && t.rows[id].status == Running && t.up && id !in t.lost ==> MarkedByLive(t, id))
    decreases |steps|
  {
    if steps != [] {
      StepKeepsInv(s, steps[0]);
      EveryRunKeepsInv(Apply(s, steps[0]), steps[1..]);
    }
  }

  // ---------------------------------------------------------------- runs in which the last writes work

  /** No worker's result and no recovery at a start fails to be written. */
  ghost predicate ResultsWritten(steps: seq<Step>) {
    forall i :: 0 <= i < |steps| ==>
      match steps[i]
      case RejectUnknown(_, _, ok) => ok
      case WriteResult(_, _, ok) => ok
      case Start(ok) => ok
      case _ => true
  }

  lemma {:induction false} NothingIsLost(s: State, steps: seq<Step>)
    requires CanRun(s, steps) && ResultsWritten(steps) && s.lost == {}
    ensures Run(s, steps).lost == {}
    decreases |steps|
  {
    if steps != [] {
      assert Apply(s, steps[0]).lost == {};
      assert forall i :: 0 <= i < |steps[1..]| ==> steps[1..][i] == steps[i + 1];
      NothingIsLost(Apply(s, steps[0]), steps[1..]);
    }
  }

  /** Then every row that says running has the live worker that wrote it. */
  lemma RunningMeansExecuting(s: State, steps: seq<Step>)
    requires Inv(s) && CanRun(s, steps) && ResultsWritten(steps) && s.lost == {}
    ensures var t := Run(s, steps);
            t.up ==> forall id :: id in t.rows && t.rows[id].status == Running ==> MarkedByLive(t, id)
  {
    EveryRunKeepsInv(s, steps);
    NothingIsLost(s, steps);
  }
}
