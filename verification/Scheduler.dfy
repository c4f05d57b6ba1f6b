/** The scheduler object: each method is one atomic step of the command protocol. */
module Scheduler {
  import opened Options
  import opened CommandProtocol

  class Scheduler {
    var up: bool
    var clock: int
    var rows: map<Id, Row>
    var handlers: set<string>
    const max: nat
    var slots: nat
    var running: map<Id, nat>
    var workers: map<nat, Worker>
    var nextWorker: nat
    var fetched: Option<Id>
    var signalled: set<nat>
    ghost var markedBy: map<Id, nat>
    ghost var lost: set<Id>
    ghost var ran: seq<Id>
    ghost var boot: nat

    ghost function View(): State
      reads this
    {
      State(up, clock, rows, handlers, max, slots, running, workers, nextWorker, fetched, signalled, markedBy, lost, ran, boot)
    }

    /** New */
    constructor (maxConcurrent: int, handlers: set<string>)
      ensures View() == Init(maxConcurrent, handlers) && Inv(View())
    {
      this.up, this.clock, this.rows, this.handlers := false, 0, map[], handlers;
      this.max := if maxConcurrent <= 0 then 3 else maxConcurrent;
      this.slots, this.running, this.workers, this.nextWorker := 0, map[], map[], 0;
      this.fetched, this.signalled := None, {};
      this.markedBy, this.lost, this.ran, this.boot := map[], {}, [], 0;
    }

    /** QueueCommand, with the fresh id it generates; the payload may not be encodable and the insert may fail. */
    method QueueCommand(id: Id, name: string, trigger: Trigger, now: int, encodes: bool, inserts: bool)
      returns (queued: Option<Id>)
      requires Enabled(View(), Queue(id, name, trigger, now))
      modifies this
      ensures queued == if encodes && inserts then Some(id) else None
      ensures View() == if queued.Some? then Apply(old(View()), Queue(id, name, trigger, now)) else old(View())
    {
      if !encodes || !inserts {
        return None;
      }
      clock := now;
      rows := rows[id := Row(name, Queued, 0, trigger, now, None, None)];
      queued := Some(id);
    }

    /** getNextQueuedCommand: the first row of the query, if there is one. */
    method NextQueued() returns (next: Option<Id>)
      ensures next.Some? ==> IsNext(rows, next.value)
      ensures next.None? ==> forall id :: id in rows ==> rows[id].status != Queued
    {
      next := None;
      var todo := rows.Keys;
      while todo != {}
        invariant todo <= rows.Keys
        invariant next.Some? ==> next.value in rows && rows[next.value].status == Queued
        invariant next.Some? ==> forall id :: id in rows && id !in todo && rows[id].status == Queued ==> !Before(rows[id], rows[next.value])
        invariant next.None? ==> forall id :: id in rows && id !in todo ==> rows[id].status != Queued
        decreases todo
      {
        var id: Id :| id in todo;
        todo := todo - {id};
        if rows[id].status == Queued && (next.None? || Before(rows[id], rows[next.value])) {
          next := Some(id);
        }
      }
    }

    /** The query of dispatchPendingCommands; nothing happens when no row is queued. */
    method FetchCommand() returns (next: Option<Id>)
      requires up && fetched == None
      modifies this
      ensures next.Some? ==> Enabled(old(View()), Fetch(next.value)) && View() == Apply(old(View()), Fetch(next.value))
      ensures next.None? ==> View() == old(View()) && forall id :: id in rows ==> rows[id].status != Queued
    {
      next := NextQueued();
      fetched := next;
    }

    /** The select of dispatchPendingCommands: a free slot starts a worker, a full semaphore drops the command. */
    method TryAcquire() returns (started: bool)
      requires Enabled(View(), Acquire)
      modifies this
      ensures View() == Apply(old(View()), Acquire) && (started <==> old(slots) < max)
    {
      var id := fetched.value;
      fetched := None;
      started := slots < max;
      if started {
        slots := slots + 1;
        workers := workers[nextWorker := Worker(id, rows[id].name, Started)];
        nextWorker := nextWorker + 1;
      }
    }

    method RegisterCancel(w: nat)
      requires Enabled(View(), Register(w))
      modifies this
      ensures View() == Apply(old(View()), Register(w))
    {
      running := running[workers[w].cmd := w];
      workers := MoveTo(workers, w, Registered);
    }

    method UpdateStatus(id: Id, status: Status, now: int)
      modifies this`rows, this`clock
      ensures rows == SetStatus(old(rows), id, status, now) && clock == now
    {
      clock := now;
      if id in rows {
        rows := rows[id := WithStatus(rows[id], status, now)];
      }
    }

    method MarkRunning(w: nat, now: int, ok: bool)
      requires Enabled(View(), Mark(w, now, ok))
      modifies this
      ensures View() == Apply(old(View()), Mark(w, now, ok))
    {
      var id := workers[w].cmd;
      clock := now;
      if ok {
        UpdateStatus(id, Running, now);
        markedBy, lost := markedBy[id := w], lost - {id};
        workers := MoveTo(workers, w, Marked);
      } else {
        workers := MoveTo(workers, w, Leaving);
      }
    }

    method CallHandler(w: nat, succeeded: bool)
      requires Enabled(View(), RunHandler(w, succeeded))
      modifies this
      ensures View() == Apply(old(View()), RunHandler(w, succeeded))
    {
      ran := ran + [workers[w].cmd];
      workers := MoveTo(workers, w, Returned(succeeded));
    }

    /** The last status write: after the handler, or at once when no handler is registered. */
    method FinishCommand(w: nat, now: int, ok: bool)
      requires Enabled(View(), WriteResult(w, now, ok)) || Enabled(View(), RejectUnknown(w, now, ok))
      modifies this
      ensures View() == Apply(old(View()), if old(workers)[w].stage.Returned? then WriteResult(w, now, ok) else RejectUnknown(w, now, ok))
    {
      var id, stage := workers[w].cmd, workers[w].stage;
      workers := MoveTo(workers, w, Leaving);
      clock := now;
      if ok {
        UpdateStatus(id, if stage.Returned? && stage.ok then Completed else Failed, now);
      } else {
        lost := lost + {id};
      }
    }

    method DeleteCancel(w: nat)
      requires Enabled(View(), Deregister(w))
      modifies this
      ensures View() == Apply(old(View()), Deregister(w))
    {
      running := running - {workers[w].cmd};
      workers := MoveTo(workers, w, Deregistered);
    }

    method ReleaseSlot(w: nat)
      requires Enabled(View(), Release(w))
      modifies this
      ensures View() == Apply(old(View()), Release(w))
    {
      workers := workers - {w};
      slots := slots - 1;
    }

    /** The locked part of CancelCommand. */
    method SignalCancel(id: Id)
      requires up
      modifies this
      ensures View() == Apply(old(View()), CancelSignal(id))
    {
      if id in running {
        signalled := signalled + {running[id]};
      }
    }

    /** The status write of CancelCommand. */
    method WriteCancelled(id: Id, now: int, ok: bool)
      requires Enabled(View(), CancelWrite(id, now, ok))
      modifies this
      ensures View() == Apply(old(View()), CancelWrite(id, now, ok))
    {
      clock := now;
      if ok {
        UpdateStatus(id, Cancelled, now);
      }
    }

    /** Start: recovery of what a crash left running, then the loop. */
    method StartLoop(ok: bool)
      requires !up
      modifies this
      ensures View() == Apply(old(View()), CommandProtocol.Start(ok))
    {
      if ok {
        rows := Recovered(rows);
        lost := {};
      } else {
        lost := StillRunning(rows);
      }
      up, boot := true, |ran|;
    }
  }
}
