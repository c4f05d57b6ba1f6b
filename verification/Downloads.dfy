/** The download queue operations as they run: grabbing, showing, restarting and polling. */
module Downloads {
  import opened Options
  import opened Text
  import opened Import
  import opened ImportSafety
  import opened PendingImport
  import opened QueueLife

  /** The embedded downloader as the queue sees it. */
  class EmbeddedClient {
    var items: map<string, Download>

    /** Starts a download under a new id, below the given folder. */
    method Add(ext: string, dir: string)
      modifies this
      ensures items == old(items)[ext := Download(Queued, dir)]
    {
      items := items[ext := Download(Queued, dir)];
    }
  }

  ghost function View(s: Service, c: EmbeddedClient): State
    reads s, c
  {
    State(s.View(), c.items)
  }

  method RecordDownload(s: Service, id: QueueId, book: BookId, owner: Owner, ext: string, format: string, path: string)
    requires id !in s.queue
    modifies s`queue
    ensures s.queue == old(s.queue)[id := QueueRow(book, owner, ext, format, Queued, path)]
  {
    s.queue := s.queue[id := QueueRow(book, owner, ext, format, Queued, path)];
  }

  /** A manual grab: the client gets the author's folder, the row the file expected in it. */
  method GrabRelease(s: Service, c: EmbeddedClient, id: QueueId, book: BookId, owner: Owner,
                     ext: string, format: string, dir: string, author: string, release: string, title: string)
    requires id !in s.queue
    modifies s`queue, c
    ensures View(s, c) == Apply(old(View(s, c)), Grab(id, book, owner, ext, format, dir, author, release, title))
  {
    var file := release;
    if file == "" {
      file := author + (" - " + title);
    }
    file := Sanitized(file);
    if format != "unknown" && !HasSuffix(Lower(file), "." + format) {
      file := file + ("." + format);
    }
    var authorDir := FilePaths.Join(dir, Sanitized(author));
    var expected := FilePaths.Join(authorDir, file);
    c.Add(ext, authorDir);
    RecordDownload(s, id, book, owner, ext, format, expected);
  }

  /** A grab from an indexer goes to an external client and records no path. */
  method GrabFromIndexer(s: Service, c: EmbeddedClient, id: QueueId, book: BookId, client: ClientId,
                         ext: string, format: string)
    requires id !in s.queue
    modifies s`queue
    ensures View(s, c) == Apply(old(View(s, c)), GrabIndexer(id, book, client, ext, format))
  {
    RecordDownload(s, id, book, Configured(client), ext, format, "");
  }

  method RestartDownload(s: Service, c: EmbeddedClient, id: QueueId, url: bool, newExt: string, dir: string)
    returns (ok: bool)
    requires id in s.queue
    modifies s`queue, c
    ensures View(s, c) == Restarted(old(View(s, c)), id, url, newExt, dir)
    ensures ok == url
  {
    if !url {
      return false;
    }
    c.Add(newExt, dir);
    s.queue := s.queue[id := s.queue[id].(external := newExt, status := Queued)];
    ok := true;
  }

  method UpdateWithPath(s: Service, id: QueueId, item: Download)
    requires id in s.queue
    modifies s`queue
    ensures s.queue == old(s.queue)[id := Refreshed(old(s.queue)[id], item)]
  {
    if item.savePath != "" {
      s.queue := s.queue[id := s.queue[id].(status := item.status, savePath := item.savePath)];
    } else {
      s.queue := s.queue[id := s.queue[id].(status := item.status)];
    }
  }

  /** What one step adds to the counters of a processing run. */
  datatype Tally = Tally(completed: nat, failed: nat, imported: nat)

  function Plus(a: Tally, b: Tally): Tally {
    Tally(a.completed + b.completed, a.failed + b.failed, a.imported + b.imported)
  }

  function PollTally(s: State, id: QueueId, paths: Import.Paths, w: World): Tally
    requires id in s.lib.queue
  {
    var row := s.lib.queue[id];
    if row.external !in s.mem then Tally(0, 0, 0)
    else
      var item := s.mem[row.external];
      if item.status == Failed then Tally(0, 1, 0)
      else if item.status != Completed then Tally(0, 0, 0)
      else if item.savePath == "" then Tally(1, 0, 0)
      else
        var result := Imported(WithRow(s, id, Refreshed(row, item)).lib, id, item.savePath, paths, w).1;
        Tally(1, 0, if result.Done? then 1 else 0)
  }

  /** One row of the polling loop. */
  method PollOne(s: Service, c: EmbeddedClient, id: QueueId, url: bool, newExt: string, dir: string,
                 paths: Import.Paths, w: World)
    returns (t: Tally)
    requires id in s.queue
    modifies s, c
    ensures View(s, c) == Polled(old(View(s, c)), id, url, newExt, dir, paths, w)
    ensures t == PollTally(old(View(s, c)), id, paths, w)
  {
    var ext := s.queue[id].external;
    if ext !in c.items {
      var _ := RestartDownload(s, c, id, url, newExt, dir);
      return Tally(0, 0, 0);
    }
    var item := c.items[ext];
    UpdateWithPath(s, id, item);
    t := Tally(0, 0, 0);
    if item.status == Completed {
      t := Tally(1, 0, 0);
      if item.savePath != "" {
        var r := s.ImportCompletedDownload(id, item.savePath, paths, w);
        if r.Done? {
          t := Tally(1, 0, 1);
        }
      }
    } else if item.status == Failed {
      t := Tally(0, 1, 0);
      var _ := s.UpdateQueueItemStatus(id, Failed, true);
    }
  }

  // ---------------------------------------------------------------- the loops

  lemma {:induction false} RunSnoc(s: State, steps: seq<Step>, step: Step)
    requires CanRun(s, steps) && Enabled(Run(s, steps), step)
    ensures CanRun(s, steps + [step]) && Run(s, steps + [step]) == Apply(Run(s, steps), step)
    decreases |steps|
  {
    if steps != [] {
      RunSnoc(Apply(s, steps[0]), steps[1..], step);
      assert (steps + [step])[1..] == steps[1..] + [step];
    } else {
      assert ([] + [step])[1..] == [];
    }
  }

  ghost function StepTally(s: State, step: Step): Tally
    requires Enabled(s, step)
  {
    match step
    case Poll(id, _, _, _, paths, w) => PollTally(s, id, paths, w)
    case ImportPending(picks, paths, ts) => Tally(0, 0, Count(Turns(s.lib, picks, paths, ts).1))
    case _ => Tally(0, 0, 0)
  }

  /** What a run adds to the counters. */
  ghost function RunTally(s: State, steps: seq<Step>): Tally
    requires CanRun(s, steps)
    decreases |steps|
  {
    if steps == [] then Tally(0, 0, 0) else Plus(StepTally(s, steps[0]), RunTally(Apply(s, steps[0]), steps[1..]))
  }

  lemma {:induction false} TallySnoc(s: State, steps: seq<Step>, step: Step)
    requires CanRun(s, steps) && Enabled(Run(s, steps), step) && CanRun(s, steps + [step])
    ensures RunTally(s, steps + [step]) == Plus(RunTally(s, steps), StepTally(Run(s, steps), step))
    decreases |steps|
  {
    if steps != [] {
      assert (steps + [step])[1..] == steps[1..] + [step];
      TallySnoc(Apply(s, steps[0]), steps[1..], step);
    } else {
      assert ([] + [step])[1..] == [];
    }
  }

  lemma Longer(first: seq<Step>, steps: seq<Step>, i: nat)
    requires i < |steps|
    ensures first + steps[..i] + [steps[i]] == first + steps[..i + 1]
  {
  }

  /** Polling or showing one row leaves the other rows alone, and removes none. */
  lemma OtherRows(s: State, step: Step, id: QueueId)
    requires Enabled(s, step) && (step.Poll? || step.Show?) && id in s.lib.queue
    ensures id in Apply(s, step).lib.queue
    ensures id != step.id ==> Apply(s, step).lib.queue[id] == s.lib.queue[id]
  {
    if step.Poll? && s.lib.queue[step.id].external in s.mem {
      var row := s.lib.queue[step.id];
      var item := s.mem[row.external];
      QueueAfter(WithRow(s, step.id, Refreshed(row, item)).lib, step.id, item.savePath, step.paths, step.world);
    }
  }

  /** The counters after one more step. */
  lemma OneMoreStep(start: State, steps: seq<Step>, step: Step)
    requires CanRun(start, steps) && Enabled(Run(start, steps), step)
    ensures CanRun(start, steps + [step]) && Run(start, steps + [step]) == Apply(Run(start, steps), step)
    ensures RunTally(start, steps + [step]) == Plus(RunTally(start, steps), StepTally(Run(start, steps), step))
  {
    RunSnoc(start, steps, step);
    TallySnoc(start, steps, step);
  }

  datatype ProcessResult = ProcessResult(checked: nat, tally: Tally)

  /** One poll for every active row of the queue, in whatever order the query returns them. */
  ghost predicate PollsActive(queue: map<QueueId, QueueRow>, polls: seq<Step>) {
    && (forall i :: 0 <= i < |polls| ==> polls[i].Poll? && polls[i].id in queue && Active(queue[polls[i].id].status))
    && (forall i, j :: 0 <= i < j < |polls| ==> polls[i].id != polls[j].id)
    && (forall id :: id in queue && Active(queue[id].status) ==> exists i :: 0 <= i < |polls| && polls[i].id == id)
  }

  /** The library after the recovery run, which leaves it alone when its query fails. */
  function Recovered(lib: Library, queried: bool, pending: seq<Pick>, paths: Import.Paths, ts: seq<Turn>): Library
    requires |ts| == |pending|
  {
    if queried then Turns(lib, pending, paths, ts).0 else lib
  }

  /** The steps of a processing run: the recovery run unless its query fails, then the polls unless theirs does. */
  function ProcessSteps(queried: bool, pending: seq<Pick>, paths: Import.Paths, ts: seq<Turn>, listed: bool,
                        polls: seq<Step>): seq<Step>
  {
    (if queried then [ImportPending(pending, paths, ts)] else []) + (if listed then polls else [])
  }

  /** The recovery run, whose failure is only logged, then one poll for every row that is active after it. */
  method ProcessDownloads(s: Service, c: EmbeddedClient, queried: bool, pending: seq<Pick>, paths: Import.Paths,
                          ts: seq<Turn>, listed: bool, polls: seq<Step>)
    returns (r: Option<ProcessResult>)
    requires |ts| == |pending| && Lists(s.View(), pending)
    requires PollsActive(Recovered(s.View(), queried, pending, paths, ts).queue, polls)
    modifies s, c
    ensures var start, steps := old(View(s, c)), ProcessSteps(queried, pending, paths, ts, listed, polls);
            && CanRun(start, steps) && View(s, c) == Run(start, steps)
            && r == if listed then Some(ProcessResult(|polls|, RunTally(start, steps))) else None
  {
    ghost var start := View(s, c);
    ghost var first := if queried then [ImportPending(pending, paths, ts)] else [];
    if queried {
      OneMoreStep(start, [], first[0]);
      assert [] + first == first;
    }
    var imported, verdicts := ImportPendingCompletedDownloads(s, queried, pending, paths, ts);
    var tally := Tally(0, 0, if imported.Some? then imported.value else 0);
    if !listed {
      assert first + [] == first;
      return None;
    }
    tally := PollAll(s, c, start, first, polls, tally);
    r := Some(ProcessResult(|polls|, tally));
  }

  method PollAll(s: Service, c: EmbeddedClient, ghost start: State, ghost first: seq<Step>, polls: seq<Step>, t: Tally)
    returns (tally: Tally)
    requires CanRun(start, first) && View(s, c) == Run(start, first) && t == RunTally(start, first)
    requires PollsActive(s.queue, polls)
    modifies s, c
    ensures CanRun(start, first + polls) && View(s, c) == Run(start, first + polls)
    ensures tally == RunTally(start, first + polls)
  {
    ghost var collected := s.queue;
    ghost var steps := first;
    assert first == first + polls[..0];
    tally := t;
    var i := 0;
    while i < |polls|
      invariant 0 <= i <= |polls|
      invariant steps == first + polls[..i]
      invariant CanRun(start, steps) && View(s, c) == Run(start, steps) && tally == RunTally(start, steps)
      invariant forall k :: i <= k < |polls| ==>
                  polls[k].id in s.queue && polls[k].id in collected && s.queue[polls[k].id] == collected[polls[k].id]
    {
      var p := polls[i];
      ghost var before := View(s, c);
      assert Enabled(before, p);
      var one := PollOne(s, c, p.id, p.url, p.newExt, p.dir, p.paths, p.world);
      tally := Plus(tally, one);
      forall k | i < k < |polls|
        ensures polls[k].id in s.queue && s.queue[polls[k].id] == before.lib.queue[polls[k].id]
      {
        OtherRows(before, p, polls[k].id);
      }
      OneMoreStep(start, steps, p);
      Longer(first, polls, i);
      steps := steps + [p];
      i := i + 1;
    }
    assert polls[..i] == polls;
  }

  /** The ids of the whole queue, each once. */
  ghost predicate WholeQueue(queue: map<QueueId, QueueRow>, ids: seq<QueueId>) {
    && (forall id :: id in queue <==> id in ids)
    && (forall i, j :: 0 <= i < j < |ids| ==> ids[i] != ids[j])
  }

  /** How a row is shown, and what is kept of it. */
  predicate ShownAs(before: QueueRow, after: QueueRow, mem: map<string, Download>, works: bool, status: QueueStatus) {
    status == ShownRow(before, mem).status && after == if works then ShownRow(before, mem) else before
  }

  /** One row of the view; the write of its live status may fail. */
  method ShowOne(s: Service, c: EmbeddedClient, id: QueueId, works: bool) returns (status: QueueStatus)
    requires id in s.queue
    modifies s`queue
    ensures id in s.queue && s.queue == old(s.queue)[id := s.queue[id]]
    ensures ShownAs(old(s.queue)[id], s.queue[id], c.items, works, status)
  {
    var row := s.queue[id];
    status := row.status;
    if row.client.Embedded? && row.external != "" && row.external in c.items {
      status := c.items[row.external].status;
      var _ := s.UpdateQueueItemStatus(id, status, works);
    }
  }

  /** The queue view: rows without a client show the live status, and keep it if it can be written. */
  method GetDownloadQueue(s: Service, c: EmbeddedClient, ids: seq<QueueId>, works: seq<bool>)
    returns (statuses: seq<QueueStatus>)
    requires WholeQueue(s.queue, ids) && |works| == |ids|
    modifies s`queue
    ensures s.queue.Keys == old(s.queue.Keys) && |statuses| == |ids|
    ensures forall i :: 0 <= i < |ids| ==>
              ShownAs(old(s.queue)[ids[i]], s.queue[ids[i]], c.items, works[i], statuses[i])
  {
    statuses := [];
    ghost var start := s.queue;
    var i := 0;
    while i < |ids|
      invariant 0 <= i <= |ids| && |statuses| == i
      invariant s.queue.Keys == start.Keys
      invariant forall k :: 0 <= k < i ==>
                  ShownAs(start[ids[k]], s.queue[ids[k]], c.items, works[k], statuses[k])
      invariant forall k :: i <= k < |ids| ==> s.queue[ids[k]] == start[ids[k]]
    {
      var status := ShowOne(s, c, ids[i], works[i]);
      statuses := statuses + [status];
      i := i + 1;
    }
  }
}
