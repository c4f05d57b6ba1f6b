/** What the queue operations write, field by field, and what their counters count. */
module QueueFacts {
  import opened Options
  import opened Text
  import opened Import
  import opened ImportSafety
  import opened PendingImport
  import opened QueueLife
  import opened Downloads

  // ---------------------------------------------------------------- the file of a manual grab

  /** A character that a file name must not have. */
  predicate Forbidden(c: char) {
    c == '/' || c == '\\' || c == ':' || c == '*' || c == '?' || c == '"' || c == '<' || c == '>' || c == '|'
  }

  /** The text with an underscore for every forbidden character. */
  ghost predicate Cleaned(name: string, s: string) {
    |name| == |s| && forall i :: 0 <= i < |s| ==> name[i] == if Forbidden(s[i]) then '_' else s[i]
  }

  lemma BadIsForbidden(c: char)
    ensures c in BAD_IN_GRAB <==> Forbidden(c)
  {
    var bad := BAD_IN_GRAB;
    assert bad[0] == '/' && bad[1] == '\\' && bad[2] == ':' && bad[3] == '*' && bad[4] == '?';
    assert bad[5] == '"' && bad[6] == '<' && bad[7] == '>' && bad[8] == '|';
  }

  lemma SanitizedIsCleaned(s: string)
    ensures Cleaned(Sanitized(s), s)
  {
    forall i | 0 <= i < |s| ensures Sanitized(s)[i] == if Forbidden(s[i]) then '_' else s[i] {
      BadIsForbidden(s[i]);
    }
  }

  /** The cleaned text, with the format behind it unless that is unknown or there already, in whatever letter case. */
  ghost predicate NamedAfter(file: string, shown: string, format: string) {
    exists name :: Cleaned(name, shown) &&
      file == if format == "unknown" || HasSuffix(Lower(name), "." + format) then name else name + ("." + format)
  }

  /** The file is named after the release, or after author and title with a dash where there is no release title. */
  lemma GrabFileSpelled(release: string, author: string, title: string, format: string)
    ensures release != "" ==> NamedAfter(GrabFile(release, author, title, format), release, format)
    ensures release == "" ==> NamedAfter(GrabFile(release, author, title, format), author + (" - " + title), format)
  {
    SanitizedIsCleaned(release);
    SanitizedIsCleaned(author + (" - " + title));
  }

  // ---------------------------------------------------------------- the steps

  /**
   * After a manual grab the client has the author's folder below the download directory, and the row expects its file
   * in the very folder the client was given.
   */
  lemma GrabbedRow(s: State, id: QueueId, book: BookId, owner: Owner, ext: string, format: string, dir: string,
                   author: string, release: string, title: string)
    requires id !in s.lib.queue
    ensures var t := Apply(s, Grab(id, book, owner, ext, format, dir, author, release, title));
            && ext in t.mem && t.mem[ext].status == Queued
            && (exists folder :: Cleaned(folder, author) && t.mem[ext].savePath == FilePaths.Join(dir, folder))
            && id in t.lib.queue
            && var row := t.lib.queue[id];
               && row.book == book && row.client == owner && row.external == ext && row.format == format
               && row.status == Queued
               && row.savePath == FilePaths.Join(t.mem[ext].savePath, GrabFile(release, author, title, format))
  {
    SanitizedIsCleaned(author);
    assert Cleaned(Sanitized(author), author);
  }

  lemma IndexerRow(s: State, id: QueueId, book: BookId, client: ClientId, ext: string, format: string)
    requires id !in s.lib.queue
    ensures var t := Apply(s, GrabIndexer(id, book, client, ext, format));
            && t.mem == s.mem && id in t.lib.queue
            && var row := t.lib.queue[id];
               && row.book == book && row.client == Configured(client) && row.external == ext && row.format == format
               && row.status == Queued && row.savePath == ""
  {
  }

  /** A row that keeps book, client and format. */
  predicate SameDownload(a: QueueRow, b: QueueRow) {
    a.book == b.book && a.client == b.client && a.format == b.format
  }

  /**
   * The row after a poll: a known download gives it its status and its path if it has one, whether or not the import
   * that follows succeeds; an unknown one is queued again under a new id if there is a URL.
   */
  lemma PolledRow(s: State, id: QueueId, url: bool, newExt: string, dir: string, paths: Import.Paths, w: World)
    requires id in s.lib.queue
    ensures var t, before := Polled(s, id, url, newExt, dir, paths, w), s.lib.queue[id];
            && id in t.lib.queue
            && var row := t.lib.queue[id];
               && SameDownload(row, before)
               && (before.external in s.mem ==>
                     var item := s.mem[before.external];
                     && t.mem == s.mem && row.external == before.external && row.status == item.status
                     && row.savePath == if item.savePath == "" then before.savePath else item.savePath)
               && (before.external !in s.mem ==> row.savePath == before.savePath && t.lib.files == s.lib.files)
               && (before.external !in s.mem && url ==>
                     && row.external == newExt && row.status == Queued
                     && newExt in t.mem && t.mem[newExt].status == Queued && t.mem[newExt].savePath == dir)
               && (before.external !in s.mem && !url ==> t == s)
  {
    var before := s.lib.queue[id];
    if before.external in s.mem {
      var item := s.mem[before.external];
      QueueAfter(WithRow(s, id, Refreshed(before, item)).lib, id, item.savePath, paths, w);
    }
  }

  /** The queue view takes over the status of a live download, and nothing else. */
  lemma ShownRowIs(s: State, id: QueueId)
    requires id in s.lib.queue
    ensures var t, before := Shown(s, id), s.lib.queue[id];
            && t.mem == s.mem && id in t.lib.queue
            && var row := t.lib.queue[id];
               && SameDownload(row, before) && row.external == before.external && row.savePath == before.savePath
               && row.status == if before.client == Embedded && before.external != "" && before.external in s.mem
                                then s.mem[before.external].status else before.status
  {
  }

  /** The steps that come from outside: news of a download, a restart, which forgets them all, and a removed row. */
  lemma OutsideSteps(s: State, step: Step)
    requires Enabled(s, step)
    ensures step.Progress? ==> Apply(s, step).lib == s.lib && step.ext in Apply(s, step).mem && Apply(s, step).mem[step.ext] == step.item
    ensures step.Progress? ==> forall e :: e in s.mem && e != step.ext ==> e in Apply(s, step).mem && Apply(s, step).mem[e] == s.mem[e]
    ensures step.ServerRestart? ==> Apply(s, step).lib == s.lib && forall e :: e !in Apply(s, step).mem
    ensures step.RemoveRow? ==> step.id !in Apply(s, step).lib.queue && Apply(s, step).mem == s.mem && Apply(s, step).lib.files == s.lib.files
  {
  }

  /** A processing run polls the rows that are neither completed nor failed, and no others. */
  lemma OpenRowsArePolled(queue: map<QueueId, QueueRow>, polls: seq<Step>, id: QueueId)
    requires PollsActive(queue, polls) && id in queue
    ensures (exists i :: 0 <= i < |polls| && polls[i].id == id) <==> queue[id].status != Completed && queue[id].status != Failed
  {
    if i :| 0 <= i < |polls| && polls[i].id == id {
      assert Active(queue[polls[i].id].status);
    }
  }

  // ---------------------------------------------------------------- the counters

  /**
   * A poll of a known download counts it as completed or as failed exactly when its row is so afterwards, and as
   * imported exactly when it is completed and its import inserts a row and closes the queue row.
   */
  lemma PollCounts(s: State, id: QueueId, url: bool, newExt: string, dir: string, paths: Import.Paths, w: World)
    requires id in s.lib.queue
    ensures var t, tally := Polled(s, id, url, newExt, dir, paths, w), PollTally(s, id, paths, w);
            var known := s.lib.queue[id].external in s.mem;
            && id in t.lib.queue
            && tally.completed == (if known && t.lib.queue[id].status == Completed then 1 else 0)
            && tally.failed == (if known && t.lib.queue[id].status == Failed then 1 else 0)
            && tally.imported <= tally.completed
    ensures s.lib.queue[id].external in s.mem ==>
              var item := s.mem[s.lib.queue[id].external];
              var seen := WithRow(s, id, Refreshed(s.lib.queue[id], item)).lib;
              PollTally(s, id, paths, w).imported == 1 <==>
              item.status == Completed && item.savePath != "" && Inserts(seen, id, item.savePath, paths, w) && w.updated
  {
    PolledRow(s, id, url, newExt, dir, paths, w);
    var row := s.lib.queue[id];
    if row.external in s.mem {
      var item := s.mem[row.external];
      ResultIff(WithRow(s, id, Refreshed(row, item)).lib, id, item.savePath, paths, w);
    }
  }

  lemma PlusSpelled(a: Tally, b: Tally)
    ensures Plus(a, b).completed == a.completed + b.completed
    ensures Plus(a, b).failed == a.failed + b.failed
    ensures Plus(a, b).imported == a.imported + b.imported
  {
  }

  lemma NothingCounted(s: State)
    ensures RunTally(s, []) == Tally(0, 0, 0)
  {
  }

  /** The counters of a run are those of its steps added up, from zero on. */
  lemma RunCounts(s: State, steps: seq<Step>, step: Step, before: Tally, one: Tally, after: Tally)
    requires CanRun(s, steps) && Enabled(Run(s, steps), step) && CanRun(s, steps + [step])
    requires before == RunTally(s, steps) && one == StepTally(Run(s, steps), step) && after == RunTally(s, steps + [step])
    ensures after.completed == before.completed + one.completed
    ensures after.failed == before.failed + one.failed
    ensures after.imported == before.imported + one.imported
    ensures steps == [] ==> before.completed == before.failed == before.imported == 0
  {
    TallySnoc(s, steps, step);
    PlusSpelled(before, one);
    NothingCounted(s);
  }

  /** Only polls complete or fail a download; the recovery run counts its successful imports. */
  lemma StepCounts(s: State, step: Step)
    requires Enabled(s, step)
    ensures step.Poll? ==> StepTally(s, step) == PollTally(s, step.id, step.paths, step.world)
    ensures !step.Poll? ==> StepTally(s, step).completed == 0 && StepTally(s, step).failed == 0
    ensures step.ImportPending? ==> StepTally(s, step).imported == |Successes(Turns(s.lib, step.picks, step.paths, step.ts).1)|
    ensures !step.Poll? && !step.ImportPending? ==> StepTally(s, step).imported == 0
  {
    if step.ImportPending? {
      CountIs(Turns(s.lib, step.picks, step.paths, step.ts).1);
    }
  }

  /** The successful imports of a recovery run. */
  ghost function Successes(vs: seq<Verdict>): set<nat> {
    set i: nat | i < |vs| && vs[i].Took? && vs[i].result.Done?
  }

  /** The recovery run counts its successful imports. */
  lemma {:induction false} CountIs(vs: seq<Verdict>)
    ensures PendingImport.Count(vs) == |Successes(vs)|
  {
    if vs == [] {
      assert Successes(vs) == {};
    } else {
      var last: nat := |vs| - 1;
      CountIs(vs[..last]);
      assert Successes(vs) == Successes(vs[..last]) + if Imports(vs[last]) then {last} else {};
      assert last !in Successes(vs[..last]);
    }
  }
}
