/** The life of a queue row: grabbed, polled, shown, restarted, imported; each step is one poll-and-write. */
module QueueLife {
  import opened Import
  import opened ImportSafety
  import opened PendingImport
  import opened Text
  import FilePaths = Paths
  import Naming

  /** An item of the embedded downloader, which keeps its items in memory only. */
  datatype Download = Download(status: QueueStatus, savePath: string)

  datatype State = State(lib: Library, mem: map<string, Download>)

  datatype Step =
    | Grab(id: QueueId, book: BookId, owner: Owner, ext: string, format: string, dir: string, author: string,
           release: string, title: string)
    | GrabIndexer(id: QueueId, book: BookId, client: ClientId, ext: string, format: string)
    | Progress(ext: string, item: Download)
    | Show(id: QueueId)
    | Poll(id: QueueId, url: bool, newExt: string, dir: string, paths: Import.Paths, world: World)
    | ServerRestart
    | ImportPending(picks: seq<Pick>, paths: Import.Paths, ts: seq<Turn>)
    | RemoveRow(id: QueueId)

  const BAD_IN_GRAB := "/\\:*?\"<>|"

  function Sanitized(name: string): string {
    Naming.Underscore(name, BAD_IN_GRAB)
  }

  /** The file name of a manual grab: the release title, or author and title, with the format it was found to have. */
  function GrabFile(release: string, author: string, title: string, format: string): string {
    var name := Sanitized(if release == "" then author + (" - " + title) else release);
    if format != "unknown" && !HasSuffix(Lower(name), "." + format) then name + ("." + format) else name
  }

  /** Where a manual grab expects its file: the author's folder below the download directory. */
  function ExpectedSavePath(dir: string, author: string, file: string): string {
    FilePaths.Join(FilePaths.Join(dir, author), file)
  }

  predicate Active(status: QueueStatus) {
    status == Queued || status == Downloading || status == Paused || status == Sent
  }

  ghost predicate Enabled(s: State, step: Step) {
    match step
    case Grab(id, _, _, _, _, _, _, _, _) => id !in s.lib.queue
    case GrabIndexer(id, _, _, _, _) => id !in s.lib.queue
    case Progress(ext, _) => ext in s.mem
    case Show(id) => id in s.lib.queue
    case Poll(id, _, _, _, _, _) => id in s.lib.queue && Active(s.lib.queue[id].status)
    case ServerRestart => true
    case ImportPending(picks, _, ts) => Lists(s.lib, picks) && |ts| == |picks|
    case RemoveRow(id) => id in s.lib.queue
  }

  function WithRow(s: State, id: QueueId, row: QueueRow): State {
    s.(lib := s.lib.(queue := s.lib.queue[id := row]))
  }

  /** A row without a client whose download the client still knows. */
  predicate Live(row: QueueRow, mem: map<string, Download>) {
    row.client.Embedded? && row.external != "" && row.external in mem
  }

  function ShownRow(row: QueueRow, mem: map<string, Download>): QueueRow {
    if Live(row, mem) then row.(status := mem[row.external].status) else row
  }

  /** The queue view writes the live status of an embedded download, but not its path. */
  function Shown(s: State, id: QueueId): State
    requires id in s.lib.queue
  {
    WithRow(s, id, ShownRow(s.lib.queue[id], s.mem))
  }

  /** Polling writes the path as well when there is one. */
  function Refreshed(row: QueueRow, item: Download): QueueRow {
    if item.savePath != "" then row.(status := item.status, savePath := item.savePath) else row.(status := item.status)
  }

  /** A download the client no longer knows is added again, without a save path of its own. */
  function Restarted(s: State, id: QueueId, url: bool, newExt: string, dir: string): State
    requires id in s.lib.queue
  {
    if !url then s
    else
      var next := WithRow(s, id, s.lib.queue[id].(external := newExt, status := Queued));
      next.(mem := next.mem[newExt := Download(Queued, dir)])
  }

  function Polled(s: State, id: QueueId, url: bool, newExt: string, dir: string, paths: Import.Paths, w: World): State
    requires id in s.lib.queue
  {
    var row := s.lib.queue[id];
    if row.external !in s.mem then Restarted(s, id, url, newExt, dir)
    else
      var item := s.mem[row.external];
      var next := WithRow(s, id, Refreshed(row, item));
      if item.status == Completed && item.savePath != ""
      then next.(lib := Imported(next.lib, id, item.savePath, paths, w).0) else next
  }

  ghost function Apply(s: State, step: Step): State
    requires Enabled(s, step)
  {
    match step
    case Grab(id, book, owner, ext, format, dir, author, release, title) =>
      var path := ExpectedSavePath(dir, Sanitized(author), GrabFile(release, author, title, format));
      var row := QueueRow(book, owner, ext, format, Queued, path);
      WithRow(s, id, row).(mem := s.mem[ext := Download(Queued, FilePaths.Join(dir, Sanitized(author)))])
    case GrabIndexer(id, book, client, ext, format) =>
      WithRow(s, id, QueueRow(book, Configured(client), ext, format, Queued, ""))
    case Progress(ext, item) => s.(mem := s.mem[ext := item])
    case Show(id) => Shown(s, id)
    case Poll(id, url, newExt, dir, paths, w) => Polled(s, id, url, newExt, dir, paths, w)
    case ServerRestart => s.(mem := map[])
    case ImportPending(picks, paths, ts) => s.(lib := Turns(s.lib, picks, paths, ts).0)
    case RemoveRow(id) => s.(lib := s.lib.(queue := s.lib.queue - {id}))
  }

  ghost predicate CanRun(s: State, steps: seq<Step>)
    decreases |steps|
  {
    steps == [] || (Enabled(s, steps[0]) && CanRun(Apply(s, steps[0]), steps[1..]))
  }

  ghost function Run(s: State, steps: seq<Step>): State
    requires CanRun(s, steps)
    decreases |steps|
  {
    if steps == [] then s else Run(Apply(s, steps[0]), steps[1..])
  }

  // ---------------------------------------------------------------- nothing is stranded

  /** A row without a client can always be found again by its path. */
  predicate Reachable(row: QueueRow) {
    row.client.Embedded? ==> row.savePath != ""
  }

  ghost predicate AllReachable(s: State) {
    forall id :: id in s.lib.queue ==> Reachable(s.lib.queue[id])
  }

  /** A path put together from three parts is empty only when all three are. */
  lemma SavePathIsSomewhere(dir: string, author: string, file: string)
    ensures ExpectedSavePath(dir, author, file) == "" <==> dir == "" && author == "" && file == ""
  {
    JoinIsSomewhere(dir, author);
    JoinIsSomewhere(FilePaths.Join(dir, author), file);
  }

  lemma JoinIsSomewhere(a: string, b: string)
    ensures FilePaths.Join(a, b) == "" <==> a == "" && b == ""
  {
    FilePaths.CleanPathNotEmpty(a + ("/" + b));
    FilePaths.CleanPathNotEmpty(b);
  }

  /** Whatever the titles are, the file of a manual grab has a name. */
  lemma GrabFileIsNamed(release: string, author: string, title: string, format: string)
    ensures GrabFile(release, author, title, format) != ""
  {
  }

  lemma StepKeepsReachable(s: State, step: Step)
    requires Enabled(s, step) && AllReachable(s)
    ensures AllReachable(Apply(s, step))
  {
    match step
    case Grab(_, _, _, _, format, dir, author, release, title) =>
      GrabFileIsNamed(release, author, title, format);
      SavePathIsSomewhere(dir, Sanitized(author), GrabFile(release, author, title, format));
    case Poll(id, url, newExt, dir, paths, w) => PollKeepsReachable(s, id, url, newExt, dir, paths, w);
    case ImportPending(picks, paths, ts) => RunKeepsQueue(s.lib, picks, paths, ts);
    case _ =>
  }

  lemma PollKeepsReachable(s: State, id: QueueId, url: bool, newExt: string, dir: string,
                           paths: Import.Paths, w: World)
    requires id in s.lib.queue && AllReachable(s)
    ensures AllReachable(Polled(s, id, url, newExt, dir, paths, w))
  {
    var row := s.lib.queue[id];
    if row.external in s.mem {
      var item := s.mem[row.external];
      QueueAfter(WithRow(s, id, Refreshed(row, item)).lib, id, item.savePath, paths, w);
    }
  }

  /** In every run an embedded download keeps a path, wherever the run stops. */
  lemma {:induction false} EveryRunKeepsReachable(s: State, steps: seq<Step>)
    requires AllReachable(s) && CanRun(s, steps)
    ensures AllReachable(Run(s, steps))
    decreases |steps|
  {
    if steps != [] {
      StepKeepsReachable(s, steps[0]);
      EveryRunKeepsReachable(Apply(s, steps[0]), steps[1..]);
    }
  }

  /** No embedded download is stranded: once completed, its book has a file row or the next run selects it. */
  lemma CompletedIsImportedOrPending(s: State, steps: seq<Step>, id: QueueId)
    requires AllReachable(s) && CanRun(s, steps)
    ensures var lib := Run(s, steps).lib;
            id in lib.queue && lib.queue[id].client.Embedded? && lib.queue[id].status == Completed ==>
              HasRow(lib.files, lib.queue[id].book) || Pending(lib, id)
  {
    EveryRunKeepsReachable(s, steps);
  }

  // ---------------------------------------------------------------- where the promise ends

  /** Deleting a download client clears the client of its rows. */
  function ClientDeleted(s: State, c: ClientId): State {
    s.(lib := s.lib.(queue := map id | id in s.lib.queue ::
         if s.lib.queue[id].client == Configured(c) then s.lib.queue[id].(client := Embedded) else s.lib.queue[id]))
  }

  /** The promise survives that exactly when every row of the client already has a path. */
  lemma DeletingClientStrands(s: State, c: ClientId)
    requires AllReachable(s)
    ensures AllReachable(ClientDeleted(s, c)) <==>
            forall id :: id in s.lib.queue && s.lib.queue[id].client == Configured(c) ==> s.lib.queue[id].savePath != ""
  {
    var t := ClientDeleted(s, c);
    if AllReachable(t) {
      forall id | id in s.lib.queue && s.lib.queue[id].client == Configured(c) ensures s.lib.queue[id].savePath != "" {
        assert Reachable(t.lib.queue[id]);
      }
    }
  }

  /** A row without a client whose download is lost with a restart of the server and added again by the next poll. */
  ghost predicate Relaunchable(s: State, id: QueueId, newExt: string) {
    && id in s.lib.queue && s.lib.queue[id].client.Embedded? && Active(s.lib.queue[id].status)
    && newExt != "" && !HasRow(s.lib.files, s.lib.queue[id].book)
  }

  /**
   * A restarted download saves below the download directory itself. `seen` is the path it has when the next poll
   * comes, and `saved` the one it has in the end; then the queue view comes before another poll.
   */
  function Relaunch(id: QueueId, newExt: string, dir: string, seen: string, saved: string, paths: Import.Paths, w: World): seq<Step> {
    [ServerRestart, Poll(id, true, newExt, dir, paths, w), Progress(newExt, Download(Downloading, seen)),
     Poll(id, true, newExt, dir, paths, w), Progress(newExt, Download(Completed, saved)), Show(id)]
  }

  lemma StepThenRun(s: State, step: Step, rest: seq<Step>)
    requires Enabled(s, step) && CanRun(Apply(s, step), rest)
    ensures CanRun(s, [step] + rest) && Run(s, [step] + rest) == Run(Apply(s, step), rest)
  {
    assert ([step] + rest)[1..] == rest;
  }

  /** The last four steps, from the state in which the download has been added again. */
  lemma PolledThenShown(s: State, id: QueueId, ext: string, dir: string, seen: string, saved: string, paths: Import.Paths, w: World)
    requires id in s.lib.queue && s.lib.queue[id].client.Embedded? && Active(s.lib.queue[id].status)
    requires ext != "" && s.lib.queue[id].external == ext && ext in s.mem
    ensures var poll := Poll(id, true, ext, dir, paths, w);
            var steps := [Progress(ext, Download(Downloading, seen)), poll, Progress(ext, Download(Completed, saved)), Show(id)];
            && CanRun(s, steps)
            && var row, t := s.lib.queue[id], Run(s, steps);
               && t.lib == s.lib.(queue := s.lib.queue[id := row.(status := Completed, savePath := if seen != "" then seen else row.savePath)])
  {
    var poll := Poll(id, true, ext, dir, paths, w);
    var s1 := Apply(s, Progress(ext, Download(Downloading, seen)));
    var s2 := Apply(s1, poll);
    var s3 := Apply(s2, Progress(ext, Download(Completed, saved)));
    assert CanRun(Apply(s3, Show(id)), []);
    StepThenRun(s3, Show(id), []);
    StepThenRun(s2, Progress(ext, Download(Completed, saved)), [Show(id)]);
    StepThenRun(s1, poll, [Progress(ext, Download(Completed, saved)), Show(id)]);
    StepThenRun(s, Progress(ext, Download(Downloading, seen)), [poll, Progress(ext, Download(Completed, saved)), Show(id)]);
  }

  /** The queue row after a relaunched download: completed, with the path of the last poll that saw one. */
  lemma RelaunchedRow(s: State, id: QueueId, newExt: string, dir: string, seen: string, saved: string, paths: Import.Paths, w: World)
    requires Relaunchable(s, id, newExt)
    ensures var steps := Relaunch(id, newExt, dir, seen, saved, paths, w);
            && CanRun(s, steps)
            && var row, lib := s.lib.queue[id], Run(s, steps).lib;
               && id in lib.queue && lib.files == s.lib.files && lib.disk == s.lib.disk
               && lib.queue[id] == row.(external := newExt, status := Completed,
                                        savePath := if seen != "" then seen else row.savePath)
  {
    var poll := Poll(id, true, newExt, dir, paths, w);
    var s1 := Apply(s, ServerRestart);
    var s2 := Apply(s1, poll);
    var rest := [Progress(newExt, Download(Downloading, seen)), poll, Progress(newExt, Download(Completed, saved)), Show(id)];
    PolledThenShown(s2, id, newExt, dir, seen, saved, paths, w);
    StepThenRun(s1, poll, rest);
    StepThenRun(s, ServerRestart, [poll] + rest);
    assert [ServerRestart] + ([poll] + rest) == Relaunch(id, newExt, dir, seen, saved, paths, w);
  }

  /** The recorded path is the live one exactly when a poll saw it before the view, or when it was right all along. */
  lemma LivePathIff(s: State, id: QueueId, newExt: string, dir: string, seen: string, saved: string, paths: Import.Paths, w: World)
    requires Relaunchable(s, id, newExt) && saved != "" && (seen == "" || seen == saved)
    ensures var steps := Relaunch(id, newExt, dir, seen, saved, paths, w);
            && CanRun(s, steps) && id in Run(s, steps).lib.queue
            && (Run(s, steps).lib.queue[id].savePath == saved <==> seen == saved || s.lib.queue[id].savePath == saved)
  {
    RelaunchedRow(s, id, newExt, dir, seen, saved, paths, w);
  }

  /**
   * If no poll saw the path, the recovery run looks for the file at the path of the first attempt: it gives the row
   * up exactly when nothing is there, and marks it failed although the file may be on disk.
   */
  lemma StalePathIsLost(s: State, id: QueueId, newExt: string, dir: string, saved: string, paths: Import.Paths, t: Turn)
    requires Relaunchable(s, id, newExt) && s.lib.queue[id].savePath != ""
    ensures var stale, steps := s.lib.queue[id].savePath, Relaunch(id, newExt, dir, "", saved, paths, t.world);
            && CanRun(s, steps)
            && var lib := Run(s, steps).lib;
               && Pending(lib, id) && lib.queue[id].savePath == stale
               && var (after, v) := TakeTurn(lib, Pick(id, stale), paths, t);
                  && (v.Gone? <==> paths.local(stale) !in s.lib.disk)
                  && (v.Gone? && t.marks ==>
                        after.queue[id].status == Failed && after.disk == s.lib.disk && !Pending(after, id))
  {
    RelaunchedRow(s, id, newExt, dir, "", saved, paths, t.world);
    var lib := Run(s, Relaunch(id, newExt, dir, "", saved, paths, t.world)).lib;
    assert HasRow(lib.files, lib.queue[id].book) <==> HasRow(s.lib.files, s.lib.queue[id].book);
  }
}
