/** The recovery run: imports every completed download whose book has no file row yet. */
module PendingImport {
  import opened Options
  import opened Import
  import opened ImportSafety

  /** What the query for pending imports selects. */
  ghost predicate Pending(lib: Library, id: QueueId) {
    && id in lib.queue
    && lib.queue[id].status == Completed
    && lib.queue[id].savePath != ""
    && !HasRow(lib.files, lib.queue[id].book)
  }

  datatype Pick = Pick(id: QueueId, savePath: string)

  /** Per row: whether marking it failed works, and what happens during its import. */
  datatype Turn = Turn(marks: bool, world: World)

  datatype Verdict = Gone(marked: bool) | Took(result: Result)

  predicate Imports(v: Verdict) {
    v.Took? && v.result.Done?
  }

  predicate Clean(v: Verdict) {
    v == Gone(true) || Imports(v)
  }

  ghost predicate AllClean(vs: seq<Verdict>) {
    forall v :: v in vs ==> Clean(v)
  }

  function MarkFailed(lib: Library, id: QueueId, works: bool): Library {
    if works && id in lib.queue then lib.(queue := lib.queue[id := lib.queue[id].(status := Failed)]) else lib
  }

  /** One row: marked failed when its file is gone, imported otherwise. */
  function TakeTurn(lib: Library, p: Pick, paths: Paths, t: Turn): (Library, Verdict) {
    if paths.local(p.savePath) !in lib.disk then (MarkFailed(lib, p.id, t.marks), Gone(t.marks))
    else
      var (after, r) := Imported(lib, p.id, p.savePath, paths, t.world);
      (after, Took(r))
  }

  function Turns(lib: Library, picks: seq<Pick>, paths: Paths, ts: seq<Turn>): (r: (Library, seq<Verdict>))
    requires |ts| == |picks|
    ensures |r.1| == |picks|
  {
    if picks == [] then (lib, [])
    else
      var (before, vs) := Turns(lib, picks[..|picks| - 1], paths, ts[..|ts| - 1]);
      var (after, w) := TakeTurn(before, picks[|picks| - 1], paths, ts[|ts| - 1]);
      (after, vs + [w])
  }

  function Count(vs: seq<Verdict>): nat {
    if vs == [] then 0 else Count(vs[..|vs| - 1]) + if Imports(vs[|vs| - 1]) then 1 else 0
  }

  ghost predicate Distinct(picks: seq<Pick>) {
    forall i, j :: 0 <= i < j < |picks| ==> picks[i].id != picks[j].id
  }

  ghost predicate Known(lib: Library, picks: seq<Pick>) {
    forall i :: 0 <= i < |picks| ==> picks[i].id in lib.queue
  }

  predicate Selected(picks: seq<Pick>, id: QueueId) {
    exists i :: 0 <= i < |picks| && picks[i].id == id
  }

  /** `picks` are the selected rows, each once, in whatever order the query returns them. */
  ghost predicate Lists(lib: Library, picks: seq<Pick>) {
    && Distinct(picks)
    && (forall i :: 0 <= i < |picks| ==>
          Pending(lib, picks[i].id) && picks[i].savePath == lib.queue[picks[i].id].savePath)
    && (forall id :: Pending(lib, id) ==> Selected(picks, id))
  }

  method ImportOne(s: Service, p: Pick, paths: Paths, t: Turn) returns (v: Verdict)
    modifies s
    ensures (s.View(), v) == TakeTurn(old(s.View()), p, paths, t)
  {
    if paths.local(p.savePath) !in s.disk {
      var _ := s.UpdateQueueItemStatus(p.id, Failed, t.marks);
      v := Gone(t.marks);
    } else {
      var r := s.ImportCompletedDownload(p.id, p.savePath, paths, t.world);
      v := Took(r);
    }
  }

  method ImportAll(s: Service, pending: seq<Pick>, paths: Paths, ts: seq<Turn>)
    returns (imported: nat, ghost verdicts: seq<Verdict>)
    requires |ts| == |pending|
    modifies s
    ensures (s.View(), verdicts) == Turns(old(s.View()), pending, paths, ts)
    ensures imported == Count(verdicts)
  {
    ghost var start := s.View();
    imported := 0;
    verdicts := [];
    var i := 0;
    while i < |pending|
      invariant 0 <= i <= |pending|
      invariant Partway(start, s.View(), verdicts, pending, paths, ts, i)
      invariant imported == Count(verdicts)
    {
      ghost var before := s.View();
      var v := ImportOne(s, pending[i], paths, ts[i]);
      if Imports(v) {
        imported := imported + 1;
      }
      NextTurn(start, before, verdicts, pending, paths, ts, i);
      NextCount(verdicts, v);
      verdicts := verdicts + [v];
      i := i + 1;
    }
    AllTurns(start, s.View(), verdicts, pending, paths, ts);
  }

  /** Where a run is after `i` turns. */
  ghost predicate Partway(start: Library, now: Library, vs: seq<Verdict>, picks: seq<Pick>, paths: Paths, ts: seq<Turn>,
                          i: nat)
    requires |ts| == |picks| && i <= |picks|
  {
    (now, vs) == Turns(start, picks[..i], paths, ts[..i])
  }

  /** All rows are collected before the first import; a query that fails ends the run at once. */
  method ImportPendingCompletedDownloads(s: Service, queried: bool, rows: seq<Pick>, paths: Paths, ts: seq<Turn>)
    returns (imported: Option<nat>, ghost verdicts: seq<Verdict>)
    requires |ts| == |rows| && Lists(s.View(), rows)
    modifies s
    ensures (s.View(), verdicts) == if queried then Turns(old(s.View()), rows, paths, ts) else (old(s.View()), [])
    ensures imported == if queried then Some(Count(verdicts)) else None
  {
    if !queried {
      return None, [];
    }
    var pending: seq<Pick> := [];
    while |pending| < |rows|
      invariant |pending| <= |rows| && pending == rows[..|pending|] && s.View() == old(s.View())
    {
      pending := pending + [rows[|pending|]];
    }
    assert pending == rows;
    var count;
    count, verdicts := ImportAll(s, pending, paths, ts);
    imported := Some(count);
  }

  lemma NextCount(vs: seq<Verdict>, v: Verdict)
    ensures Count(vs + [v]) == Count(vs) + if Imports(v) then 1 else 0
  {
    assert (vs + [v])[..|vs|] == vs;
  }

  lemma NextTurn(start: Library, now: Library, vs: seq<Verdict>, picks: seq<Pick>, paths: Paths, ts: seq<Turn>, i: nat)
    requires i < |picks| == |ts| && Partway(start, now, vs, picks, paths, ts, i)
    ensures var (after, v) := TakeTurn(now, picks[i], paths, ts[i]);
            Partway(start, after, vs + [v], picks, paths, ts, i + 1)
  {
    assert picks[..i + 1][..i] == picks[..i] && ts[..i + 1][..i] == ts[..i];
  }

  lemma AllTurns(start: Library, now: Library, vs: seq<Verdict>, picks: seq<Pick>, paths: Paths, ts: seq<Turn>)
    requires |ts| == |picks| && Partway(start, now, vs, picks, paths, ts, |picks|)
    ensures (now, vs) == Turns(start, picks, paths, ts)
  {
    assert picks[..|picks|] == picks && ts[..|ts|] == ts;
  }

  // ---------------------------------------------------------------- one turn

  /** Queue rows as the importer leaves them: the same rows, with the same books and paths. */
  ghost predicate SameRows(a: Library, b: Library) {
    && a.queue.Keys == b.queue.Keys
    && forall id :: id in a.queue ==> b.queue[id] == a.queue[id].(status := b.queue[id].status)
  }

  /** What a turn does to the queue. */
  lemma TurnQueue(lib: Library, p: Pick, paths: Paths, t: Turn)
    ensures var (after, v) := TakeTurn(lib, p, paths, t);
            && SameRows(lib, after)
            && (forall id :: id in lib.queue && id != p.id ==> after.queue[id] == lib.queue[id])
            && (p.id in lib.queue ==>
                  after.queue[p.id].status ==
                  if v == Gone(true) then Failed else if Imports(v) then Completed else lib.queue[p.id].status)
  {
    QueueAfter(lib, p.id, p.savePath, paths, t.world);
  }

  /** A turn takes the rows of no other book, and leaves its own book with one when it imports. */
  lemma TurnFiles(lib: Library, p: Pick, paths: Paths, t: Turn, book: BookId)
    requires p.id in lib.queue
    ensures var (after, v) := TakeTurn(lib, p, paths, t);
            && (HasRow(lib.files, book) && (book != lib.queue[p.id].book || Clean(v)) ==> HasRow(after.files, book))
            && (Imports(v) ==> HasRow(after.files, lib.queue[p.id].book))
  {
    var row := lib.queue[p.id];
    var (after, v) := TakeTurn(lib, p, paths, t);
    if v.Took? {
      FilesAfter(lib, p.id, p.savePath, paths, t.world);
      if Imports(v) {
        assert after.files[Destination(row, p.savePath, paths)].book == row.book;
      }
      if HasRow(lib.files, book) && book != row.book {
        var f :| f in lib.files && lib.files[f].book == book;
        OthersUntouched(lib, p.id, p.savePath, paths, t.world, f);
        assert after.files[f].book == book;
      }
    }
  }

  // ---------------------------------------------------------------- whole runs

  /** A run neither adds nor removes queue rows, and leaves rows that were not selected alone. */
  lemma {:induction false} RunKeepsQueue(lib: Library, picks: seq<Pick>, paths: Paths, ts: seq<Turn>)
    requires |ts| == |picks|
    ensures var after := Turns(lib, picks, paths, ts).0;
            && SameRows(lib, after)
            && (forall id :: id in lib.queue && !Selected(picks, id) ==> after.queue[id] == lib.queue[id])
  {
    if picks != [] {
      var n := |picks| - 1;
      RunKeepsQueue(lib, picks[..n], paths, ts[..n]);
      var (before, vs) := Turns(lib, picks[..n], paths, ts[..n]);
      TurnQueue(before, picks[n], paths, ts[n]);
      forall id | !Selected(picks, id) ensures !Selected(picks[..n], id) && id != picks[n].id {
        Fewer(picks, n, id);
      }
    }
  }

  lemma Fewer(picks: seq<Pick>, n: nat, id: QueueId)
    requires n < |picks| && !Selected(picks, id)
    ensures !Selected(picks[..n], id) && id != picks[n].id
  {
  }

  /**
   * The verdicts split the selected rows into imported ones, ones marked failed because their file is gone,
   * and failed imports, and each ends with the status its verdict says.
   */
  lemma {:induction false} VerdictIsStatus(lib: Library, picks: seq<Pick>, paths: Paths, ts: seq<Turn>, i: nat)
    requires |ts| == |picks| && Distinct(picks) && Known(lib, picks) && i < |picks|
    ensures var (after, vs) := Turns(lib, picks, paths, ts);
            var id := picks[i].id;
            && id in after.queue
            && after.queue[id].status ==
               if vs[i] == Gone(true) then Failed else if Imports(vs[i]) then Completed else lib.queue[id].status
  {
    var n := |picks| - 1;
    var (before, vs) := Turns(lib, picks[..n], paths, ts[..n]);
    RunKeepsQueue(lib, picks[..n], paths, ts[..n]);
    TurnQueue(before, picks[n], paths, ts[n]);
    if i < n {
      VerdictIsStatus(lib, picks[..n], paths, ts[..n], i);
    } else {
      assert !Selected(picks[..n], picks[n].id);
    }
  }

  /** A row is marked failed only when its file was not on disk at its turn. */
  lemma GoneMeansMissing(lib: Library, picks: seq<Pick>, paths: Paths, ts: seq<Turn>, i: nat)
    requires |ts| == |picks| && i < |picks|
    ensures var before := Turns(lib, picks[..i], paths, ts[..i]).0;
            Turns(lib, picks, paths, ts).1[i].Gone? <==> paths.local(picks[i].savePath) !in before.disk
    decreases |picks|
  {
    var n := |picks| - 1;
    if i < n {
      GoneMeansMissing(lib, picks[..n], paths, ts[..n], i);
      assert picks[..n][..i] == picks[..i] && ts[..n][..i] == ts[..i];
    }
  }

  /** A book keeps a row through a run if no selected row is of that book, or if nothing went wrong. */
  lemma {:induction false} RunKeepsRow(lib: Library, picks: seq<Pick>, paths: Paths, ts: seq<Turn>, book: BookId)
    requires |ts| == |picks| && Known(lib, picks) && HasRow(lib.files, book)
    requires || (forall i :: 0 <= i < |picks| ==> lib.queue[picks[i].id].book != book)
             || AllClean(Turns(lib, picks, paths, ts).1)
    ensures HasRow(Turns(lib, picks, paths, ts).0.files, book)
  {
    if picks != [] {
      var n := |picks| - 1;
      var (before, vs) := Turns(lib, picks[..n], paths, ts[..n]);
      var (after, v) := TakeTurn(before, picks[n], paths, ts[n]);
      if AllClean(vs + [v]) {
        CleanParts(vs, v);
      }
      RunKeepsRow(lib, picks[..n], paths, ts[..n], book);
      RunKeepsQueue(lib, picks[..n], paths, ts[..n]);
      TurnFiles(before, picks[n], paths, ts[n], book);
    }
  }

  lemma CleanParts(vs: seq<Verdict>, v: Verdict)
    requires AllClean(vs + [v])
    ensures Clean(v) && AllClean(vs)
  {
    assert v in vs + [v];
    assert forall u :: u in vs ==> u in vs + [v];
  }

  /** In a clean run the book of every imported row has a file row at the end. */
  lemma {:induction false} RunImports(lib: Library, picks: seq<Pick>, paths: Paths, ts: seq<Turn>, i: nat)
    requires |ts| == |picks| && Known(lib, picks) && i < |picks|
    requires AllClean(Turns(lib, picks, paths, ts).1)
    requires Imports(Turns(lib, picks, paths, ts).1[i])
    ensures HasRow(Turns(lib, picks, paths, ts).0.files, lib.queue[picks[i].id].book)
  {
    var n := |picks| - 1;
    var book := lib.queue[picks[i].id].book;
    var (before, vs) := Turns(lib, picks[..n], paths, ts[..n]);
    var v := TakeTurn(before, picks[n], paths, ts[n]).1;
    CleanParts(vs, v);
    RunKeepsQueue(lib, picks[..n], paths, ts[..n]);
    if i < n {
      assert vs[i] == (vs + [v])[i] && picks[..n][i] == picks[i];
      RunImports(lib, picks[..n], paths, ts[..n], i);
    }
    TurnFiles(before, picks[n], paths, ts[n], book);
  }

  /** Whatever goes wrong, a run makes no row pending that was not pending before. */
  lemma PendingOnlyShrinks(lib: Library, picks: seq<Pick>, paths: Paths, ts: seq<Turn>, id: QueueId)
    requires |ts| == |picks| && Lists(lib, picks)
    requires Pending(Turns(lib, picks, paths, ts).0, id)
    ensures Selected(picks, id)
  {
    RunKeepsQueue(lib, picks, paths, ts);
    if !Selected(picks, id) && HasRow(lib.files, lib.queue[id].book) {
      RunKeepsRow(lib, picks, paths, ts, lib.queue[id].book);
    }
  }

  /** After a run without errors nothing is pending, even with several rows for one book or one path. */
  lemma CleanRunEmptiesPending(lib: Library, picks: seq<Pick>, paths: Paths, ts: seq<Turn>, id: QueueId)
    requires |ts| == |picks| && Lists(lib, picks)
    requires AllClean(Turns(lib, picks, paths, ts).1)
    ensures !Pending(Turns(lib, picks, paths, ts).0, id)
  {
    var (after, vs) := Turns(lib, picks, paths, ts);
    if Pending(after, id) {
      PendingOnlyShrinks(lib, picks, paths, ts, id);
      var i :| 0 <= i < |picks| && picks[i].id == id;
      RunKeepsQueue(lib, picks, paths, ts);
      VerdictIsStatus(lib, picks, paths, ts, i);
      CleanVerdictEndsRow(lib, picks, paths, ts, i);
    }
  }

  lemma CleanVerdictEndsRow(lib: Library, picks: seq<Pick>, paths: Paths, ts: seq<Turn>, i: nat)
    requires |ts| == |picks| && Known(lib, picks) && i < |picks|
    requires AllClean(Turns(lib, picks, paths, ts).1)
    ensures var (after, vs) := Turns(lib, picks, paths, ts);
            vs[i] == Gone(true) || (Imports(vs[i]) && HasRow(after.files, lib.queue[picks[i].id].book))
  {
    var vs := Turns(lib, picks, paths, ts).1;
    assert vs[i] in vs;
    if Imports(vs[i]) {
      RunImports(lib, picks, paths, ts, i);
    }
  }

  /** So a second run after a clean one selects nothing and changes nothing. */
  lemma SecondRunDoesNothing(lib: Library, picks: seq<Pick>, paths: Paths, ts: seq<Turn>,
                             again: seq<Pick>, ts2: seq<Turn>)
    requires |ts| == |picks| && Lists(lib, picks) && |ts2| == |again|
    requires AllClean(Turns(lib, picks, paths, ts).1)
    requires Lists(Turns(lib, picks, paths, ts).0, again)
    ensures var after := Turns(lib, picks, paths, ts).0;
            Turns(after, again, paths, ts2) == (after, [])
  {
    if again != [] {
      CleanRunEmptiesPending(lib, picks, paths, ts, again[0].id);
      assert false;
    }
  }
}
