/** How a direct download ends, over what the outside decided, and which steps end the downloads of a run. */
module DirectFacts {
  import opened Streams
  import opened Direct
  import S = DirectStatus

  // ---------------------------------------------------------------- why a download stops

  /** A page was asked for and came. */
  predicate Answered(w: World) {
    w.resolved && w.first.Got? && w.first.response.code == 200
  }

  /** The page came as HTML; whether it is a challenge is decided by its first 4096 bytes. */
  ghost predicate Challenge(w: World, whole: Bytes) {
    Answered(w) && w.first.response.html && w.detect(if |whole| > 4096 then whole[..4096] else whole)
  }

  /** Every reason to stop before a file is made, over the inputs. */
  lemma StopsIff(w: World, whole: Bytes)
    ensures var c := Choose(w, whole);
            && (c == Stop(Unresolved) <==> !w.resolved)
            && (c == Stop(Unreachable) <==> w.resolved && !w.first.Got?)
            && (forall code :: c == Stop(BadStatus(code)) <==>
                  w.resolved && w.first.Got? && w.first.response.code == code && code != 200)
            && (c == Stop(LoginRequired) <==> Answered(w) && w.first.response.html && !Challenge(w, whole))
            && (c == Stop(Challenged) <==> Challenge(w, whole) && (w.bypasser == Absent || w.bypasser == Disabled))
            && (c == Stop(Unsolvable) <==> Challenge(w, whole) && w.bypasser == GivesUp)
            && (c == Stop(BypassBroken) <==> Challenge(w, whole) && w.bypasser == Breaks)
            && (c == Stop(UnreachableAfterBypass) <==> Challenge(w, whole) && w.bypasser == Solves(NoResponse))
            && (forall code :: c == Stop(BadStatusAfterBypass(code)) <==>
                  && Challenge(w, whole) && w.bypasser.Solves? && w.bypasser.retry.Got?
                  && w.bypasser.retry.response.code == code && code != 200)
  {
  }

  /** The response that is used: the first if it is no page, otherwise the retry of a solved challenge. */
  lemma UsesIff(w: World, whole: Bytes, r: Response)
    ensures Choose(w, whole) == Use(r) <==>
            || (Answered(w) && !w.first.response.html && r == w.first.response)
            || (Challenge(w, whole) && w.bypasser == Solves(Got(r)) && r.code == 200)
  {
  }

  // ---------------------------------------------------------------- the file

  /**
   * The file of a response: it stands below the given folder under the name the server suggests, or under the item's
   * name with the ending of an EPUB, and holds the beginning of the body that fits.
   */
  lemma FileSpelled(w: World, r: Response, body: Bytes, dir: string, name: string)
    ensures var o := Saved(w, r, body, dir, name);
            && (o.reason == NoDirectory <==> !w.directoryMade)
            && (o.reason == NoFile <==> w.directoryMade && !w.fileMade)
            && (o.leaves.NoWrite? <==> !(w.directoryMade && w.fileMade))
            && (o.leaves.Writes? ==>
                  && (r.name != "" ==> o.leaves.path == w.join(dir, r.name))
                  && (r.name == "" ==> o.leaves.path == w.join(dir, name + ".epub"))
                  && o.leaves.content <= body
                  && |o.leaves.content| == (if |body| < w.room then |body| else w.room)
                  && (o.reason == WriteError <==> |body| > w.room)
                  && (o.reason == ReadError <==> |body| <= w.room && r.body.broken)
                  && (o.reason == NoError <==> |body| <= w.room && !r.body.broken))
  {
  }

  /** A published progress is the percentage of the announced length; without a length it stays what it was. */
  lemma PercentSpelled(downloaded: nat, size: int, previous: real, p: real)
    requires p == Percent(downloaded, size, previous)
    ensures size > 0 ==> p * size as real == 100.0 * downloaded as real
    ensures size <= 0 ==> p == previous
  {
    if size > 0 {
      var d, n := downloaded as real, size as real;
      assert d / n * n == d;
    }
  }

  // ---------------------------------------------------------------- which steps end a download

  /** Some worker of an item under `id` ends with that result. */
  predicate Finished(s: S.State, steps: seq<S.Step>, id: Id, ok: bool)
    requires S.CanRun(s, steps)
    decreases |steps|
  {
    && steps != []
    && ((steps[0].Finish? && steps[0].ok == ok && s.items[steps[0].h].id == id)
        || Finished(S.Apply(s, steps[0]), steps[1..], id, ok))
  }

  /** The item is there and has the status. */
  predicate Has(s: S.State, h: nat, status: Status) {
    h < |s.items| && s.items[h].status == status
  }

  /** What one step writes, spelled out. */
  lemma StepWrites(s: S.State, step: S.Step, h: nat)
    requires S.Enabled(s, step) && h < |S.Apply(s, step).items|
    ensures h < |s.items| ==> S.Apply(s, step).items[h].id == s.items[h].id
    ensures Has(S.Apply(s, step), h, Completed) ==> Has(s, h, Completed) || step == S.Finish(h, true)
    ensures Has(S.Apply(s, step), h, Failed) ==>
              || Has(s, h, Failed)
              || (step.Finish? && !step.ok && h < |s.items| && s.items[step.h].id in s.table && s.table[s.items[step.h].id] == h)
  {
  }

  /** An item shows "completed" only if its own worker ended with success. */
  lemma {:induction false} CompletedMeansFinished(s: S.State, steps: seq<S.Step>, h: nat)
    requires S.CanRun(s, steps) && !Has(s, h, Completed) && Has(S.Run(s, steps), h, Completed)
    ensures S.Finish(h, true) in steps
    decreases |steps|
  {
    var next := S.Apply(s, steps[0]);
    if Has(next, h, Completed) {
      StepWrites(s, steps[0], h);
    } else {
      CompletedMeansFinished(next, steps[1..], h);
    }
  }

  /** Every entry of the table is the item of its id. */
  ghost predicate Filed(s: S.State) {
    forall id :: id in s.table ==> s.table[id] < |s.items| && s.items[s.table[id]].id == id
  }

  lemma StepKeepsFiled(s: S.State, step: S.Step)
    requires Filed(s) && S.Enabled(s, step)
    ensures Filed(S.Apply(s, step)) && |s.items| <= |S.Apply(s, step).items|
    ensures forall h :: 0 <= h < |s.items| ==> S.Apply(s, step).items[h].id == s.items[h].id
  {
  }

  lemma {:induction false} IdsStay(s: S.State, steps: seq<S.Step>, h: nat)
    requires Filed(s) && S.CanRun(s, steps) && h < |s.items|
    ensures h < |S.Run(s, steps).items| && S.Run(s, steps).items[h].id == s.items[h].id
    decreases |steps|
  {
    if steps != [] {
      StepKeepsFiled(s, steps[0]);
      IdsStay(S.Apply(s, steps[0]), steps[1..], h);
    }
  }

  /** An item shows "failed" only if a worker of an item under its id ended without success. */
  lemma {:induction false} FailedMeansFinished(s: S.State, steps: seq<S.Step>, h: nat)
    requires Filed(s) && S.CanRun(s, steps) && !Has(s, h, Failed) && Has(S.Run(s, steps), h, Failed)
    ensures Finished(s, steps, S.Run(s, steps).items[h].id, false)
    decreases |steps|
  {
    var next := S.Apply(s, steps[0]);
    StepKeepsFiled(s, steps[0]);
    if Has(next, h, Failed) {
      StepWrites(s, steps[0], h);
      IdsStay(next, steps[1..], h);
    } else {
      FailedMeansFinished(next, steps[1..], h);
    }
  }

  /** A worker that ends with success completes its item, wherever the table points. */
  lemma SuccessCompletes(s: S.State, h: nat)
    requires h < |s.items| && s.items[h].phase == S.Working
    ensures S.Enabled(s, S.Finish(h, true)) && Has(S.Apply(s, S.Finish(h, true)), h, Completed)
    ensures Filed(s) && s.items[h].id in s.table ==> Has(S.Apply(s, S.Finish(h, false)), s.table[s.items[h].id], Failed)
  {
  }

  // ---------------------------------------------------------------- what moving forward allows

  /** From not yet known to queued, downloading, one of the two ends, and gone; steps may be left out. */
  lemma ForwardSpelled(a: S.Sight, b: S.Sight)
    ensures S.Forward(a, b) <==>
            || a == b
            || a == S.Unknown
            || (a == S.Shown(Queued) && (b == S.Shown(Downloading) || b == S.Shown(Completed) || b == S.Shown(Failed) || b == S.Gone))
            || (a == S.Shown(Downloading) && (b == S.Shown(Completed) || b == S.Shown(Failed) || b == S.Gone))
            || ((a == S.Shown(Completed) || a == S.Shown(Failed)) && b == S.Gone)
  {
  }
}
