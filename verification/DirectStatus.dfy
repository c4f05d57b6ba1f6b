/**
 * The statuses the embedded downloader shows, under every interleaving of additions, workers and removals.
 * Each step is one critical section of the client's lock.
 */
module DirectStatus {
  import opened Direct

  /** How far the goroutine of an item has come. */
  datatype Phase = Waiting | Working | Ended

  datatype Entry = Entry(id: Id, status: Status, phase: Phase)

  /** `items` are the item objects ever made; the table points into them. */
  datatype State = State(items: seq<Entry>, table: map<Id, nat>)

  datatype Step = Add(id: Id) | Begin(h: nat) | Finish(h: nat, ok: bool) | Remove(id: Id)

  predicate Enabled(s: State, step: Step) {
    match step
    case Add(_) => true
    case Begin(h) => h < |s.items| && s.items[h].phase == Waiting
    case Finish(h, _) => h < |s.items| && s.items[h].phase == Working
    case Remove(id) => id in s.table
  }

  ghost predicate WellFormed(s: State) {
    forall id :: id in s.table ==> s.table[id] < |s.items|
  }

  /** The table lookup of `updateStatus`: the write reaches whatever item is under the id now, if any. */
  function UpdateStatus(s: State, id: Id, status: Status): State {
    if id in s.table && s.table[id] < |s.items|
    then s.(items := s.items[s.table[id] := s.items[s.table[id]].(status := status)])
    else s
  }

  function SetPhase(s: State, h: nat, phase: Phase): State
    requires h < |s.items|
  {
    s.(items := s.items[h := s.items[h].(phase := phase)])
  }

  function Apply(s: State, step: Step): State
    requires Enabled(s, step)
  {
    match step
    case Add(id) => State(s.items + [Entry(id, Queued, Waiting)], s.table[id := |s.items|])
    case Begin(h) => UpdateStatus(SetPhase(s, h, Working), s.items[h].id, Downloading)
    case Finish(h, ok) =>
      if ok then s.(items := s.items[h := s.items[h].(phase := Ended, status := Completed)])
      else UpdateStatus(SetPhase(s, h, Ended), s.items[h].id, Failed)
    case Remove(id) => s.(table := s.table - {id})
  }

  predicate CanRun(s: State, steps: seq<Step>)
    decreases |steps|
  {
    steps == [] || (Enabled(s, steps[0]) && CanRun(Apply(s, steps[0]), steps[1..]))
  }

  function Run(s: State, steps: seq<Step>): State
    requires CanRun(s, steps)
    decreases |steps|
  {
    if steps == [] then s else Run(Apply(s, steps[0]), steps[1..])
  }

  // ---------------------------------------------------------------- what an observer sees

  datatype Sight = Unknown | Shown(status: Status) | Gone

  predicate Used(s: State, id: Id) {
    exists h :: 0 <= h < |s.items| && s.items[h].id == id
  }

  ghost function Seen(s: State, id: Id): Sight
    requires WellFormed(s)
  {
    if id in s.table then Shown(s.items[s.table[id]].status)
    else if Used(s, id) then Gone else Unknown
  }

  function Rank(x: Sight): nat {
    match x
    case Unknown => 0
    case Shown(Queued) => 1
    case Shown(Downloading) => 2
    case Shown(_) => 3
    case Gone => 4
  }

  /** Later sights rank higher, and an end state does not change any more until it is removed. */
  predicate Forward(a: Sight, b: Sight) {
    a == b || Rank(a) < Rank(b)
  }

  /** Every addition of a run uses an id of its own. */
  ghost predicate FreshIds(s: State, steps: seq<Step>)
    requires CanRun(s, steps)
    decreases |steps|
  {
    steps == [] || ((steps[0].Add? ==> !Used(s, steps[0].id)) && FreshIds(Apply(s, steps[0]), steps[1..]))
  }

  predicate Fits(e: Entry) {
    match e.phase
    case Waiting => e.status == Queued
    case Working => e.status == Downloading
    case Ended => e.status == Completed || e.status == Failed
  }

  /** Ids are distinct, the table is right, and an item the table shows has the status of its worker's phase. */
  ghost predicate Inv(s: State) {
    && (forall g, h :: 0 <= g < |s.items| && 0 <= h < |s.items| && s.items[g].id == s.items[h].id ==> g == h)
    && (forall id :: id in s.table ==>
          s.table[id] < |s.items| && s.items[s.table[id]].id == id && Fits(s.items[s.table[id]]))
  }

  /** A worker step changes at most its own item, and shows its status only through the table. */
  lemma WorkerStep(s: State, step: Step)
    requires Inv(s) && Enabled(s, step) && (step.Begin? || step.Finish?)
    ensures var r := Apply(s, step);
            var e := s.items[step.h];
            var status := if step.Begin? then Downloading else if step.ok then Completed else Failed;
            && r.table == s.table && |r.items| == |s.items|
            && (forall k :: 0 <= k < |s.items| && k != step.h ==> r.items[k] == s.items[k])
            && r.items[step.h].id == e.id
            && (e.id in s.table && s.table[e.id] == step.h ==>
                  r.items[step.h] == Entry(e.id, status, if step.Begin? then Working else Ended))
  {
  }

  lemma StepKeepsInv(s: State, step: Step)
    requires Inv(s) && Enabled(s, step)
    requires step.Add? ==> !Used(s, step.id)
    ensures Inv(Apply(s, step))
  {
    if step.Begin? || step.Finish? {
      WorkerStep(s, step);
    }
  }

  lemma StepMovesForward(s: State, step: Step, id: Id)
    requires Inv(s) && Enabled(s, step)
    requires step.Add? ==> !Used(s, step.id)
    ensures Inv(Apply(s, step)) && Forward(Seen(s, id), Seen(Apply(s, step), id))
  {
    StepKeepsInv(s, step);
    var r := Apply(s, step);
    if step.Begin? || step.Finish? {
      WorkerStep(s, step);
      SameIds(s, r, id);
    } else if step.Add? {
      assert r.items[|s.items|].id == step.id;
      forall h | 0 <= h < |s.items| ensures r.items[h] == s.items[h] {
      }
    } else {
      assert id == step.id ==> s.items[s.table[id]].id == id;
    }
  }

  lemma SameIds(s: State, r: State, id: Id)
    requires |r.items| == |s.items| && forall k :: 0 <= k < |s.items| ==> r.items[k].id == s.items[k].id
    ensures Used(s, id) <==> Used(r, id)
  {
    if Used(s, id) {
      var h :| 0 <= h < |s.items| && s.items[h].id == id;
      assert r.items[h].id == id;
    }
    if Used(r, id) {
      var h :| 0 <= h < |r.items| && r.items[h].id == id;
      assert s.items[h].id == id;
    }
  }

  /**
   * The status seen for an id only moves from queued to downloading to one end state, which stays until
   * the id is removed; a removed id never comes back, whatever its worker still writes.
   */
  lemma {:induction false} EveryRunMovesForward(s: State, steps: seq<Step>, id: Id)
    requires Inv(s) && CanRun(s, steps) && FreshIds(s, steps)
    ensures Inv(Run(s, steps)) && Forward(Seen(s, id), Seen(Run(s, steps), id))
    decreases |steps|
  {
    if steps != [] {
      StepMovesForward(s, steps[0], id);
      EveryRunMovesForward(Apply(s, steps[0]), steps[1..], id);
    }
  }

  /** When no worker is left, everything shown has ended. */
  lemma QuietMeansEnded(s: State, id: Id)
    requires Inv(s) && forall h :: 0 <= h < |s.items| ==> s.items[h].phase == Ended
    ensures Seen(s, id) != Shown(Queued) && Seen(s, id) != Shown(Downloading)
  {
  }

  /** With one id for two downloads the first worker's failure overwrites the second download's end state. */
  lemma SharedIdRegresses(id: Id)
    ensures var steps := [Add(id), Begin(0), Add(id), Begin(1), Finish(1, true)];
            var s0 := State([], map[]);
            && CanRun(s0, steps)
            && var s := Run(s0, steps);
               && WellFormed(s) && Seen(s, id) == Shown(Completed)
               && Enabled(s, Finish(0, false))
               && WellFormed(Apply(s, Finish(0, false)))
               && Seen(Apply(s, Finish(0, false)), id) == Shown(Failed)
  {
    var s0 := State([], map[]);
    var s1 := Apply(s0, Add(id));
    var s2 := Apply(s1, Begin(0));
    var s3 := Apply(s2, Add(id));
    var s4 := Apply(s3, Begin(1));
    var s5 := Apply(s4, Finish(1, true));
    assert s5.items[1] == Entry(id, Completed, Ended) && s5.table[id] == 1;
    Prepend(s4, Finish(1, true), []);
    Prepend(s3, Begin(1), [Finish(1, true)]);
    Prepend(s2, Add(id), [Begin(1), Finish(1, true)]);
    Prepend(s1, Begin(0), [Add(id), Begin(1), Finish(1, true)]);
    Prepend(s0, Add(id), [Begin(0), Add(id), Begin(1), Finish(1, true)]);
  }

  lemma Prepend(s: State, step: Step, rest: seq<Step>)
    requires Enabled(s, step) && CanRun(Apply(s, step), rest)
    ensures CanRun(s, [step] + rest) && Run(s, [step] + rest) == Run(Apply(s, step), rest)
    ensures Added([step] + rest) == (if step.Add? then [step.id] else []) + Added(rest)
  {
    assert ([step] + rest)[1..] == rest;
  }

  // ---------------------------------------------------------------- which additions always move forward

  /** The ids that a run adds, in order. */
  function Added(steps: seq<Step>): seq<Id> {
    if steps == [] then [] else (if steps[0].Add? then [steps[0].id] else []) + Added(steps[1..])
  }

  lemma StepWellFormed(s: State, step: Step)
    requires WellFormed(s) && Enabled(s, step)
    ensures WellFormed(Apply(s, step))
  {
  }

  ghost predicate StepForward(s: State, step: Step)
    requires WellFormed(s) && Enabled(s, step)
  {
    StepWellFormed(s, step);
    forall id :: Forward(Seen(s, id), Seen(Apply(s, step), id))
  }

  /** No step of a run takes a status back. */
  ghost predicate AlwaysForward(s: State, steps: seq<Step>)
    requires WellFormed(s) && CanRun(s, steps)
    decreases |steps|
  {
    steps == [] ||
    (StepWellFormed(s, steps[0]);
     StepForward(s, steps[0]) && AlwaysForward(Apply(s, steps[0]), steps[1..]))
  }

  /** The ids are distinct, and none has been used before. */
  ghost predicate NewIds(s: State, ids: seq<Id>) {
    && (forall i, j :: 0 <= i < j < |ids| ==> ids[i] != ids[j])
    && (forall i :: 0 <= i < |ids| ==> !Used(s, ids[i]))
  }

  /** Only an addition uses an id. */
  lemma StepUses(s: State, step: Step, id: Id)
    requires Inv(s) && Enabled(s, step)
    ensures Used(Apply(s, step), id) <==> Used(s, id) || (step.Add? && step.id == id)
  {
    var r := Apply(s, step);
    if step.Add? {
      assert r.items[|s.items|].id == step.id;
      assert forall h :: 0 <= h < |s.items| ==> r.items[h] == s.items[h];
    } else if step.Begin? || step.Finish? {
      WorkerStep(s, step);
      SameIds(s, r, id);
    }
  }

  lemma NewIdsNext(s: State, ids: seq<Id>)
    requires Inv(s) && ids != []
    ensures NewIds(s, ids) <==> !Used(s, ids[0]) && NewIds(Apply(s, Add(ids[0])), ids[1..])
  {
    forall i | 1 <= i < |ids| ensures Used(Apply(s, Add(ids[0])), ids[i]) <==> Used(s, ids[i]) || ids[i] == ids[0] {
      StepUses(s, Add(ids[0]), ids[i]);
    }
    assert forall i :: 0 <= i < |ids[1..]| ==> ids[1..][i] == ids[i + 1];
    if !Used(s, ids[0]) && NewIds(Apply(s, Add(ids[0])), ids[1..]) {
      forall i | 1 <= i < |ids| ensures !Used(s, ids[i]) && ids[i] != ids[0] {
        assert ids[1..][i - 1] == ids[i];
      }
      forall i, j | 0 <= i < j < |ids| ensures ids[i] != ids[j] {
        if i > 0 {
          assert ids[1..][i - 1] != ids[1..][j - 1];
        }
      }
    }
  }

  lemma NewIdsKept(s: State, step: Step, ids: seq<Id>)
    requires Inv(s) && Enabled(s, step) && !step.Add? && NewIds(s, ids)
    ensures NewIds(Apply(s, step), ids)
  {
    forall i | 0 <= i < |ids| ensures !Used(Apply(s, step), ids[i]) {
      StepUses(s, step, ids[i]);
    }
  }

  lemma {:induction false} NewIdsMoveForward(s: State, steps: seq<Step>)
    requires Inv(s) && CanRun(s, steps) && NewIds(s, Added(steps))
    ensures AlwaysForward(s, steps)
    decreases |steps|
  {
    if steps != [] {
      var step := steps[0];
      if step.Add? {
        assert Added(steps)[0] == step.id && Added(steps)[1..] == Added(steps[1..]);
        NewIdsNext(s, Added(steps));
      } else {
        assert Added(steps) == Added(steps[1..]);
        NewIdsKept(s, step, Added(steps));
      }
      forall id ensures Forward(Seen(s, id), Seen(Apply(s, step), id)) {
        StepMovesForward(s, step, id);
      }
      StepKeepsInv(s, step);
      NewIdsMoveForward(Apply(s, step), steps[1..]);
    }
  }

  /** The additions alone are a run from anywhere. */
  lemma {:induction false} AddAll(s: State, ids: seq<Id>) returns (steps: seq<Step>)
    ensures CanRun(s, steps) && Added(steps) == ids
    decreases |ids|
  {
    if ids == [] {
      steps := [];
    } else {
      var rest := AddAll(Apply(s, Add(ids[0])), ids[1..]);
      Prepend(s, Add(ids[0]), rest);
      steps := [Add(ids[0])] + rest;
    }
  }

  lemma NotForward(s: State, step: Step, rest: seq<Step>)
    requires WellFormed(s) && Enabled(s, step) && WellFormed(Apply(s, step)) && CanRun(Apply(s, step), rest)
    requires !StepForward(s, step) || !AlwaysForward(Apply(s, step), rest)
    ensures CanRun(s, [step] + rest) && !AlwaysForward(s, [step] + rest)
  {
    Prepend(s, step, rest);
    assert ([step] + rest)[1..] == rest;
  }

  /** Adding an id that is shown as anything but queued, or has been removed, takes its status back. */
  lemma AddTakesBack(s: State, id: Id)
    requires Inv(s) && Used(s, id) && Seen(s, id) != Shown(Queued)
    ensures !StepForward(s, Add(id))
  {
    StepWellFormed(s, Add(id));
    assert Seen(Apply(s, Add(id)), id) == Shown(Queued);
    assert !Forward(Seen(s, id), Seen(Apply(s, Add(id)), id));
  }

  /** With an id that has been used, some interleaving takes a status back: its worker begins first. */
  lemma UsedTakesBack(s: State, ids: seq<Id>) returns (steps: seq<Step>)
    requires Inv(s) && ids != [] && Used(s, ids[0])
    ensures CanRun(s, steps) && Added(steps) == ids && !AlwaysForward(s, steps)
  {
    var id := ids[0];
    if Seen(s, id) == Shown(Queued) {
      var h := s.table[id];
      var t := Apply(s, Begin(h));
      WorkerStep(s, Begin(h));
      StepKeepsInv(s, Begin(h));
      StepUses(s, Begin(h), id);
      var rest := AddAll(Apply(t, Add(id)), ids[1..]);
      AddTakesBack(t, id);
      StepWellFormed(t, Add(id));
      NotForward(t, Add(id), rest);
      Prepend(t, Add(id), rest);
      NotForward(s, Begin(h), [Add(id)] + rest);
      Prepend(s, Begin(h), [Add(id)] + rest);
      steps := [Begin(h)] + ([Add(id)] + rest);
    } else {
      var rest := AddAll(Apply(s, Add(id)), ids[1..]);
      AddTakesBack(s, id);
      StepWellFormed(s, Add(id));
      NotForward(s, Add(id), rest);
      Prepend(s, Add(id), rest);
      steps := [Add(id)] + rest;
    }
  }

  lemma {:induction false} OldIdsTakeBack(s: State, ids: seq<Id>) returns (steps: seq<Step>)
    requires Inv(s) && !NewIds(s, ids)
    ensures CanRun(s, steps) && Added(steps) == ids && !AlwaysForward(s, steps)
    decreases |ids|
  {
    if Used(s, ids[0]) {
      steps := UsedTakesBack(s, ids);
    } else {
      var t := Apply(s, Add(ids[0]));
      NewIdsNext(s, ids);
      StepKeepsInv(s, Add(ids[0]));
      var rest := OldIdsTakeBack(t, ids[1..]);
      NotForward(s, Add(ids[0]), rest);
      Prepend(s, Add(ids[0]), rest);
      steps := [Add(ids[0])] + rest;
    }
  }

  ghost predicate ForwardIfAdding(s: State, ids: seq<Id>, steps: seq<Step>)
    requires WellFormed(s)
  {
    CanRun(s, steps) && Added(steps) == ids ==> AlwaysForward(s, steps)
  }

  /** The exact condition: a list of additions moves forward in every interleaving precisely when its ids are new. */
  lemma ForwardIffNewIds(s: State, ids: seq<Id>)
    requires Inv(s)
    ensures WellFormed(s)
    ensures (forall steps :: ForwardIfAdding(s, ids, steps)) <==> NewIds(s, ids)
  {
    if NewIds(s, ids) {
      forall steps ensures ForwardIfAdding(s, ids, steps) {
        if CanRun(s, steps) && Added(steps) == ids {
          NewIdsMoveForward(s, steps);
        }
      }
    } else {
      var steps := OldIdsTakeBack(s, ids);
      assert !ForwardIfAdding(s, ids, steps);
    }
  }
}
