/**
 * The WebSocket hub as interleaved atomic steps: adds and removals under the write lock, broadcasts
 * that share the read lock and send to one client at a time, and clients that receive at any time.
 */
module HubProtocol {

  datatype Client = Client(number: nat)

  /** A client's channel. The last four fields are history. */
  datatype Channel = Channel(
    buffer: seq<nat>, closed: bool,
    received: seq<nat>, sent: seq<nat>,  // broadcasts taken from the channel, and put into it
    joined: nat, left: nat)              // how many broadcasts had begun at the add, and at the removal

  /** Broadcasts are numbered in the order in which they begin. */
  datatype State = State(
    clients: set<Client>,
    channels: map<Client, Channel>,      // of every client ever added
    active: map<nat, set<Client>>,       // broadcasts that hold the read lock -> clients still to be served
    begun: nat,
    overflowed: set<Client>,             // clients whose buffer was full at some broadcast
    panicked: bool)                      // a send on, or a close of, a closed channel

  const CAPACITY := 256

  datatype Step =
    | Add(c: Client)
    | Remove(c: Client)
    | Begin
    | Deliver(b: nat, c: Client)
    | End(b: nat)
    | Receive(c: Client)

  function Init(): State {
    State({}, map[], map[], 0, {}, false)
  }

  /** The write lock excludes broadcasts. A removal may be repeated, and may come for a client that is gone. */
  predicate Enabled(s: State, step: Step) {
    match step
    case Add(c) => s.active == map[] && c !in s.channels
    case Remove(c) => s.active == map[]
    case Begin => true
    case Deliver(b, c) => b in s.active && c in s.active[b] && c in s.channels
    case End(b) => b in s.active && s.active[b] == {}
    case Receive(c) => c in s.channels && s.channels[c].buffer != []
  }

  function Apply(s: State, step: Step): State
    requires Enabled(s, step)
  {
    match step
    case Add(c) =>
      s.(clients := s.clients + {c}, channels := s.channels[c := Channel([], false, [], [], s.begun, 0)])
    case Remove(c) =>
      if c in s.clients && c in s.channels then
        s.(clients := s.clients - {c}, panicked := s.panicked || s.channels[c].closed,
           channels := s.channels[c := s.channels[c].(closed := true, left := s.begun)])
      else s
    case Begin => s.(begun := s.begun + 1, active := s.active[s.begun := s.clients])
    case Deliver(b, c) =>
      var ch := s.channels[c];
      var rest := s.active[b := s.active[b] - {c}];
      if ch.closed then s.(active := rest, panicked := true)
      else if |ch.buffer| < CAPACITY then
        s.(active := rest, channels := s.channels[c := ch.(buffer := ch.buffer + [b], sent := ch.sent + [b])])
      else s.(active := rest, overflowed := s.overflowed + {c})
    case End(b) => s.(active := s.active - {b})
    case Receive(c) =>
      var ch := s.channels[c];
      s.(channels := s.channels[c := ch.(buffer := ch.buffer[1..], received := ch.received + [ch.buffer[0]])])
  }

  ghost predicate CanRun(s: State, steps: seq<Step>)
    decreases |steps|
  {
    steps == [] || (Enabled(s, steps[0]) && CanRun(Apply(s, steps[0]), steps[1..]))
  }

  ghost function Run(s: State, steps: seq<Step>): State
    requires CanRun(s, steps)
    decreases |steps|
  {
    if steps == [] then s else Run(Apply(s, steps[0]), steps[1..])
  }

  // ---------------------------------------------------------------- what every run keeps

  /** Broadcast `b` is one that client `c` was there for. */
  ghost predicate Due(s: State, c: Client, b: nat)
    requires c in s.channels
  {
    s.channels[c].joined <= b < if s.channels[c].closed then s.channels[c].left else s.begun
  }

  /** Broadcast `b` has still to serve `c`. */
  ghost predicate Pending(s: State, c: Client, b: nat) {
    b in s.active && c in s.active[b]
  }

  /** A channel is closed exactly when its client was added and is no longer in the set. */
  ghost predicate ClosedIffGone(s: State) {
    s.clients <= s.channels.Keys && forall c :: c in s.channels ==> (s.channels[c].closed <==> c !in s.clients)
  }

  ghost predicate BroadcastsServeMembers(s: State) {
    forall b :: b in s.active ==>
      (b < s.begun && s.active[b] <= s.clients && forall c :: c in s.active[b] ==> c in s.channels && s.channels[c].joined <= b)
  }

  /** What was put into the channel is what was taken out and what is waiting, in order, at most 256 waiting. */
  ghost predicate Queue(ch: Channel) {
    ch.sent == ch.received + ch.buffer && |ch.buffer| <= CAPACITY
    && forall i, j :: 0 <= i < j < |ch.sent| ==> ch.sent[i] != ch.sent[j]
  }

  ghost predicate Complete(s: State, c: Client)
    requires c in s.channels
  {
    && (forall b :: b in s.channels[c].sent ==> Due(s, c, b) && !Pending(s, c, b))
    && (c !in s.overflowed ==> forall b: nat :: Due(s, c, b) && !Pending(s, c, b) ==> b in s.channels[c].sent)
  }

  ghost predicate Inv(s: State) {
    && !s.panicked && ClosedIffGone(s) && BroadcastsServeMembers(s)
    && (forall c :: c in s.channels ==> Queue(s.channels[c]) && s.channels[c].joined <= s.begun && s.channels[c].left <= s.begun)
    && (forall c :: c in s.channels ==> Complete(s, c))
  }

  lemma StepKeepsMembership(s: State, step: Step)
    requires Inv(s) && Enabled(s, step)
    ensures var t := Apply(s, step); !t.panicked && ClosedIffGone(t) && BroadcastsServeMembers(t)
  {
  }

  lemma StepKeepsQueue(s: State, step: Step, c: Client)
    requires Inv(s) && Enabled(s, step) && c in Apply(s, step).channels
    ensures var t := Apply(s, step);
            Queue(t.channels[c]) && t.channels[c].joined <= t.begun && t.channels[c].left <= t.begun
  {
    if step.Receive? && step.c == c {
      var ch := s.channels[c];
      assert ch.received + ch.buffer == (ch.received + [ch.buffer[0]]) + ch.buffer[1..];
    } else if step.Deliver? && step.c == c {
      var ch := s.channels[c];
      assert (ch.received + ch.buffer) + [step.b] == ch.received + (ch.buffer + [step.b]);
      assert step.b !in ch.sent;
    }
  }

  lemma DeliverCompletes(s: State, b: nat, c: Client)
    requires Inv(s) && Enabled(s, Deliver(b, c))
    ensures Complete(Apply(s, Deliver(b, c)), c)
  {
    var t := Apply(s, Deliver(b, c));
    assert Complete(s, c) && Due(s, c, b) && Pending(s, c, b);
    assert t.channels[c].sent == s.channels[c].sent + [b] || (t.channels[c].sent == s.channels[c].sent && c in t.overflowed);
    assert forall x: nat :: Pending(t, c, x) <==> Pending(s, c, x) && x != b;
  }

  lemma StepKeepsComplete(s: State, step: Step, c: Client)
    requires Inv(s) && Enabled(s, step) && c in Apply(s, step).channels
    ensures Complete(Apply(s, step), c)
  {
    if step.Deliver? && step.c == c {
      DeliverCompletes(s, step.b, c);
    } else if c in s.channels {
      assert Complete(s, c);
    }
  }

  lemma StepKeepsInv(s: State, step: Step)
    requires Inv(s) && Enabled(s, step)
    ensures Inv(Apply(s, step))
  {
    var t := Apply(s, step);
    StepKeepsMembership(s, step);
    forall c | c in t.channels
      ensures Queue(t.channels[c]) && t.channels[c].joined <= t.begun && t.channels[c].left <= t.begun && Complete(t, c)
    {
      StepKeepsQueue(s, step, c);
      StepKeepsComplete(s, step, c);
    }
  }

  /**
   * In every interleaving nothing is sent on a closed channel and no channel is closed twice; a
   * channel holds at most 256 messages; and a client that never overflowed has received, or has
   * waiting, exactly the broadcasts since it joined that have served it.
   */
  lemma {:induction false} EveryRunKeepsInv(s: State, steps: seq<Step>)
    requires Inv(s) && CanRun(s, steps)
    ensures var t := Run(s, steps);
            && Inv(t) && !t.panicked
            && (forall c :: c in t.channels ==>
                  && (t.channels[c].closed <==> c !in t.clients)
                  && t.channels[c].sent == t.channels[c].received + t.channels[c].buffer
                  && |t.channels[c].buffer| <= CAPACITY)
    decreases |steps|
  {
    if steps != [] {
      StepKeepsInv(s, steps[0]);
      EveryRunKeepsInv(Apply(s, steps[0]), steps[1..]);
    }
  }

  lemma InitInv()
    ensures Inv(Init())
  {
  }

  /** Between broadcasts, a client that never overflowed has got exactly the broadcasts since it joined, each once. */
  lemma QuietMeansComplete(steps: seq<Step>, c: Client)
    requires CanRun(Init(), steps)
    requires var t := Run(Init(), steps); t.active == map[] && c in t.clients && c !in t.overflowed
    ensures var t := Run(Init(), steps);
            && c in t.channels && Queue(t.channels[c])
            && forall b: nat :: b in t.channels[c].received + t.channels[c].buffer <==> t.channels[c].joined <= b < t.begun
  {
    InitInv();
    EveryRunKeepsInv(Init(), steps);
    var t := Run(Init(), steps);
    assert Complete(t, c);
    forall b: nat ensures Due(t, c, b) <==> t.channels[c].joined <= b < t.begun {
    }
  }

  // ---------------------------------------------------------------- broadcasts that do not overlap

  ghost predicate SerialRun(s: State, steps: seq<Step>)
    requires CanRun(s, steps)
    decreases |steps|
  {
    steps == [] || ((steps[0].Begin? ==> s.active == map[]) && SerialRun(Apply(s, steps[0]), steps[1..]))
  }

  ghost predicate Increasing(ids: seq<nat>) {
    forall i, j :: 0 <= i < j < |ids| ==> ids[i] < ids[j]
  }

  ghost predicate InOrder(s: State) {
    (forall b :: b in s.active ==> b == s.begun - 1) && forall c :: c in s.channels ==> Increasing(s.channels[c].sent)
  }

  /** What was sent before is older than the broadcast under way. */
  lemma DeliverInOrder(s: State, b: nat, c: Client)
    requires Inv(s) && InOrder(s) && Enabled(s, Deliver(b, c))
    ensures Increasing(s.channels[c].sent + [b])
  {
    assert Complete(s, c) && Pending(s, c, b) && b == s.begun - 1;
    var sent := s.channels[c].sent;
    forall i | 0 <= i < |sent| ensures sent[i] < b {
      assert sent[i] in sent;
      assert Due(s, c, sent[i]) && !Pending(s, c, sent[i]);
    }
  }

  lemma StepKeepsOrder(s: State, step: Step)
    requires Inv(s) && InOrder(s) && Enabled(s, step) && (step.Begin? ==> s.active == map[])
    ensures InOrder(Apply(s, step))
  {
    if step.Deliver? {
      DeliverInOrder(s, step.b, step.c);
    }
  }

  /** Then every client gets them in the order in which they were made. */
  lemma {:induction false} SerialBroadcastsArriveInOrder(s: State, steps: seq<Step>)
    requires Inv(s) && InOrder(s) && CanRun(s, steps) && SerialRun(s, steps)
    ensures InOrder(Run(s, steps))
    decreases |steps|
  {
    if steps != [] {
      StepKeepsOrder(s, steps[0]);
      StepKeepsInv(s, steps[0]);
      SerialBroadcastsArriveInOrder(Apply(s, steps[0]), steps[1..]);
    }
  }

  // ---------------------------------------------------------------- how much a client can wait for

  /** A client overflows at a broadcast exactly when 256 messages are waiting; otherwise the broadcast is the last of them. */
  lemma FullMeans256(s: State, b: nat, c: Client)
    requires Inv(s) && Enabled(s, Deliver(b, c)) && c !in s.overflowed
    ensures var t := Apply(s, Deliver(b, c));
            && (c in t.overflowed <==> |s.channels[c].buffer| == 256)
            && c in t.channels
            && t.channels[c].buffer == if |s.channels[c].buffer| == 256 then s.channels[c].buffer else s.channels[c].buffer + [b]
  {
  }

  /** Different numbers below `n` are at most `n`. */
  lemma {:induction false} Pigeons(q: seq<nat>, n: nat)
    requires (forall i :: 0 <= i < |q| ==> q[i] < n) && forall i, j :: 0 <= i < j < |q| ==> q[i] != q[j]
    ensures |q| <= n
  {
    if q == [] { return; }
    assert q[0] < n;
    var top: nat := n - 1;
    if top in q {
      var k :| 0 <= k < |q| && q[k] == top;
      Pigeons(q[..k] + q[k + 1..], top);
    } else {
      Pigeons(q, top);
    }
  }

  /** What is waiting, and the broadcast that is about to be delivered, are different broadcasts that have begun. */
  lemma RoomLeft(s: State, b: nat, c: Client)
    requires Inv(s) && Enabled(s, Deliver(b, c))
    ensures |s.channels[c].buffer| < s.begun
  {
    var ch := s.channels[c];
    var q := ch.sent + [b];
    assert Pending(s, c, b) && b !in ch.sent;
    assert forall i :: 0 <= i < |ch.sent| ==> ch.sent[i] in ch.sent;
    assert b < s.begun;
    Pigeons(q, s.begun);
  }

  /** No client overflows before the 257th broadcast, whoever receives how slowly. */
  lemma {:induction false} FewBroadcastsFit(s: State, steps: seq<Step>)
    requires Inv(s) && CanRun(s, steps) && s.overflowed == {} && Run(s, steps).begun <= 256
    ensures Run(s, steps).overflowed == {}
    decreases |steps|
  {
    if steps != [] {
      var t := Apply(s, steps[0]);
      StepKeepsInv(s, steps[0]);
      BegunGrows(t, steps[1..]);
      if steps[0].Deliver? {
        RoomLeft(s, steps[0].b, steps[0].c);
        FullMeans256(s, steps[0].b, steps[0].c);
      }
      FewBroadcastsFit(t, steps[1..]);
    }
  }

  lemma {:induction false} BegunGrows(s: State, steps: seq<Step>)
    requires CanRun(s, steps)
    ensures s.begun <= Run(s, steps).begun
    decreases |steps|
  {
    if steps != [] {
      BegunGrows(Apply(s, steps[0]), steps[1..]);
    }
  }
}
