/** The hub object. Its methods are runs of the protocol in which nobody else takes a step in between. */
module Hub {
  import opened HubProtocol

  class Hub {
    var clients: set<Client>
    var channels: map<Client, Channel>
    var begun: nat
    ghost var active: map<nat, set<Client>>
    ghost var overflowed: set<Client>
    ghost var panicked: bool

    ghost function View(): State
      reads this
    {
      State(clients, channels, active, begun, overflowed, panicked)
    }

    constructor ()
      ensures View() == Init()
    {
      clients, channels, begun, active, overflowed, panicked := {}, map[], 0, map[], {}, false;
    }

    /** addClient, for the client that HandleWS has just made. */
    method AddClient(c: Client)
      requires Enabled(View(), Add(c))
      modifies this
      ensures View() == Apply(old(View()), Add(c))
    {
      clients := clients + {c};
      channels := channels[c := Channel([], false, [], [], begun, 0)];
    }

    /** removeClient: the second removal of a client does nothing. */
    method RemoveClient(c: Client) returns (removed: bool)
      requires Inv(View()) && Enabled(View(), Remove(c))
      modifies this
      ensures View() == Apply(old(View()), Remove(c)) && !panicked
      ensures removed <==> c in old(clients)
    {
      removed := c in clients;
      if removed {
        clients := clients - {c};
        channels := channels[c := channels[c].(closed := true, left := begun)];
      }
    }

    /** The select of Broadcast for one client; `full` calls for a removal in the background. */
    method TrySend(b: nat, c: Client) returns (full: bool)
      requires Inv(View()) && Enabled(View(), Deliver(b, c))
      modifies this
      ensures View() == Apply(old(View()), Deliver(b, c)) && begun == old(begun) && clients == old(clients)
      ensures full <==> |old(channels)[c].buffer| == CAPACITY
    {
      var ch := channels[c];
      active := active[b := active[b] - {c}];
      full := |ch.buffer| >= CAPACITY;
      if full {
        overflowed := overflowed + {c};
      } else {
        channels := channels[c := ch.(buffer := ch.buffer + [b], sent := ch.sent + [b])];
      }
    }

    /** RLock: the members to be served are fixed. */
    method LockShared() returns (b: nat)
      modifies this
      ensures View() == Apply(old(View()), Begin) && b == old(begun)
    {
      b := begun;
      begun := begun + 1;
      active := active[b := clients];
    }

    /** RUnlock */
    method UnlockShared(b: nat)
      requires Enabled(View(), End(b))
      modifies this
      ensures View() == Apply(old(View()), End(b))
    {
      active := active - {b};
    }

    /**
     * Broadcast: one send per client, in any order, under the read lock. The results are the
     * clients that will be removed in the background, and the run that was taken.
     */
    method Broadcast() returns (slow: set<Client>, ghost steps: seq<Step>)
      requires Inv(View()) && active == map[]
      modifies this
      ensures Reached(old(View()), steps, View())
      ensures active == map[] && begun == old(begun) + 1 && clients == old(clients)
      ensures Served(old(View()), View(), {}, slow, old(begun))
    {
      ghost var start := View();
      Extend(start, [], start, Begin);
      var b := LockShared();
      steps := [] + [Begin];
      slow := {};
      var todo := clients;
      while todo != {}
        invariant Serving(start, View(), todo, slow, b) && Reached(start, steps, View())
        decreases todo
      {
        var c :| c in todo;
        ServeOne(start, View(), todo, slow, b, c);
        Extend(start, steps, View(), Deliver(b, c));
        var full := TrySend(b, c);
        steps := steps + [Deliver(b, c)];
        todo := todo - {c};
        if full {
          slow := slow + {c};
        }
      }
      Extend(start, steps, View(), End(b));
      UnlockShared(b);
      steps := steps + [End(b)];
    }

    /** writePump's receive. */
    method ReceiveNext(c: Client) returns (b: nat)
      requires Enabled(View(), Receive(c))
      modifies this
      ensures View() == Apply(old(View()), Receive(c)) && b == old(channels)[c].buffer[0]
    {
      var ch := channels[c];
      b := ch.buffer[0];
      channels := channels[c := ch.(buffer := ch.buffer[1..], received := ch.received + [b])];
    }
  }

  /** `now` is where the run `steps` leads. */
  ghost predicate Reached(start: State, steps: seq<Step>, now: State) {
    CanRun(start, steps) && Run(start, steps) == now && Inv(now)
  }

  /** Outside `todo` every member has message `b` in its buffer, or is slow because the buffer was full. */
  ghost predicate Served(start: State, now: State, todo: set<Client>, slow: set<Client>, b: nat) {
    && start.clients <= start.channels.Keys && start.channels.Keys == now.channels.Keys
    && (forall c :: c in slow <==> c in start.clients && c !in todo && |start.channels[c].buffer| == CAPACITY)
    && (forall c :: c in start.channels ==>
          now.channels[c].buffer == start.channels[c].buffer + if c in start.clients && c !in todo && c !in slow then [b] else [])
  }

  /** Midway through a broadcast. */
  ghost predicate Serving(start: State, now: State, todo: set<Client>, slow: set<Client>, b: nat) {
    && now.begun == b + 1 && now.clients == start.clients && todo <= start.clients && now.active == map[b := todo]
    && Served(start, now, todo, slow, b)
  }

  lemma ServeOne(start: State, now: State, todo: set<Client>, slow: set<Client>, b: nat, c: Client)
    requires Inv(now) && Serving(start, now, todo, slow, b) && c in todo
    ensures Enabled(now, Deliver(b, c))
    ensures Serving(start, Apply(now, Deliver(b, c)), todo - {c},
                    if |now.channels[c].buffer| == CAPACITY then slow + {c} else slow, b)
  {
    assert now.channels[c].buffer == start.channels[c].buffer + [] == start.channels[c].buffer;
    assert !now.channels[c].closed && |now.channels[c].buffer| <= CAPACITY;
    assert now.active[b := todo - {c}] == map[b := todo - {c}];
  }

  lemma Extend(start: State, steps: seq<Step>, now: State, step: Step)
    requires Reached(start, steps, now) && Enabled(now, step)
    ensures Reached(start, steps + [step], Apply(now, step))
  {
    assert [step][1..] == [];
    assert CanRun(Apply(now, step), []) && CanRun(now, [step]);
    RunAppend(start, steps, [step]);
    StepKeepsInv(now, step);
  }

  lemma {:induction false} RunAppend(s: State, a: seq<Step>, b: seq<Step>)
    requires CanRun(s, a) && CanRun(Run(s, a), b)
    ensures CanRun(s, a + b) && Run(s, a + b) == Run(Run(s, a), b)
    decreases |a|
  {
    if a == [] {
      assert a + b == b;
    } else {
      assert (a + b)[0] == a[0] && (a + b)[1..] == a[1..] + b;
      RunAppend(Apply(s, a[0]), a[1..], b);
    }
  }
}
