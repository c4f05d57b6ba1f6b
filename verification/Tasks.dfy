/** Scheduled tasks: which are due, when each is queued, and how far apart. */
module Tasks {
  import opened Options

  /** A row of scheduled_tasks; times are whole seconds, as RFC 3339 prints them. */
  datatype Task = Task(interval: int, lastRun: Option<int>, nextRun: int)

  /** One automatic queueing. */
  datatype Entry = Entry(name: string, at: int)

  /** The times at which a task was queued, in order. */
  function TimesOf(log: seq<Entry>, name: string): seq<int> {
    if log == [] then []
    else
      var n := |log| - 1;
      TimesOf(log[..n], name) + (if log[n].name == name then [log[n].at] else [])
  }

  function QueuedSince(before: seq<Entry>, after: seq<Entry>, name: string): int {
    |TimesOf(after, name)| - |TimesOf(before, name)|
  }

  predicate Spaced(times: seq<int>, interval: int) {
    forall i :: 0 <= i < |times| - 1 ==> times[i] + interval <= times[i + 1]
  }

  /** The next run lies an interval after the last queueing. */
  predicate Ahead(times: seq<int>, task: Task) {
    times != [] ==> times[|times| - 1] + task.interval <= task.nextRun
  }

  /** What the table keeps of a task: its queueings are spaced, and the next run is far enough away. */
  predicate OnTime(times: seq<int>, task: Task) {
    Spaced(times, task.interval) && Ahead(times, task)
  }

  lemma OneMore(log: seq<Entry>, e: Entry, name: string)
    ensures TimesOf(log + [e], name) == TimesOf(log, name) + if e.name == name then [e.at] else []
  {
    assert (log + [e])[..|log|] == log;
  }

  /** Queueing a due task and moving its next run keeps it on time. */
  lemma NextIsOnTime(times: seq<int>, task: Task, at: int, later: Task)
    requires OnTime(times, task) && task.nextRun <= at
    requires later.interval == task.interval && at + task.interval <= later.nextRun
    ensures OnTime(times + [at], later)
  {
  }

  /** All tasks but the `stale` ones are on time. */
  ghost predicate AllOnTime(tasks: map<string, Task>, log: seq<Entry>, stale: set<string>) {
    forall name :: name in tasks && name !in stale ==> OnTime(TimesOf(log, name), tasks[name])
  }

  /** The queueings of a task in the log. */
  ghost function QueueingsOf(log: seq<Entry>, name: string): set<nat> {
    set i: nat | i < |log| && log[i].name == name
  }

  lemma NextQueueing(log: seq<Entry>, name: string)
    requires log != []
    ensures var last: nat := |log| - 1;
            |QueueingsOf(log, name)| == |QueueingsOf(log[..last], name)| + if log[last].name == name then 1 else 0
  {
    var last: nat := |log| - 1;
    assert QueueingsOf(log, name) == QueueingsOf(log[..last], name) + if log[last].name == name then {last} else {};
    assert last !in QueueingsOf(log[..last], name);
  }

  lemma {:induction false} TimesCounted(log: seq<Entry>, name: string)
    ensures |TimesOf(log, name)| == |QueueingsOf(log, name)|
  {
    if log == [] {
      assert QueueingsOf(log, name) == {};
    } else {
      TimesCounted(log[..|log| - 1], name);
      NextQueueing(log, name);
    }
  }

  /** As many times as the log has queueings of the task, and the n-th of them is that of the n-th queueing. */
  lemma {:induction false} TimesSpelled(log: seq<Entry>, name: string, i: nat)
    requires i < |log| && log[i].name == name
    ensures |QueueingsOf(log[..i], name)| < |TimesOf(log, name)| == |QueueingsOf(log, name)|
    ensures TimesOf(log, name)[|QueueingsOf(log[..i], name)|] == log[i].at
  {
    var last: nat := |log| - 1;
    NextQueueing(log, name);
    TimesCounted(log[..last], name);
    if i < last {
      TimesSpelled(log[..last], name, i);
      assert log[..last][..i] == log[..i];
    }
  }

  class Table {
    var tasks: map<string, Task>
    var now: int
    ghost var log: seq<Entry>
    ghost var stale: set<string> // tasks whose next run could not be written

    ghost predicate Valid()
      reads this
    {
      AllOnTime(tasks, log, stale)
    }

    constructor (tasks: map<string, Task>, now: int)
      ensures Valid() && this.tasks == tasks && this.now == now && log == [] && stale == {}
    {
      this.tasks, this.now, this.log, this.stale := tasks, now, [], {};
    }

    /** time.Now: never earlier than the time before. */
    method Clock() returns (t: int)
      modifies this`now
      ensures t == now >= old(now)
    {
      var reading: int := *;
      if reading > now {
        now := reading;
      }
      t := now;
    }

    /** getDueScheduledTasks: the names are the rows of the query, each once. */
    method DueTasks() returns (due: seq<string>)
      modifies this`now
      ensures now >= old(now)
      ensures forall i, j :: 0 <= i < j < |due| ==> due[i] != due[j]
      ensures forall name :: name in due <==> name in tasks && tasks[name].nextRun <= now
    {
      var t := Clock();
      due := [];
      var todo := tasks.Keys;
      while todo != {}
        invariant todo <= tasks.Keys
        invariant forall name :: name in due <==> name in tasks && name !in todo && tasks[name].nextRun <= t
        invariant forall i, j :: 0 <= i < j < |due| ==> due[i] != due[j]
        decreases todo
      {
        var name :| name in todo;
        todo := todo - {name};
        if tasks[name].nextRun <= t {
          due := due + [name];
        }
      }
    }

    /** QueueCommand for a due task; the insert may fail. */
    method QueueTask(name: string, works: bool)
      modifies this`now, this`log
      ensures now >= old(now)
      ensures log == if works then old(log) + [Entry(name, now)] else old(log)
    {
      var t := Clock();
      if works {
        log := log + [Entry(name, t)];
      }
    }

    /** updateTaskNextRun; the update may fail. */
    method UpdateNextRun(name: string, interval: int, works: bool)
      requires name in tasks
      modifies this`now, this`tasks
      ensures now >= old(now)
      ensures tasks == if works then old(tasks)[name := Task(old(tasks)[name].interval, Some(now), now + interval)] else old(tasks)
    {
      var t := Clock();
      if works {
        tasks := tasks[name := Task(tasks[name].interval, Some(t), t + interval)];
      }
    }

    /** One due task: queue it, then move its next run. */
    method RunDue(name: string, inserts: bool, updates: bool)
      requires Valid() && name in tasks && tasks[name].nextRun <= now
      modifies this
      ensures Valid() && now >= old(now) && tasks.Keys == old(tasks).Keys
      ensures forall other :: other in tasks && other != name ==> tasks[other] == old(tasks)[other]
      ensures tasks[name].interval == old(tasks)[name].interval
      ensures if inserts && updates then 0 <= tasks[name].nextRun - tasks[name].interval - old(now) <= now - old(now)
              else tasks[name] == old(tasks)[name]
      ensures stale == if inserts && !updates then old(stale) + {name} else old(stale)
      ensures forall other :: QueuedSince(old(log), log, other) == if other == name && inserts then 1 else 0
    {
      var interval := tasks[name].interval;
      ghost var before := log;
      QueueTask(name, inserts);
      if !inserts {
        return;
      }
      ghost var entry := Entry(name, now);
      forall other ensures TimesOf(log, other) == TimesOf(before, other) + if other == name then [now] else [] {
        OneMore(before, entry, other);
      }
      ghost var task := tasks[name];
      UpdateNextRun(name, interval, updates);
      if !updates {
        stale := stale + {name};
      } else if name !in stale {
        NextIsOnTime(TimesOf(before, name), task, entry.at, tasks[name]);
      }
    }

    /**
     * checkScheduledTasks: every due task is queued once if its insert works, no other task is queued, and a
     * task whose next run is written is next due an interval later.
     */
    method CheckScheduledTasks(inserts: string -> bool, updates: string -> bool)
      requires Valid()
      modifies this
      ensures Valid() && now >= old(now) && tasks.Keys == old(tasks).Keys && old(stale) <= stale
      ensures forall name :: name in stale && name !in old(stale) ==> inserts(name) && !updates(name)
      ensures forall name :: name in tasks ==> tasks[name].interval == old(tasks)[name].interval
      ensures forall name :: name in tasks && old(tasks)[name].nextRun <= old(now) ==>
                QueuedSince(old(log), log, name) == if inserts(name) then 1 else 0
      ensures forall name :: !(name in tasks && old(tasks)[name].nextRun <= now) ==> QueuedSince(old(log), log, name) == 0
      ensures forall name :: 0 <= QueuedSince(old(log), log, name) <= 1
      ensures forall name :: name in tasks && QueuedSince(old(log), log, name) == 1 && updates(name) ==>
                old(now) <= tasks[name].nextRun - tasks[name].interval <= now
    {
      var due := DueTasks();
      ghost var queried := now;
      for i := 0 to |due|
        invariant Valid() && now >= queried && tasks.Keys == old(tasks).Keys && old(stale) <= stale
        invariant forall name :: name in stale && name !in old(stale) ==> inserts(name) && !updates(name)
        invariant Ran(old(tasks), tasks, old(log), log, due, i, old(now), now, inserts, updates)
      {
        ghost var before, rows, earlier := log, tasks, now;
        var name := due[i];
        assert tasks[name] == old(tasks)[name];
        RunDue(name, inserts(name), updates(name));
        NextRan(old(tasks), rows, tasks, old(log), before, log, due, i, old(now), earlier, now, inserts, updates);
      }
    }

    /**
     * The loop: a check at every tick. A task whose next run was written after every queueing is queued at most
     * once per interval, in every stretch of time, however late the ticks come.
     */
    method CheckAtEveryTick(ticks: nat, inserts: (nat, string) -> bool, updates: (nat, string) -> bool)
      requires Valid()
      modifies this
      ensures Valid() && now >= old(now) && tasks.Keys == old(tasks).Keys
      ensures forall name :: name in tasks ==> tasks[name].interval == old(tasks)[name].interval
      ensures forall name :: (name in tasks && tasks[name].interval > 0 && name !in old(stale)
                              && Written(ticks, inserts, updates, name)) ==> Sparse(TimesOf(log, name), tasks[name].interval)
    {
      for k := 0 to ticks
        invariant Valid() && now >= old(now) && tasks.Keys == old(tasks).Keys
        invariant forall name :: name in tasks ==> tasks[name].interval == old(tasks)[name].interval
        invariant forall name :: name in stale && name !in old(stale) ==> !Written(k, inserts, updates, name)
      {
        ghost var before := stale;
        CheckScheduledTasks(name => inserts(k, name), name => updates(k, name));
        forall name | name in stale && name !in old(stale) ensures !Written(k + 1, inserts, updates, name) {
          NotWritten(k, inserts, updates, name);
        }
      }
      forall name | name in tasks && tasks[name].interval > 0 && name !in old(stale) && Written(ticks, inserts, updates, name)
        ensures Sparse(TimesOf(log, name), tasks[name].interval)
      {
        OnTimeIsSparse(tasks, log, stale, name);
      }
    }
  }

  /** Whenever one of the first `k` checks queued the task, its next run could be written. */
  predicate Written(k: nat, inserts: (nat, string) -> bool, updates: (nat, string) -> bool, name: string) {
    forall i :: 0 <= i < k && inserts(i, name) ==> updates(i, name)
  }

  lemma NotWritten(k: nat, inserts: (nat, string) -> bool, updates: (nat, string) -> bool, name: string)
    requires !Written(k, inserts, updates, name) || (inserts(k, name) && !updates(k, name))
    ensures !Written(k + 1, inserts, updates, name)
  {
    if inserts(k, name) && !updates(k, name) {
      assert 0 <= k < k + 1;
    } else {
      var i :| 0 <= i < k && inserts(i, name) && !updates(i, name);
      assert 0 <= i < k + 1;
    }
  }

  /** The due tasks before `i` have been queued as far as that works; the others are untouched. */
  ghost predicate Ran(start: map<string, Task>, tasks: map<string, Task>, before: seq<Entry>, log: seq<Entry>,
                      due: seq<string>, i: nat, t: int, now: int, inserts: string -> bool, updates: string -> bool) {
    && i <= |due| && tasks.Keys == start.Keys
    && (forall name :: QueuedSince(before, log, name) == if name in due[..i] && inserts(name) then 1 else 0)
    && (forall name :: name in tasks ==>
          && tasks[name].interval == start[name].interval
          && (name !in due[..i] ==> tasks[name] == start[name])
          && (name in due[..i] && inserts(name) && updates(name) ==> t <= tasks[name].nextRun - tasks[name].interval <= now))
  }

  lemma NextRan(start: map<string, Task>, rows: map<string, Task>, tasks: map<string, Task>,
                before: seq<Entry>, middle: seq<Entry>, log: seq<Entry>,
                due: seq<string>, i: nat, t: int, earlier: int, now: int, inserts: string -> bool, updates: string -> bool)
    requires Ran(start, rows, before, middle, due, i, t, earlier, inserts, updates) && i < |due| && earlier <= now
    requires tasks.Keys == rows.Keys && due[i] in tasks && due[i] !in due[..i]
    requires forall other :: other in tasks && other != due[i] ==> tasks[other] == rows[other]
    requires tasks[due[i]].interval == rows[due[i]].interval
    requires inserts(due[i]) && updates(due[i]) ==> t <= tasks[due[i]].nextRun - tasks[due[i]].interval <= now
    requires forall other :: QueuedSince(middle, log, other) == if other == due[i] && inserts(due[i]) then 1 else 0
    ensures Ran(start, tasks, before, log, due, i + 1, t, now, inserts, updates)
  {
    assert due[..i + 1] == due[..i] + [due[i]];
    forall name ensures QueuedSince(before, log, name) == if name in due[..i + 1] && inserts(name) then 1 else 0 {
      assert QueuedSince(before, log, name) == QueuedSince(before, middle, name) + QueuedSince(middle, log, name);
    }
  }

  // ---------------------------------------------------------------- how often a task can be queued

  /** The times that lie in the window [from, from + length]. */
  function InWindow(times: seq<int>, from: int, length: nat): seq<int> {
    if times == [] then []
    else (if from <= times[0] <= from + length then [times[0]] else []) + InWindow(times[1..], from, length)
  }

  /** The queueings whose times lie in the window. */
  ghost function PlacesIn(times: seq<int>, from: int, length: nat): set<nat> {
    set i: nat | i < |times| && from <= times[i] <= from + length
  }

  lemma NextPlace(times: seq<int>, from: int, length: nat)
    requires times != []
    ensures var last: nat := |times| - 1;
            |PlacesIn(times, from, length)|
            == |PlacesIn(times[..last], from, length)| + if from <= times[last] <= from + length then 1 else 0
  {
    var last: nat := |times| - 1;
    assert PlacesIn(times, from, length) ==
           PlacesIn(times[..last], from, length) + if from <= times[last] <= from + length then {last} else {};
    assert last !in PlacesIn(times[..last], from, length);
  }

  /** The window holds as many times as the list has in it. */
  lemma {:induction false} WindowCounts(times: seq<int>, from: int, length: nat)
    ensures |InWindow(times, from, length)| == |PlacesIn(times, from, length)|
  {
    if times == [] {
      assert PlacesIn(times, from, length) == {};
    } else {
      var last: nat := |times| - 1;
      WindowCounts(times[..last], from, length);
      NextPlace(times, from, length);
      WindowJoins(times[..last], times[last..], from, length);
      assert times[..last] + times[last..] == times && times[last..][1..] == [];
    }
  }

  lemma {:induction false} WindowJoins(a: seq<int>, b: seq<int>, from: int, length: nat)
    ensures InWindow(a + b, from, length) == InWindow(a, from, length) + InWindow(b, from, length)
  {
    if a == [] {
      assert a + b == b;
    } else {
      assert (a + b)[1..] == a[1..] + b;
      WindowJoins(a[1..], b, from, length);
    }
  }

  lemma {:induction false} SpacedFrom(times: seq<int>, interval: int, k: nat)
    requires Spaced(times, interval) && interval >= 0 && k < |times|
    ensures times[0] + k * interval <= times[k]
  {
    if k > 0 {
      SpacedFrom(times, interval, k - 1);
      assert times[k - 1] + interval <= times[k];
    }
  }

  lemma LessOne(n: int, k: int)
    ensures (n - 1) * k == n * k - k
  {
  }

  lemma TailSpaced(times: seq<int>, interval: int)
    requires Spaced(times, interval) && times != []
    ensures Spaced(times[1..], interval)
  {
    forall i | 0 <= i < |times[1..]| - 1 ensures times[1..][i] + interval <= times[1..][i + 1] {
      assert times[i + 1] + interval <= times[i + 2];
    }
  }

  lemma {:induction false} WindowAfter(times: seq<int>, interval: int, from: int, length: nat)
    requires Spaced(times, interval) && interval > 0 && times != []
    ensures from <= times[0] <= from + length ==>
              (|InWindow(times, from, length)| - 1) * interval <= from + length - times[0]
    ensures times[0] > from + length ==> InWindow(times, from, length) == []
    decreases |times|
  {
    if |times| > 1 {
      TailSpaced(times, interval);
      WindowAfter(times[1..], interval, from, length);
      LessOne(|InWindow(times[1..], from, length)|, interval);
      assert times[0] + interval <= times[1];
    } else {
      assert times[1..] == [];
    }
  }

  /** T seconds hold at most 1 + T / interval queueings of a task: there is no burst to catch up. */
  lemma {:induction false} AtMostOnePerInterval(times: seq<int>, interval: int, from: int, length: nat)
    requires Spaced(times, interval) && interval > 0
    ensures |InWindow(times, from, length)| <= 1 + length / interval
    decreases |times|
  {
    if times == [] { return; }
    if from <= times[0] {
      WindowAfter(times, interval, from, length);
      var n := |InWindow(times, from, length)|;
      if n > 0 {
        DivideBound(n - 1, interval, length);
      }
    } else {
      TailSpaced(times, interval);
      AtMostOnePerInterval(times[1..], interval, from, length);
    }
  }

  lemma MulMono(m: nat, n: nat, k: nat)
    requires m <= n
    ensures m * k <= n * k
  {
  }

  lemma DivideBound(n: nat, interval: int, length: nat)
    requires interval > 0 && n * interval <= length
    ensures n <= length / interval
  {
    var q := length / interval;
    assert length < (q + 1) * interval;
    if q + 1 <= n {
      MulMono(q + 1, n, interval);
    }
  }

  // ---------------------------------------------------------------- the tasks of a table

  /** No stretch of time holds more queueings than one and one more for each interval. */
  ghost predicate Sparse(times: seq<int>, interval: int)
    requires interval > 0
  {
    forall from: int, length: nat :: |InWindow(times, from, length)| <= 1 + length / interval
  }

  /** What every check keeps of a table bounds how often a task was queued. */
  lemma OnTimeIsSparse(tasks: map<string, Task>, log: seq<Entry>, stale: set<string>, name: string)
    requires AllOnTime(tasks, log, stale) && name in tasks && name !in stale && tasks[name].interval > 0
    ensures Sparse(TimesOf(log, name), tasks[name].interval)
  {
    forall from: int, length: nat
      ensures |InWindow(TimesOf(log, name), from, length)| <= 1 + length / tasks[name].interval
    {
      AtMostOnePerInterval(TimesOf(log, name), tasks[name].interval, from, length);
    }
  }
}
