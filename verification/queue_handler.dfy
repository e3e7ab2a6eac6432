/**
 The drain loop of `ISpindelQueueHandler.run` and its `stop()`: a worker
 that repeatedly checks the stop flag, sleeps when the queue is empty, and
 otherwise pops the head report and merges it into the device table. The
 producers (connection handlers) and `stop()` act between passes.
 */
module QueueHandler {
  import opened OrderedMaps
  import opened JsonValues
  import opened ReportQueue
  import opened Aggregator

  /**
   Whether `run()` is still looping, has left the loop because the stop
   flag was set, or was ended by an exception raised while merging.
   */
  datatype Status = Running | Exited | Crashed(error: MergeError)

  /** The queue handler thread: the table it maintains, the shared queue, its stop flag. */
  datatype Worker = Worker(table: Table, queue: seq<Item>, stopFlag: bool, status: Status)

  /** `__init__` followed by `start()`: an empty Treeview, the stop flag clear, the loop entered. */
  function Start(queue: seq<Item>): (w: Worker)
    ensures w.status == Running && !w.stopFlag && w.queue == queue
    ensures |w.table.keys| == 0
  {
    Worker(Empty(), queue, false, Running)
  }

  /** `stop()` (lines 138-140): only the flag changes; the loop notices it at its next test. */
  function Stop(w: Worker): (w': Worker)
    ensures w'.stopFlag
    ensures w'.table == w.table && w'.queue == w.queue && w'.status == w.status
  {
    w.(stopFlag := true)
  }

  /** A connection handler's `data_queue.put`, between two passes of the loop. */
  function Arrive(w: Worker, item: Item): (w': Worker)
    ensures w'.queue == Push(w.queue, item)
    ensures w'.table == w.table && w'.stopFlag == w.stopFlag && w'.status == w.status
  {
    w.(queue := Push(w.queue, item))
  }

  /**
   One evaluation of the loop condition (line 114) and, when the loop goes on,
   one pass of its body (lines 115-136): sleep on an empty queue, otherwise
   take the head report and merge it; a merge that raises ends the thread.
   The `queue.Empty` branch of lines 119-121 cannot be taken: the worker is
   the only consumer, so a queue seen non-empty stays so until its `get`.
   */
  function Iterate(w: Worker, show: Json -> string): (w': Worker)
    ensures w'.queue == w.queue || (|w.queue| > 0 && w'.queue == w.queue[1..])
    ensures w'.stopFlag == w.stopFlag
    ensures w.table.keys <= w'.table.keys
    ensures w.status != Running ==> w' == w
    ensures w.stopFlag ==> w'.table == w.table && w'.queue == w.queue && w'.status != Running
    ensures w.status == Running && !w.stopFlag && |w.queue| == 0 ==> w' == w
    ensures w.status == Running && !w.stopFlag && |w.queue| > 0 ==>
      var m := MergeItem(w.table, w.queue[0], show);
      && w'.queue == w.queue[1..] && w'.table == m.table
      && (w'.status == Running <==> m.Merged?)
  {
    if w.status != Running then w
    else if w.stopFlag then w.(status := Exited)
    else if |w.queue| == 0 then w
    else
      var (item, rest) := Pop(w.queue);
      match MergeItem(w.table, item, show)
      case Merged(t) => w.(table := t, queue := rest)
      case Failed(e, t) => w.(table := t, queue := rest, status := Crashed(e))
  }

  /** `n` passes of the loop with no other thread acting in between. */
  function Iterations(w: Worker, n: nat, show: Json -> string): Worker
    decreases n
  {
    if n == 0 then w else Iterations(Iterate(w, show), n - 1, show)
  }

  /**
   The reference result of draining: the merges of `items` applied in
   order, stopping at the first one that raises. Devices are only ever
   added, and the rows of a device already present are never added or moved.
   */
  function MergeAll(table: Table, items: seq<Item>, show: Json -> string): (m: Merge)
    ensures table.keys <= m.table.keys
    ensures forall id :: id in table.values ==> id in m.table.values && m.table.values[id].keys == table.values[id].keys
    decreases |items|
  {
    if |items| == 0 then Merged(table)
    else
      match MergeItem(table, items[0], show)
      case Merged(t) => MergeAll(t, items[1..], show)
      case Failed(e, t) => Failed(e, t)
  }

  /**
   FIFO drain: with the stop flag clear and no new arrivals, as many passes
   as there are queued reports leave exactly the table that merging them in
   queue order gives; the loop is still running on an empty queue if every
   merge completed, and has crashed with the first error otherwise.
   */
  lemma {:induction false} DrainIsFold(w: Worker, show: Json -> string)
    requires w.status == Running && !w.stopFlag
    ensures MergeAll(w.table, w.queue, show).Merged? ==>
      Iterations(w, |w.queue|, show) == Worker(MergeAll(w.table, w.queue, show).table, [], false, Running)
    ensures MergeAll(w.table, w.queue, show).Failed? ==>
      && Iterations(w, |w.queue|, show).status == Crashed(MergeAll(w.table, w.queue, show).error)
      && Iterations(w, |w.queue|, show).table == MergeAll(w.table, w.queue, show).table
    decreases |w.queue|
  {
    var r := Iterations(w, |w.queue|, show);
    var all := MergeAll(w.table, w.queue, show);
    if |w.queue| == 0 {
      assert r == w && all == Merged(w.table);
    } else {
      var next := Iterate(w, show);
      var m := MergeItem(w.table, w.queue[0], show);
      assert r == Iterations(next, |next.queue|, show) by {
        IterateTakesHead(w, show);
      }
      if m.Merged? {
        assert next == Worker(m.table, w.queue[1..], false, Running) by {
          IterateTakesHead(w, show);
        }
        assert all == MergeAll(next.table, next.queue, show);
        DrainIsFold(next, show);
      } else {
        assert next.status == Crashed(m.error) && next.table == m.table by {
          IterateTakesHead(w, show);
        }
        assert all == m;
        IterationsAfterCrash(next, |next.queue|, show);
      }
    }
  }

  /** A pass that finds a report takes it off the queue and merges it; a merge that raises ends the thread. */
  lemma IterateTakesHead(w: Worker, show: Json -> string)
    requires w.status == Running && !w.stopFlag && |w.queue| > 0
    ensures var m := MergeItem(w.table, w.queue[0], show);
      Iterate(w, show) == Worker(m.table, w.queue[1..], false, if m.Merged? then Running else Crashed(m.error))
  {
  }

  /** A thread that has left its loop stays as it is. */
  lemma {:induction false} IterationsAfterCrash(w: Worker, n: nat, show: Json -> string)
    requires w.status != Running
    ensures Iterations(w, n, show) == w
    decreases n
  {
    if n > 0 {
      IterationsAfterCrash(Iterate(w, show), n - 1, show);
    }
  }

  /** What can happen next: a pass of the loop, a producer's `put`, or a call to `stop()`. */
  datatype Event = Pass | Arrival(item: Item) | StopRequest

  /** One event applied to the worker. */
  function Step(w: Worker, e: Event, show: Json -> string): Worker
  {
    match e
    case Pass => Iterate(w, show)
    case Arrival(item) => Arrive(w, item)
    case StopRequest => Stop(w)
  }

  /** A schedule of events applied in order. */
  function Run(w: Worker, events: seq<Event>, show: Json -> string): Worker
    decreases |events|
  {
    if |events| == 0 then w else Run(Step(w, events[0], show), events[1..], show)
  }

  /** The reports the producers put on the queue during a schedule, in order. */
  function Arrivals(events: seq<Event>): seq<Item>
    decreases |events|
  {
    if |events| == 0 then []
    else (if events[0].Arrival? then [events[0].item] else []) + Arrivals(events[1..])
  }

  /**
   Once the stop flag is set, no report is taken off the queue and the
   table no longer changes, whatever arrives or however often the loop
   condition is evaluated; a single pass is enough for the loop to be left.
   */
  lemma {:induction false} StopFreezes(w: Worker, events: seq<Event>, show: Json -> string)
    requires w.stopFlag
    ensures Run(w, events, show).table == w.table
    ensures Run(w, events, show).queue == w.queue + Arrivals(events)
    ensures Pass in events ==> Run(w, events, show).status != Running
    decreases |events|
  {
    if |events| > 0 {
      var next := Step(w, events[0], show);
      StopFreezes(next, events[1..], show);
      assert events == [events[0]] + events[1..];
      if events[0].Pass? {
        StoppedStaysStopped(next, events[1..], show);
      }
    }
  }

  /** A worker out of its loop takes nothing off the queue and never changes its table again. */
  lemma {:induction false} StoppedStaysStopped(w: Worker, events: seq<Event>, show: Json -> string)
    requires w.status != Running
    ensures Run(w, events, show).table == w.table
    ensures Run(w, events, show).status == w.status
    ensures Run(w, events, show).queue == w.queue + Arrivals(events)
    decreases |events|
  {
    if |events| > 0 {
      var e, rest := events[0], events[1..];
      var next := Step(w, e, show);
      StepKeepsQueued(w, e, show);
      StoppedStaysStopped(next, rest, show);
      assert Run(w, events, show) == Run(next, rest, show);
      assert w.queue + Arrivals(events) == next.queue + Arrivals(rest) by {
        ArrivalsStep(w.queue, events);
      }
    }
  }

  /**
   Every event but a pass that takes a report leaves the table alone and
   keeps everything queued, adding the report of an arrival at the back.
   */
  lemma StepKeepsQueued(w: Worker, e: Event, show: Json -> string)
    requires !(e.Pass? && w.status == Running && !w.stopFlag && |w.queue| > 0)
    ensures Step(w, e, show).table == w.table
    ensures Step(w, e, show).queue == w.queue + (if e.Arrival? then [e.item] else [])
    ensures w.status != Running ==> Step(w, e, show).status == w.status
    ensures e.Pass? && w.status == Running && w.stopFlag ==> Step(w, e, show).status == Exited
    ensures !e.Pass? ==> Step(w, e, show).status == w.status
  {
  }

  /** Appending the arrivals of a schedule is appending those of its first event, then the rest. */
  lemma ArrivalsStep(q: seq<Item>, events: seq<Event>)
    requires |events| > 0
    ensures var e := events[0];
      q + Arrivals(events) == (q + (if e.Arrival? then [e.item] else [])) + Arrivals(events[1..])
  {
    var e, rest := events[0], Arrivals(events[1..]);
    if e.Arrival? {
      assert Arrivals(events) == [e.item] + rest;
      assert q + ([e.item] + rest) == (q + [e.item]) + rest;
    } else {
      assert Arrivals(events) == rest;
      assert q + [] == q;
    }
  }

  /** The device table a worker shows between two events. */
  ghost predicate Extends(before: Table, after: Table)
  {
    && before.keys <= after.keys
    && (forall id :: id in before.values ==> id in after.values && after.values[id].keys == before.values[id].keys)
  }

  /**
   Devices only grow, under any interleaving of passes, arrivals and
   `stop()`: every device shown stays shown, in its place, with the same
   parameter rows in the same order; new devices only appear after it.
   */
  lemma {:induction false} DevicesOnlyGrow(w: Worker, events: seq<Event>, show: Json -> string)
    ensures Extends(w.table, Run(w, events, show).table)
    decreases |events|
  {
    if |events| > 0 {
      var next := Step(w, events[0], show);
      assert Extends(w.table, next.table) by {
        if events[0].Pass? && w.status == Running && !w.stopFlag && |w.queue| > 0 {
          IterateTakesHead(w, show);
        } else {
          StepKeepsQueued(w, events[0], show);
        }
      }
      DevicesOnlyGrow(next, events[1..], show);
      assert Run(w, events, show) == Run(next, events[1..], show);
    }
  }

  /**
   `r` has taken the first `n` reports of `all` off the queue, in order, and
   holds the table that merging them in order gives; if it crashed, the last
   of them is the merge that raised.
   */
  ghost predicate ConsumedPrefix(w: Worker, r: Worker, all: seq<Item>, n: nat, show: Json -> string)
  {
    && n <= |all|
    && r.queue == all[n..]
    && (r.status.Crashed? ==> MergeAll(w.table, all[..n], show) == Failed(r.status.error, r.table))
    && (!r.status.Crashed? ==> MergeAll(w.table, all[..n], show) == Merged(r.table))
  }

  /**
   FIFO under any interleaving of passes, arrivals and `stop()`: the worker
   has consumed a prefix of everything that was ever queued, in queue order,
   its table is what merging that prefix in order gives (the merge that
   raised being the last one, if the thread crashed), and the rest is still
   queued.
   */
  lemma {:induction false} RunIsFold(w: Worker, events: seq<Event>, show: Json -> string) returns (n: nat)
    requires w.status == Running
    ensures ConsumedPrefix(w, Run(w, events, show), w.queue + Arrivals(events), n, show)
    decreases |events|, 1
  {
    if |events| == 0 {
      n := 0;
      assert (w.queue + Arrivals(events))[..0] == [];
      return;
    }
    var e, rest := events[0], events[1..];
    var next := Step(w, e, show);
    assert Run(w, events, show) == Run(next, rest, show);
    if e.Pass? && !w.stopFlag && |w.queue| > 0 {
      n := RunTakesHead(w, events, show);
    } else if e.Pass? && w.stopFlag {
      StepKeepsQueued(w, e, show);
      StoppedStaysStopped(next, rest, show);
      ArrivalsStep(w.queue, events);
      n := 0;
      assert (w.queue + Arrivals(events))[..0] == [];
    } else {
      StepKeepsQueued(w, e, show);
      ArrivalsStep(w.queue, events);
      n := RunIsFold(next, rest, show);
    }
  }

  /** The case of `RunIsFold` where the next event is a pass that takes the head report. */
  lemma {:induction false} RunTakesHead(w: Worker, events: seq<Event>, show: Json -> string) returns (n: nat)
    requires w.status == Running && !w.stopFlag && |w.queue| > 0
    requires |events| > 0 && events[0].Pass?
    ensures ConsumedPrefix(w, Run(w, events, show), w.queue + Arrivals(events), n, show)
    decreases |events|, 0
  {
    var rest := events[1..];
    var next := Iterate(w, show);
    var all := w.queue + Arrivals(events);
    var tail := all[1..];
    var m := MergeItem(w.table, w.queue[0], show);
    IterateTakesHead(w, show);
    assert Run(w, events, show) == Run(next, rest, show);
    assert next.queue + Arrivals(rest) == tail by {
      assert Arrivals(events) == Arrivals(rest);
      DropHead(w.queue, Arrivals(rest));
    }
    assert all[0] == w.queue[0];
    if m.Merged? {
      assert next.status == Running && next.table == m.table;
      var n' := RunIsFold(next, rest, show);
      n := n' + 1;
      assert all[..n][0] == w.queue[0] && all[..n][1..] == tail[..n'] by {
        SliceShift(all, n);
      }
      assert MergeAll(w.table, all[..n], show) == MergeAll(m.table, tail[..n'], show);
    } else {
      assert next.status == Crashed(m.error) && next.table == m.table;
      StoppedStaysStopped(next, rest, show);
      n := 1;
      assert MergeAll(w.table, all[..1], show) == m;
    }
  }

  /** Dropping the head of a prefix is taking a prefix of the tail. */
  lemma SliceShift(s: seq<Item>, k: nat)
    requires 0 < k <= |s|
    ensures s[..k][0] == s[0]
    ensures s[..k][1..] == s[1..][..k - 1]
  {
  }

  /** Dropping the head of a concatenation whose first part is non-empty. */
  lemma DropHead(a: seq<Item>, b: seq<Item>)
    requires |a| > 0
    ensures (a + b)[1..] == a[1..] + b
  {
  }
}
