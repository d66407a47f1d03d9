/**
 * The offline event timeline: one event per whole multiple of each process's
 * interval up to the offline time, worker updates first, then task
 * assignments, then entity updates, and the stable sort by timestamp that
 * the replay runs over. Intervals are whole positive seconds, so the float
 * accumulation of the timestamps is exact here.
 */
module OfflineTimeline {
  import opened Seqs
  import Arith

  datatype OfflineEventType = WorkerUpdate | TaskAssignment | EntityUpdate

  datatype OfflineEvent = OfflineEvent(timestamp: int, eventType: OfflineEventType)

  /** The times start, start + interval, start + 2·interval, ... that do not pass total. */
  function MultiplesFrom(start: int, interval: int, total: int): (r: seq<int>)
    requires interval > 0
    ensures forall x :: x in r ==> start <= x <= total
    decreases total - start
  {
    if start > total then [] else [start] + MultiplesFrom(start + interval, interval, total)
  }

  /** The j-th time is start + j·interval, and one more step would pass total. */
  lemma {:induction false} MultiplesFromShape(start: int, interval: int, total: int)
    requires interval > 0
    ensures var r := MultiplesFrom(start, interval, total);
            (forall j :: 0 <= j < |r| ==> r[j] == start + j * interval)
            && start + |r| * interval > total
    decreases total - start
  {
    if start <= total {
      MultiplesFromShape(start + interval, interval, total);
      var rest := MultiplesFrom(start + interval, interval, total);
      var r := MultiplesFrom(start, interval, total);
      assert r == [start] + rest;
      forall j | 1 <= j < |r|
        ensures r[j] == start + j * interval
      {
        assert r[j] == rest[j - 1] == start + interval + (j - 1) * interval;
      }
      assert start + |r| * interval == start + interval + |rest| * interval;
    }
  }

  /** k·a grows with a for a positive k. */
  lemma MulMonotone(a: int, b: int, k: int)
    requires k > 0 && a >= b
    ensures a * k >= b * k
  {
    assert a * k - b * k == (a - b) * k;
  }

  /** Every time the loop visits is a multiple of the interval within 1 .. total. */
  lemma MultiplesAreOnGrid(interval: int, total: int, j: nat)
    requires interval > 0
    requires j < |MultiplesFrom(interval, interval, total)|
    ensures var t := MultiplesFrom(interval, interval, total)[j];
            1 <= t <= total && t % interval == 0
  {
    var r := MultiplesFrom(interval, interval, total);
    MultiplesFromShape(interval, interval, total);
    assert r[j] in r;
    assert r[j] == interval + j * interval;
    assert r[j] == interval * (j + 1) + 0;
    Arith.ModOfDecomposition(r[j], interval, j + 1, 0);
  }

  /** Every multiple of the interval within 1 .. total is visited. */
  lemma GridIsVisited(interval: int, total: int, t: int)
    requires interval > 0 && 1 <= t <= total && t % interval == 0
    ensures t in MultiplesFrom(interval, interval, total)
  {
    var r := MultiplesFrom(interval, interval, total);
    MultiplesFromShape(interval, interval, total);
    var q := t / interval;
    assert t == interval * q;
    if q <= 0 {
      MulMonotone(0, q, interval);
    }
    var j := q - 1;
    assert t == interval + j * interval;
    if j >= |r| {
      MulMonotone(j, |r|, interval);
    }
    assert r[j] == t;
  }

  /**
   * For a positive interval i the loop's times are exactly the multiples of
   * i in 1 .. total: every one of them, and nothing else.
   */
  lemma MultiplesAreExactly(interval: int, total: int, t: int)
    requires interval > 0
    ensures t in MultiplesFrom(interval, interval, total) <==> 1 <= t <= total && t % interval == 0
  {
    var r := MultiplesFrom(interval, interval, total);
    if t in r {
      var j :| 0 <= j < |r| && r[j] == t;
      MultiplesAreOnGrid(interval, total, j);
    }
    if 1 <= t <= total && t % interval == 0 {
      GridIsVisited(interval, total, t);
    }
  }

  /**
   * The counter of the loop that lists one process's times: it starts at
   * the interval and each pass adds the interval (the counter of AddEventsEvery).
   */
  function LoopCounter(interval: int, n: nat): int
  {
    if n == 0 then interval else LoopCounter(interval, n - 1) + interval
  }

  /** After n passes the counter is (n + 1)·interval. */
  lemma {:induction false} LoopCounterIs(interval: int, n: nat)
    ensures LoopCounter(interval, n) == interval + n * interval
  {
    if n > 0 {
      LoopCounterIs(interval, n - 1);
    }
  }

  /**
   * As written the loop's only guard is that the counter has not passed the
   * offline time, and nothing rejects a zero or negative interval: then the
   * counter never rises above the interval, the guard holds after every
   * number of passes, and the loop never ends.
   */
  lemma {:induction false} NonPositiveIntervalNeverLeavesLoop(interval: int, total: int, n: nat)
    requires interval <= 0 <= total
    ensures LoopCounter(interval, n) <= interval <= total
  {
    if n > 0 {
      NonPositiveIntervalNeverLeavesLoop(interval, total, n - 1);
    }
  }

  /**
   * With a positive interval, as intended, the loop ends: its passes visit
   * exactly the times of MultiplesFrom, and the guard fails on the pass
   * right after them.
   */
  lemma PositiveIntervalLeavesLoop(interval: int, total: int)
    requires interval > 0
    ensures var r := MultiplesFrom(interval, interval, total);
            (forall j :: 0 <= j < |r| ==> LoopCounter(interval, j) == r[j] <= total)
            && LoopCounter(interval, |r|) > total
  {
    var r := MultiplesFrom(interval, interval, total);
    MultiplesFromShape(interval, interval, total);
    forall j | 0 <= j < |r|
      ensures LoopCounter(interval, j) == r[j] <= total
    {
      LoopCounterIs(interval, j);
      assert r[j] in r;
    }
    LoopCounterIs(interval, |r|);
  }

  /** The events of one process at the given times, in time order. */
  function Tagged(ts: seq<int>, eventType: OfflineEventType): (r: seq<OfflineEvent>)
    ensures |r| == |ts|
    ensures forall j :: 0 <= j < |r| ==> r[j] == OfflineEvent(ts[j], eventType)
  {
    if |ts| == 0 then [] else [OfflineEvent(ts[0], eventType)] + Tagged(ts[1..], eventType)
  }

  /** CreateEventTimeline: all worker updates, then all task assignments, then all entity updates. */
  function Timeline(total: int, workerInterval: int, taskInterval: int, entityInterval: int): seq<OfflineEvent>
    requires workerInterval > 0 && taskInterval > 0 && entityInterval > 0
  {
    Tagged(MultiplesFrom(workerInterval, workerInterval, total), WorkerUpdate)
    + Tagged(MultiplesFrom(taskInterval, taskInterval, total), TaskAssignment)
    + Tagged(MultiplesFrom(entityInterval, entityInterval, total), EntityUpdate)
  }

  /** One of CreateEventTimeline's three for-loops: append an event at every multiple of the interval up to total. */
  method AddEventsEvery(events: seq<OfflineEvent>, total: int, interval: int, eventType: OfflineEventType)
    returns (r: seq<OfflineEvent>)
    requires interval > 0
    ensures r == events + Tagged(MultiplesFrom(interval, interval, total), eventType)
  {
    r := events;
    var time := interval;
    ghost var passes := 0;
    while time <= total
      invariant time == LoopCounter(interval, passes)
      invariant r + Tagged(MultiplesFrom(time, interval, total), eventType)
                == events + Tagged(MultiplesFrom(interval, interval, total), eventType)
      decreases total - time
    {
      assert MultiplesFrom(time, interval, total) == [time] + MultiplesFrom(time + interval, interval, total);
      r := r + [OfflineEvent(time, eventType)];
      time := time + interval;
      passes := passes + 1;
    }
  }

  /** CreateEventTimeline, loop by loop. */
  method CreateEventTimeline(totalOfflineSeconds: int, workerInterval: int, taskInterval: int, entityInterval: int)
    returns (events: seq<OfflineEvent>)
    requires workerInterval > 0 && taskInterval > 0 && entityInterval > 0
    ensures events == Timeline(totalOfflineSeconds, workerInterval, taskInterval, entityInterval)
  {
    ghost var workers := Tagged(MultiplesFrom(workerInterval, workerInterval, totalOfflineSeconds), WorkerUpdate);
    ghost var tasks := Tagged(MultiplesFrom(taskInterval, taskInterval, totalOfflineSeconds), TaskAssignment);
    ghost var entities := Tagged(MultiplesFrom(entityInterval, entityInterval, totalOfflineSeconds), EntityUpdate);
    events := [];
    events := AddEventsEvery(events, totalOfflineSeconds, workerInterval, WorkerUpdate);
    assert events == workers by { assert [] + workers == workers; }
    events := AddEventsEvery(events, totalOfflineSeconds, taskInterval, TaskAssignment);
    assert events == workers + tasks;
    events := AddEventsEvery(events, totalOfflineSeconds, entityInterval, EntityUpdate);
    assert events == workers + tasks + entities;
  }

  predicate SortedByTimestamp(s: seq<OfflineEvent>)
  {
    forall i, j :: 0 <= i < j < |s| ==> s[i].timestamp <= s[j].timestamp
  }

  /** The events at one timestamp. */
  function AtTime(t: int): OfflineEvent -> bool
  {
    (e: OfflineEvent) => e.timestamp == t
  }

  /** Place x after every element whose timestamp is not later than its own. */
  function Insert(x: OfflineEvent, r: seq<OfflineEvent>): (out: seq<OfflineEvent>)
    ensures multiset(out) == multiset(r) + multiset{x}
  {
    if |r| == 0 then [x]
    else if r[|r| - 1].timestamp <= x.timestamp then r + [x]
    else
      assert r == r[..|r| - 1] + [r[|r| - 1]];
      Insert(x, r[..|r| - 1]) + [r[|r| - 1]]
  }

  /** OrderBy(e => e.timestamp), a stable sort: each element is inserted after the earlier ones it ties with. */
  function OrderByTimestamp(s: seq<OfflineEvent>): (r: seq<OfflineEvent>)
    ensures multiset(r) == multiset(s)
  {
    if |s| == 0 then []
    else
      assert s == s[..|s| - 1] + [s[|s| - 1]];
      Insert(s[|s| - 1], OrderByTimestamp(s[..|s| - 1]))
  }

  lemma {:induction false} InsertKeepsSorted(x: OfflineEvent, r: seq<OfflineEvent>)
    requires SortedByTimestamp(r)
    ensures SortedByTimestamp(Insert(x, r))
  {
    if |r| > 0 && r[|r| - 1].timestamp > x.timestamp {
      var init := r[..|r| - 1];
      InsertKeepsSorted(x, init);
      var inserted := Insert(x, init);
      forall e | e in inserted
        ensures e.timestamp <= r[|r| - 1].timestamp
      {
        assert e in multiset(inserted);
        assert e == x || e in multiset(init);
      }
    }
  }

  /** Inserting into a sorted list keeps the order of every timestamp's events, with x last among its own. */
  lemma {:induction false} InsertKeepsTies(x: OfflineEvent, r: seq<OfflineEvent>, t: int)
    requires SortedByTimestamp(r)
    ensures Filter(Insert(x, r), AtTime(t)) == Filter(r, AtTime(t)) + (if x.timestamp == t then [x] else [])
  {
    var p := AtTime(t);
    if |r| == 0 {
      assert Insert(x, r) == [x];
    } else if r[|r| - 1].timestamp <= x.timestamp {
      assert Insert(x, r) == r + [x];
      FilterAppend(r, [x], p);
    } else {
      var init := r[..|r| - 1];
      var last := r[|r| - 1];
      assert r == init + [last];
      assert Insert(x, r) == Insert(x, init) + [last];
      InsertKeepsTies(x, init, t);
      FilterAppend(Insert(x, init), [last], p);
      FilterAppend(init, [last], p);
      assert Filter(r, p) == Filter(init, p) + Filter([last], p);
      FilterSingle(last, p);
      FilterSingle(x, p);
      if x.timestamp == t {
        assert Filter([last], p) == [];
        assert Filter(r, p) == Filter(init, p);
      } else {
        assert Filter(Insert(x, init), p) == Filter(init, p);
      }
    }
  }

  lemma FilterSingle(x: OfflineEvent, p: OfflineEvent -> bool)
    ensures Filter([x], p) == if p(x) then [x] else []
  {
    assert [x][1..] == [];
  }

  lemma {:induction false} OrderByTimestampIsSorted(s: seq<OfflineEvent>)
    ensures SortedByTimestamp(OrderByTimestamp(s))
  {
    if |s| > 0 {
      OrderByTimestampIsSorted(s[..|s| - 1]);
      InsertKeepsSorted(s[|s| - 1], OrderByTimestamp(s[..|s| - 1]));
    }
  }

  lemma {:induction false} OrderByTimestampKeepsTies(s: seq<OfflineEvent>, t: int)
    ensures Filter(OrderByTimestamp(s), AtTime(t)) == Filter(s, AtTime(t))
  {
    if |s| > 0 {
      var init := s[..|s| - 1];
      var last := s[|s| - 1];
      assert s == init + [last];
      OrderByTimestampKeepsTies(init, t);
      OrderByTimestampIsSorted(init);
      InsertKeepsTies(last, OrderByTimestamp(init), t);
      FilterAppend(init, [last], AtTime(t));
      FilterSingle(last, AtTime(t));
    }
  }

  /**
   * The replay order: OrderByTimestamp sorts by timestamp, loses and adds
   * nothing, and keeps the events of each timestamp in their input order.
   */
  lemma OrderByTimestampIsStableSort(s: seq<OfflineEvent>)
    ensures SortedByTimestamp(OrderByTimestamp(s))
    ensures multiset(OrderByTimestamp(s)) == multiset(s)
    ensures forall t :: Filter(OrderByTimestamp(s), AtTime(t)) == Filter(s, AtTime(t))
  {
    OrderByTimestampIsSorted(s);
    forall t
      ensures Filter(OrderByTimestamp(s), AtTime(t)) == Filter(s, AtTime(t))
    {
      OrderByTimestampKeepsTies(s, t);
    }
  }

  /** A process's events at one time: one event if the time is on its grid, none otherwise. */
  lemma {:induction false} TaggedAtTime(start: int, interval: int, total: int, eventType: OfflineEventType, t: int)
    requires interval > 0
    ensures Filter(Tagged(MultiplesFrom(start, interval, total), eventType), AtTime(t))
            == if t in MultiplesFrom(start, interval, total) then [OfflineEvent(t, eventType)] else []
    decreases total - start
  {
    if start <= total {
      var rest := MultiplesFrom(start + interval, interval, total);
      TaggedAtTime(start + interval, interval, total, eventType, t);
      assert MultiplesFrom(start, interval, total) == [start] + rest;
      assert Tagged([start] + rest, eventType) == [OfflineEvent(start, eventType)] + Tagged(rest, eventType);
      FilterAppend([OfflineEvent(start, eventType)], Tagged(rest, eventType), AtTime(t));
    }
  }

  /**
   * What the replay sees at second t: the worker update if the worker
   * interval divides t, then the assignment if its interval does, then
   * the entity update if its interval does; at a shared time the worker goes
   * first and the entities last.
   */
  lemma ReplayOrderAtTime(total: int, workerInterval: int, taskInterval: int, entityInterval: int, t: int)
    requires workerInterval > 0 && taskInterval > 0 && entityInterval > 0
    ensures var onGrid := 1 <= t <= total;
            Filter(OrderByTimestamp(Timeline(total, workerInterval, taskInterval, entityInterval)), AtTime(t))
            == (if onGrid && t % workerInterval == 0 then [OfflineEvent(t, WorkerUpdate)] else [])
               + (if onGrid && t % taskInterval == 0 then [OfflineEvent(t, TaskAssignment)] else [])
               + (if onGrid && t % entityInterval == 0 then [OfflineEvent(t, EntityUpdate)] else [])
  {
    var w := Tagged(MultiplesFrom(workerInterval, workerInterval, total), WorkerUpdate);
    var a := Tagged(MultiplesFrom(taskInterval, taskInterval, total), TaskAssignment);
    var e := Tagged(MultiplesFrom(entityInterval, entityInterval, total), EntityUpdate);
    OrderByTimestampIsStableSort(w + a + e);
    FilterAppend(w + a, e, AtTime(t));
    FilterAppend(w, a, AtTime(t));
    TaggedAtTime(workerInterval, workerInterval, total, WorkerUpdate, t);
    TaggedAtTime(taskInterval, taskInterval, total, TaskAssignment, t);
    TaggedAtTime(entityInterval, entityInterval, total, EntityUpdate, t);
    MultiplesAreExactly(workerInterval, total, t);
    MultiplesAreExactly(taskInterval, total, t);
    MultiplesAreExactly(entityInterval, total, t);
  }
}
