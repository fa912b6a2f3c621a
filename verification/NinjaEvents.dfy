/** The start and stop events of a build in processing order: by time, starts before stops. */
module NinjaEvents {
  import opened NinjaSpec

  datatype Action = Start | Stop
  datatype Event = Event(time: real, action: Action, task: nat)

  function StartOf(tasks: seq<Interval>, i: nat): Event
    requires i < |tasks|
  {
    Event(tasks[i].start, Start, i)
  }

  function StopOf(tasks: seq<Interval>, i: nat): Event
    requires i < |tasks|
  {
    Event(tasks[i].end, Stop, i)
  }

  /** In the order of the first two components of the records; the task itself is ignored. */
  predicate InOrder(a: Event, b: Event) {
    a.time < b.time || (a.time == b.time && (a.action.Start? || b.action.Stop?))
  }

  function EventsOf(tasks: seq<Interval>, n: nat): seq<Event>
    requires n <= |tasks|
  {
    if n == 0 then [] else EventsOf(tasks, n - 1) + [StartOf(tasks, n - 1), StopOf(tasks, n - 1)]
  }

  /** Behind everything that may stay in front of it: a stable insertion. */
  function Insert(sorted: seq<Event>, e: Event): seq<Event> {
    if sorted == [] || InOrder(sorted[|sorted| - 1], e) then sorted + [e]
    else Insert(sorted[..|sorted| - 1], e) + [sorted[|sorted| - 1]]
  }

  function Sort(events: seq<Event>): seq<Event> {
    if events == [] then [] else Insert(Sort(events[..|events| - 1]), events[|events| - 1])
  }

  /** The order in which the summary scans the events. */
  function Schedule(tasks: seq<Interval>): seq<Event> { Sort(EventsOf(tasks, |tasks|)) }

  function Times(events: seq<Event>): seq<real> { seq(|events|, k requires 0 <= k < |events| => events[k].time) }

  ghost predicate IsSorted(events: seq<Event>) {
    forall j, k | 0 <= j <= k < |events| :: InOrder(events[j], events[k])
  }

  ghost predicate NoRepeats(events: seq<Event>) {
    forall j, k | 0 <= j < k < |events| :: events[j] != events[k]
  }

  lemma {:induction false} InsertKeeps(sorted: seq<Event>, e: Event)
    requires IsSorted(sorted) && NoRepeats(sorted) && e !in sorted
    ensures IsSorted(Insert(sorted, e)) && NoRepeats(Insert(sorted, e)) && |Insert(sorted, e)| == |sorted| + 1
    ensures forall x :: x in Insert(sorted, e) <==> x in sorted || x == e
  {
    if sorted != [] && !InOrder(sorted[|sorted| - 1], e) {
      var rest, last := sorted[..|sorted| - 1], sorted[|sorted| - 1];
      assert sorted == rest + [last];
      InsertKeeps(rest, e);
      forall x | x in Insert(rest, e) ensures InOrder(x, last) && x != last {
        if x in rest { var k :| 0 <= k < |rest| && rest[k] == x; }
      }
    }
  }

  lemma {:induction false} SortKeeps(events: seq<Event>)
    requires NoRepeats(events)
    ensures IsSorted(Sort(events)) && NoRepeats(Sort(events)) && |Sort(events)| == |events|
    ensures forall x :: x in Sort(events) <==> x in events
  {
    if events != [] {
      var rest, last := events[..|events| - 1], events[|events| - 1];
      assert events == rest + [last];
      SortKeeps(rest);
      InsertKeeps(Sort(rest), last);
    }
  }

  ghost predicate IsEvent(tasks: seq<Interval>, n: nat, e: Event)
    requires n <= |tasks|
  {
    e.task < n && (e == StartOf(tasks, e.task) || e == StopOf(tasks, e.task))
  }

  lemma {:induction false} EventsOfTasks(tasks: seq<Interval>, n: nat)
    requires n <= |tasks|
    ensures NoRepeats(EventsOf(tasks, n)) && |EventsOf(tasks, n)| == 2 * n
    ensures forall e :: e in EventsOf(tasks, n) <==> IsEvent(tasks, n, e)
  {
    if n > 0 {
      var rest := EventsOf(tasks, n - 1);
      EventsOfTasks(tasks, n - 1);
      assert forall e | e in rest :: IsEvent(tasks, n - 1, e);
      assert StartOf(tasks, n - 1) !in rest && StopOf(tasks, n - 1) !in rest;
    }
  }

  /** The schedule holds each task's start and stop once, in order. */
  lemma ScheduleIsRight(tasks: seq<Interval>)
    ensures var events := Schedule(tasks);
            && IsSorted(events) && NoRepeats(events) && |events| == 2 * |tasks|
            && (forall e :: e in events <==> IsEvent(tasks, |tasks|, e))
  {
    EventsOfTasks(tasks, |tasks|);
    SortKeeps(EventsOf(tasks, |tasks|));
  }

  lemma TimeOfEvent(events: seq<Event>, e: Event)
    requires e in events
    ensures e.time in Times(events)
  {
    var k :| 0 <= k < |events| && events[k] == e;
    assert Times(events)[k] == e.time;
  }

  /** The event times are a grid of the build. */
  lemma TimesAreGrid(tasks: seq<Interval>)
    ensures |Schedule(tasks)| == 2 * |tasks| && IsGrid(tasks, Times(Schedule(tasks)))
  {
    var events := Schedule(tasks);
    ScheduleIsRight(tasks);
    forall j, k | 0 <= j <= k < |events| ensures Times(events)[j] <= Times(events)[k] {
      assert InOrder(events[j], events[k]);
    }
    forall i | 0 <= i < |tasks| ensures tasks[i].start in Times(events) && tasks[i].end in Times(events) {
      assert IsEvent(tasks, |tasks|, StartOf(tasks, i)) && IsEvent(tasks, |tasks|, StopOf(tasks, i));
      TimeOfEvent(events, StartOf(tasks, i));
      TimeOfEvent(events, StopOf(tasks, i));
    }
  }

  // ---------------------------------------------------------------- where a task stands after k events

  ghost predicate Started(tasks: seq<Interval>, k: nat, i: nat)
    requires i < |tasks| && k <= |Schedule(tasks)|
  {
    StartOf(tasks, i) in Schedule(tasks)[..k]
  }

  ghost predicate Stopped(tasks: seq<Interval>, k: nat, i: nat)
    requires i < |tasks| && k <= |Schedule(tasks)|
  {
    StopOf(tasks, i) in Schedule(tasks)[..k]
  }

  /** Seen events are not later than the last one seen; the others are not earlier than the next one. */
  lemma SeenOrNot(tasks: seq<Interval>, k: nat, e: Event)
    requires 0 < k < |Schedule(tasks)| && IsEvent(tasks, |tasks|, e)
    ensures e in Schedule(tasks)[..k] ==> e.time <= Schedule(tasks)[k - 1].time
    ensures e !in Schedule(tasks)[..k] ==> Schedule(tasks)[k].time <= e.time
  {
    var events := Schedule(tasks);
    ScheduleIsRight(tasks);
    var p :| 0 <= p < |events| && events[p] == e;
    if p < k {
      assert events[..k][p] == e;
      assert InOrder(events[p], events[k - 1]);
    } else {
      assert InOrder(events[k], events[p]);
    }
    if e in events[..k] {
      var q :| 0 <= q < k && events[..k][q] == e;
      assert InOrder(events[q], events[k - 1]);
    }
  }

  /** Across a stretch of positive length the running tasks are exactly the ones that span it. */
  lemma RunningIsSpanning(tasks: seq<Interval>, k: nat, i: nat)
    requires WellFormed(tasks) && 0 < k < |Schedule(tasks)| && i < |tasks|
    ensures var a, b := Schedule(tasks)[k - 1].time, Schedule(tasks)[k].time;
            && (a < b ==> (Started(tasks, k, i) && !Stopped(tasks, k, i) <==> Spans(tasks[i], a, b)))
            && (!Started(tasks, k, i) || Stopped(tasks, k, i) ==> Spans(tasks[i], a, b) ==> a == b)
            && a <= b
  {
    ScheduleIsRight(tasks);
    assert InOrder(Schedule(tasks)[k - 1], Schedule(tasks)[k]);
    SeenOrNot(tasks, k, StartOf(tasks, i));
    SeenOrNot(tasks, k, StopOf(tasks, i));
  }

  /** Processing event `k` changes the standing of its own task only, and a stop finds its task running. */
  lemma NextEvent(tasks: seq<Interval>, k: nat, i: nat)
    requires WellFormed(tasks) && k < |Schedule(tasks)| && i < |tasks|
    ensures var e := Schedule(tasks)[k];
            && e.task < |tasks|
            && (Started(tasks, k + 1, i) <==> Started(tasks, k, i) || (e.action.Start? && e.task == i))
            && (Stopped(tasks, k + 1, i) <==> Stopped(tasks, k, i) || (e.action.Stop? && e.task == i))
            && (e.action.Start? ==> !Started(tasks, k, e.task))
            && (e.action.Stop? ==> Started(tasks, k, e.task) && !Stopped(tasks, k, e.task))
            && (Stopped(tasks, k, i) ==> Started(tasks, k, i))
  {
    var events := Schedule(tasks);
    var e := events[k];
    ScheduleIsRight(tasks);
    assert e in events && IsEvent(tasks, |tasks|, e);
    assert events[..k + 1] == events[..k] + [e];
    assert e !in events[..k];
    if e.action.Stop? { StartBeforeStop(tasks, k, e.task); }
    if Stopped(tasks, k, i) {
      var q :| 0 <= q < k && events[..k][q] == StopOf(tasks, i);
      StartBeforeStop(tasks, q, i);
      assert events[..q] == events[..k][..q];
    }
  }

  lemma StartBeforeStop(tasks: seq<Interval>, q: nat, i: nat)
    requires WellFormed(tasks) && q < |Schedule(tasks)| && i < |tasks| && Schedule(tasks)[q] == StopOf(tasks, i)
    ensures StartOf(tasks, i) in Schedule(tasks)[..q]
  {
    var events := Schedule(tasks);
    ScheduleIsRight(tasks);
    assert IsEvent(tasks, |tasks|, StartOf(tasks, i));
    var p :| 0 <= p < |events| && events[p] == StartOf(tasks, i);
    assert q <= p ==> InOrder(events[q], events[p]);
    assert events[..q][p] == StartOf(tasks, i);
  }
}
