/**
 The single pass over the events that computes every step's weighted time: one running accumulator
 and a dictionary from running tasks to the accumulator's value when they started.
 */
module NinjaSweep {
  import opened NinjaSpec
  import opened NinjaEvents

  const EPSILON: real := 0.000002

  class Target {
    const start: real
    const end: real
    var targets: seq<string>
    var weightedDuration: real

    constructor (start: real, end: real)
      ensures this.start == start && this.end == end && targets == [] && weightedDuration == 0.0
    {
      this.start, this.end := start, end;
      targets, weightedDuration := [], 0.0;
    }

    function Duration(): real { end - start }

    method SetWeightedDuration(weightedDuration: real)
      modifies `weightedDuration
      ensures this.weightedDuration == weightedDuration
    {
      this.weightedDuration := weightedDuration;
    }

    /** The precondition is the assertion that the source makes here. */
    method WeightedDuration() returns (w: real)
      requires weightedDuration <= Duration() + EPSILON
      ensures w == weightedDuration
    {
      w := weightedDuration;
    }
  }

  function Intervals(entries: seq<Target>): seq<Interval> {
    seq(|entries|, i requires 0 <= i < |entries| => Interval(entries[i].start, entries[i].end))
  }

  // ---------------------------------------------------------------- the invariant of the sweep

  ghost function EventTimes(tasks: seq<Interval>): seq<real> { Times(Schedule(tasks)) }

  /** The charge so far of task `i` after `m` stretches. */
  ghost function Charged(tasks: seq<Interval>, i: nat, m: nat): real
    requires i < |tasks| && m < |EventTimes(tasks)|
  {
    Weighted(tasks, EventTimes(tasks), i, m)
  }

  /**
   After `k` events and `m` stretches: the dictionary holds exactly the running tasks, each with the
   accumulator minus what it has been charged so far; `w` is the result of a stopped task.
   */
  ghost predicate Tracked(tasks: seq<Interval>, k: nat, m: nat, i: nat, running: map<nat, real>, acc: real, w: real)
    requires i < |tasks| && k <= |Schedule(tasks)| && m < |EventTimes(tasks)|
  {
    && (i in running <==> Started(tasks, k, i) && !Stopped(tasks, k, i))
    && (i in running ==> running[i] + Charged(tasks, i, m) == acc)
    && (!Started(tasks, k, i) ==> Charged(tasks, i, m) == 0.0)
    && (Stopped(tasks, k, i) ==> w == Charged(tasks, i, m))
  }

  lemma {:induction false} CountIsCard(tasks: seq<Interval>, n: nat, a: real, b: real, s: set<nat>)
    requires n <= |tasks| && forall i: nat :: i in s <==> i < n && Spans(tasks[i], a, b)
    ensures |s| == Count(tasks, n, a, b)
  {
    if n > 0 {
      var last := n - 1;
      CountIsCard(tasks, last, a, b, s - {last});
      if last in s { assert |s - {last}| == |s| - 1; } else { assert s - {last} == s; }
    } else {
      assert s == {};
    }
  }

  /** One step of the accumulator, which stands still while nothing runs. */
  function Accumulate(acc: real, numRunning: nat, elapsed: real): real {
    if numRunning > 0 then acc + elapsed / (numRunning as real) else acc
  }

  /** The size of the dictionary is the divisor of the specification. */
  lemma DivisorIsRight(tasks: seq<Interval>, k: nat, running: map<nat, real>)
    requires WellFormed(tasks) && 0 < k < |Schedule(tasks)|
    requires forall i: nat :: i in running <==> i < |tasks| && Started(tasks, k, i) && !Stopped(tasks, k, i)
    requires Schedule(tasks)[k - 1].time < Schedule(tasks)[k].time
    ensures |running| == Running(tasks, EventTimes(tasks), k - 1)
  {
    hide Schedule, Started, Stopped;
    var a, b := Schedule(tasks)[k - 1].time, Schedule(tasks)[k].time;
    forall i: nat ensures i in running.Keys <==> i < |tasks| && Spans(tasks[i], a, b) {
      if i < |tasks| { RunningIsSpanning(tasks, k, i); }
    }
    CountIsCard(tasks, |tasks|, a, b, running.Keys);
    assert |running.Keys| == |running|;
  }

  /** Advancing the accumulator over a stretch keeps every task tracked. */
  lemma StretchKeepsTracked(tasks: seq<Interval>, k: nat, i: nat, running: map<nat, real>, acc: real, w: real)
    requires WellFormed(tasks) && 0 < k < |Schedule(tasks)| && i < |tasks|
    requires forall j: nat :: j in running <==> j < |tasks| && Started(tasks, k, j) && !Stopped(tasks, k, j)
    requires Tracked(tasks, k, k - 1, i, running, acc, w)
    ensures var elapsed := Schedule(tasks)[k].time - Schedule(tasks)[k - 1].time;
      Tracked(tasks, k, k, i, running, Accumulate(acc, |running|, elapsed), w)
  {
    hide Schedule, Started, Stopped, Running;
    var elapsed := Schedule(tasks)[k].time - Schedule(tasks)[k - 1].time;
    RunningIsSpanning(tasks, k, i);
    assert Charged(tasks, i, k) == Charged(tasks, i, k - 1) + Share(tasks, EventTimes(tasks), i, k - 1);
    if elapsed > 0.0 {
      DivisorIsRight(tasks, k, running);
      if i in running { assert running.Keys != {}; }
    } else if Running(tasks, EventTimes(tasks), k - 1) > 0 {
      assert elapsed / (Running(tasks, EventTimes(tasks), k - 1) as real) == 0.0;
    }
  }

  function Scan(running: map<nat, real>, acc: real, e: Event): map<nat, real> {
    if e.action.Start? then running[e.task := acc] else running - {e.task}
  }

  /** Processing the event itself keeps every task tracked. */
  lemma EventKeepsTracked(tasks: seq<Interval>, k: nat, i: nat, running: map<nat, real>, acc: real, w: real)
    requires WellFormed(tasks) && k < |Schedule(tasks)| && i < |tasks|
    requires Tracked(tasks, k, k, i, running, acc, w)
    ensures var e := Schedule(tasks)[k];
            && e.task < |tasks|
            && (e.action.Stop? && e.task == i ==> i in running)
            && Tracked(tasks, k + 1, k, i, Scan(running, acc, e), acc,
                       if e.action.Stop? && e.task == i then acc - running[i] else w)
  {
    NextEvent(tasks, k, i);
    hide Schedule, Started, Stopped, Weighted;
  }

  // ---------------------------------------------------------------- totals

  ghost function SumOf(xs: seq<real>): real { if xs == [] then 0.0 else SumOf(xs[..|xs| - 1]) + xs[|xs| - 1] }

  lemma {:induction false} SumUpdate(xs: seq<real>, i: nat, x: real)
    requires i < |xs|
    ensures SumOf(xs[i := x]) == SumOf(xs) - xs[i] + x
  {
    var last := |xs| - 1;
    if i == last {
      assert xs[i := x][..last] == xs[..last];
    } else {
      SumUpdate(xs[..last], i, x);
      assert xs[i := x][..last] == xs[..last][i := x];
    }
  }

  lemma {:induction false} SumOfZeros(xs: seq<real>)
    requires forall i | 0 <= i < |xs| :: xs[i] == 0.0
    ensures SumOf(xs) == 0.0
  {
    if xs != [] { SumOfZeros(xs[..|xs| - 1]); }
  }

  lemma {:induction false} SumIsAllWeighted(tasks: seq<Interval>, times: seq<real>, xs: seq<real>, n: nat)
    requires |xs| <= |tasks| && n < |times|
    requires forall i | 0 <= i < |xs| :: xs[i] == Weighted(tasks, times, i, n)
    ensures SumOf(xs) == AllWeighted(tasks, times, |xs|, n)
  {
    if xs != [] { SumIsAllWeighted(tasks, times, xs[..|xs| - 1], n); }
  }

  /** Of two lists, one below the other, the sums are equal exactly if the lists are. */
  lemma {:induction false} SumsBelow(xs: seq<real>, ys: seq<real>)
    requires |xs| == |ys| && forall i | 0 <= i < |xs| :: xs[i] <= ys[i]
    ensures SumOf(xs) <= SumOf(ys) && (SumOf(xs) == SumOf(ys) <==> forall i | 0 <= i < |xs| :: xs[i] == ys[i])
  {
    if xs != [] {
      var last := |xs| - 1;
      SumsBelow(xs[..last], ys[..last]);
      assert (forall i | 0 <= i < |xs| :: xs[i] == ys[i]) <==>
        (forall i | 0 <= i < last :: xs[..last][i] == ys[..last][i]) && xs[last] == ys[last];
    }
  }

  /** The scan runs from the earliest start to the latest end. */
  lemma ScheduleEnds(tasks: seq<Interval>, earliest: real, latest: real, s: nat, e: nat)
    requires WellFormed(tasks) && |tasks| > 0
    requires forall i | 0 <= i < |tasks| :: earliest <= tasks[i].start && tasks[i].end <= latest
    requires s < |tasks| && tasks[s].start == earliest && e < |tasks| && tasks[e].end == latest
    ensures var times := EventTimes(tasks); |times| > 0 && times[0] == earliest && times[|times| - 1] == latest
  {
    var events := Schedule(tasks);
    TimesAreGrid(tasks);
    ScheduleIsRight(tasks);
    GridEnds(tasks, Times(events), s);
    GridEnds(tasks, Times(events), e);
    assert events[0] in events && events[|events| - 1] in events;
    assert IsEvent(tasks, |tasks|, events[0]) && IsEvent(tasks, |tasks|, events[|events| - 1]);
  }

  /** At the end every task has stopped. */
  lemma AllStopped(tasks: seq<Interval>, i: nat)
    requires i < |tasks|
    ensures Stopped(tasks, |Schedule(tasks)|, i)
  {
    ScheduleIsRight(tasks);
    assert IsEvent(tasks, |tasks|, StopOf(tasks, i));
    assert Schedule(tasks)[..|Schedule(tasks)|] == Schedule(tasks);
  }

  lemma NothingStarted(tasks: seq<Interval>, i: nat)
    requires i < |tasks|
    ensures !Started(tasks, 0, i) && !Stopped(tasks, 0, i)
  {
  }

  ghost predicate AllTracked(tasks: seq<Interval>, k: nat, m: nat, running: map<nat, real>, acc: real, w: seq<real>)
    requires k <= |Schedule(tasks)| && m < |EventTimes(tasks)| && |w| == |tasks|
  {
    && (forall i | 0 <= i < |tasks| :: Tracked(tasks, k, m, i, running, acc, w[i]))
    && (forall i | i in running :: i < |tasks|)
  }

  ghost predicate DoneOk(tasks: seq<Interval>, k: nat, w: seq<real>, done: seq<real>)
    requires k <= |Schedule(tasks)| && |w| == |done| == |tasks|
  {
    forall i | 0 <= i < |tasks| :: done[i] == if Stopped(tasks, k, i) then w[i] else 0.0
  }

  /**
   All tasks are tracked; `w` holds their results so far and `done` those of the stopped tasks, which
   add up to `total`.
   */
  ghost predicate SweepInv(tasks: seq<Interval>, k: nat, running: map<nat, real>, acc: real, w: seq<real>,
                           done: seq<real>, total: real)
  {
    var m := if k == 0 then 0 else k - 1;
    && k <= |Schedule(tasks)| && m < |EventTimes(tasks)| && |w| == |done| == |tasks|
    && AllTracked(tasks, k, m, running, acc, w) && DoneOk(tasks, k, w, done) && total == SumOf(done)
  }

  lemma SweepStart(tasks: seq<Interval>, running: map<nat, real>, w: seq<real>) returns (done: seq<real>)
    requires |tasks| > 0 && |w| == |tasks| && running == map[]
    ensures SweepInv(tasks, 0, running, 0.0, w, done, 0.0)
  {
    done := seq(|tasks|, _ => 0.0);
    ScheduleIsRight(tasks);
    SumOfZeros(done);
    hide Schedule;
    forall i | 0 <= i < |tasks| { NothingStarted(tasks, i); }
  }

  /** The set of running tasks, read off the dictionary. */
  lemma RunningSet(tasks: seq<Interval>, k: nat, m: nat, running: map<nat, real>, acc: real, w: seq<real>)
    requires k <= |Schedule(tasks)| && m < |EventTimes(tasks)| && |w| == |tasks|
    requires AllTracked(tasks, k, m, running, acc, w)
    ensures forall j: nat :: j in running <==> j < |tasks| && Started(tasks, k, j) && !Stopped(tasks, k, j)
  {
    hide Schedule, Started, Stopped;
    forall j: nat ensures j in running <==> j < |tasks| && Started(tasks, k, j) && !Stopped(tasks, k, j) {
      if j < |tasks| { assert Tracked(tasks, k, m, j, running, acc, w[j]); }
    }
  }

  function Elapsed(tasks: seq<Interval>, k: nat): real
    requires k < |Schedule(tasks)|
  {
    Schedule(tasks)[k].time - Schedule(tasks)[if k == 0 then 0 else k - 1].time
  }

  lemma StretchStep(tasks: seq<Interval>, k: nat, running: map<nat, real>, acc: real, w: seq<real>)
    requires WellFormed(tasks) && k < |Schedule(tasks)| == |EventTimes(tasks)| && |w| == |tasks|
    requires AllTracked(tasks, k, if k == 0 then 0 else k - 1, running, acc, w)
    ensures AllTracked(tasks, k, k, running, Accumulate(acc, |running|, Elapsed(tasks, k)), w)
  {
    hide Schedule, Started, Stopped, WellFormed;
    RunningSet(tasks, k, if k == 0 then 0 else k - 1, running, acc, w);
    if k == 0 {
      forall i | i in running ensures false { NothingStarted(tasks, i); }
      assert running == map[];
    } else {
      hide Tracked, Accumulate;
      forall i | 0 <= i < |tasks|
        ensures Tracked(tasks, k, k, i, running, Accumulate(acc, |running|, Elapsed(tasks, k)), w[i])
      {
        StretchKeepsTracked(tasks, k, i, running, acc, w[i]);
      }
    }
  }

  function Charge(running: map<nat, real>, acc: real, e: Event): real {
    if e.task in running then acc - running[e.task] else 0.0
  }

  function SetAtStop(w: seq<real>, e: Event, charge: real): seq<real>
    requires e.task < |w|
  {
    if e.action.Stop? then w[e.task := charge] else w
  }

  lemma EventStep(tasks: seq<Interval>, k: nat, running: map<nat, real>, acc: real, w: seq<real>, done: seq<real>)
    requires WellFormed(tasks) && k < |Schedule(tasks)| == |EventTimes(tasks)| && |w| == |done| == |tasks|
    requires AllTracked(tasks, k, k, running, acc, w) && DoneOk(tasks, k, w, done)
    ensures var e := Schedule(tasks)[k];
            && e.task < |tasks| && (e.action.Stop? ==> e.task in running && done[e.task] == 0.0)
            && AllTracked(tasks, k + 1, k, Scan(running, acc, e), acc, SetAtStop(w, e, Charge(running, acc, e)))
            && DoneOk(tasks, k + 1, SetAtStop(w, e, Charge(running, acc, e)),
                      SetAtStop(done, e, Charge(running, acc, e)))
  {
    var e := Schedule(tasks)[k];
    assert |tasks| > 0 by { ScheduleIsRight(tasks); }
    NextEvent(tasks, k, 0);
    hide Schedule, Started, Stopped, WellFormed;
    NextEvent(tasks, k, e.task);
    var charge := Charge(running, acc, e);
    forall i | 0 <= i < |tasks|
      ensures e.action.Stop? && e.task == i ==> i in running
      ensures Tracked(tasks, k + 1, k, i, Scan(running, acc, e), acc, SetAtStop(w, e, charge)[i])
      ensures Stopped(tasks, k + 1, i) <==> Stopped(tasks, k, i) || (e.action.Stop? && e.task == i)
    {
      NextEvent(tasks, k, i);
      EventKeepsTracked(tasks, k, i, running, acc, w[i]);
    }
  }

  /** One iteration of the scan. */
  lemma SweepStep(tasks: seq<Interval>, k: nat, running: map<nat, real>, acc: real, w: seq<real>, done: seq<real>,
                  total: real)
    requires WellFormed(tasks) && SweepInv(tasks, k, running, acc, w, done, total) && k < |Schedule(tasks)|
    ensures var e, acc' := Schedule(tasks)[k], Accumulate(acc, |running|, Elapsed(tasks, k));
            var charge := Charge(running, acc', e);
            && e.task < |tasks| == |w| == |done| && (e.action.Stop? ==> e.task in running)
            && SweepInv(tasks, k + 1, Scan(running, acc', e), acc', SetAtStop(w, e, charge), SetAtStop(done, e, charge),
                        if e.action.Stop? then total + charge else total)
  {
    hide Schedule, Started, Stopped, WellFormed, SumOf, Accumulate, AllTracked, DoneOk;
    var e, acc' := Schedule(tasks)[k], Accumulate(acc, |running|, Elapsed(tasks, k));
    StretchStep(tasks, k, running, acc, w);
    EventStep(tasks, k, running, acc', w, done);
    SumUpdate(done, e.task, Charge(running, acc', e));
  }

  /** Nothing is left running, every result is the full charge, and they add up to the busy time. */
  lemma {:induction false} SweepEnd(tasks: seq<Interval>, running: map<nat, real>, acc: real, w: seq<real>,
                                    done: seq<real>, total: real)
    requires |tasks| > 0 && SweepInv(tasks, |Schedule(tasks)|, running, acc, w, done, total)
    ensures var n := |Schedule(tasks)|;
            && running == map[] && n == |EventTimes(tasks)| > 0
            && (forall i | 0 <= i < |tasks| :: w[i] == Charged(tasks, i, n - 1))
            && total == Busy(tasks, EventTimes(tasks), n - 1)
  {
    var n := |Schedule(tasks)|;
    ScheduleIsRight(tasks);
    hide Schedule, Stopped, Started;
    forall i | 0 <= i < |tasks| { AllStopped(tasks, i); }
    RunningSet(tasks, n, n - 1, running, acc, w);
    assert running.Keys == {};
    SumIsAllWeighted(tasks, EventTimes(tasks), done, n - 1);
    ChargesAreBusyTime(tasks, EventTimes(tasks), n - 1);
  }

  ghost predicate EntriesOk(entries: seq<Target>) {
    && (forall i | 0 <= i < |entries| :: 0.0 <= entries[i].start <= entries[i].end)
    && (forall i, j | 0 <= i < j < |entries| :: entries[i] != entries[j])
  }

  lemma {:induction false} NoEvents(tasks: seq<Interval>)
    ensures EventsOf(tasks, 0) == []
  {
  }

  lemma NextEvents(tasks: seq<Interval>, i: nat)
    requires i < |tasks|
    ensures EventsOf(tasks, i + 1) ==
            EventsOf(tasks, i) + [Event(tasks[i].start, Start, i), Event(tasks[i].end, Stop, i)]
  {
  }

  /** The first loop: the two events of every entry, and the extent of the build. */
  method Collect(entries: seq<Target>)
    returns (events: seq<Event>, earliest: real, latest: real, totalCpuTime: real, ghost first: nat, ghost last: nat)
    requires EntriesOk(entries) && |entries| > 0
    ensures events == EventsOf(Intervals(entries), |entries|)
    ensures forall i | 0 <= i < |entries| :: earliest <= entries[i].start && entries[i].end <= latest
    ensures first < |entries| && entries[first].start == earliest && last < |entries| && entries[last].end == latest
    ensures totalCpuTime == SumOf(seq(|entries|, i requires 0 <= i < |entries| => entries[i].end - entries[i].start))
  {
    hide EventsOf;
    ghost var durations := seq(|entries|, i requires 0 <= i < |entries| => entries[i].end - entries[i].start);
    events, earliest, latest, totalCpuTime := [], -1.0, 0.0, 0.0;
    NoEvents(Intervals(entries));
    first, last := 0, 0;
    for i := 0 to |entries|
      invariant events == EventsOf(Intervals(entries), i)
      invariant i == 0 ==> earliest == -1.0 && latest == 0.0
      invariant i > 0 ==> 0 <= first < i && entries[first].start == earliest
      invariant latest == 0.0 || (0 <= last < i && entries[last].end == latest)
      invariant latest >= 0.0
      invariant forall j | 0 <= j < i :: earliest <= entries[j].start && entries[j].end <= latest
      invariant totalCpuTime == SumOf(durations[..i])
    {
      var target := entries[i];
      if earliest < 0.0 || target.start < earliest { earliest, first := target.start, i; }
      if target.end > latest { latest, last := target.end, i; }
      totalCpuTime := totalCpuTime + target.Duration();
      assert durations[..i + 1][..i] == durations[..i];
      events := events + [Event(target.start, Start, i), Event(target.end, Stop, i)];
      NextEvents(Intervals(entries), i);
    }
    assert durations[..|entries|] == durations;
    if latest == 0.0 { last := 0; }
  }

  /** Between an equal share among `n` tasks of the whole duration, and the whole duration. */
  ghost predicate WithinBounds(duration: real, charge: real, n: nat)
    requires n > 0
  {
    duration / (n as real) <= charge <= duration
  }

  lemma ChargesBounded(tasks: seq<Interval>, i: nat)
    requires WellFormed(tasks) && i < |tasks|
    ensures |EventTimes(tasks)| > 0
    ensures WithinBounds(tasks[i].end - tasks[i].start, Charged(tasks, i, |EventTimes(tasks)| - 1), |tasks|)
  {
    TimesAreGrid(tasks);
    FullChargeBounds(tasks, EventTimes(tasks), i);
  }

  /** The charges add up to at most the length of the build, and to all of it exactly when it was never idle. */
  lemma {:induction false} TotalIsBounded(tasks: seq<Interval>)
    requires |tasks| > 0
    ensures var times := EventTimes(tasks);
            && |times| > 0
            && Busy(tasks, times, |times| - 1) <= times[|times| - 1] - times[0]
            && (Busy(tasks, times, |times| - 1) == times[|times| - 1] - times[0]
                <==> NeverIdle(tasks, times[0], times[|times| - 1]))
  {
    TimesAreGrid(tasks);
    BusyUpToElapsed(tasks, EventTimes(tasks), |EventTimes(tasks)| - 1);
  }

  ghost function Durations(tasks: seq<Interval>): seq<real> {
    seq(|tasks|, i requires 0 <= i < |tasks| => tasks[i].end - tasks[i].start)
  }

  /** The charges add up to at most all durations, and to all of them exactly when no two tasks run together. */
  lemma {:induction false} TotalAndDurations(tasks: seq<Interval>)
    requires WellFormed(tasks) && |tasks| > 0
    ensures |EventTimes(tasks)| > 0
    ensures Busy(tasks, EventTimes(tasks), |EventTimes(tasks)| - 1) <= SumOf(Durations(tasks))
    ensures Busy(tasks, EventTimes(tasks), |EventTimes(tasks)| - 1) == SumOf(Durations(tasks)) <==>
      forall i | 0 <= i < |tasks| :: Alone(tasks, i)
  {
    hide SumOf, Weighted, Busy, Alone, IsGrid, WellFormed, EventTimes;
    EventsAreGrid(tasks);
    var times, n := EventTimes(tasks), |EventTimes(tasks)| - 1;
    var charges := seq(|tasks|, i requires 0 <= i < |tasks| => Weighted(tasks, times, i, n));
    ChargesAreBusyTime(tasks, times, n);
    SumIsAllWeighted(tasks, times, charges, n);
    forall i | 0 <= i < |tasks|
      ensures charges[i] <= Durations(tasks)[i] && (charges[i] == Durations(tasks)[i] <==> Alone(tasks, i))
    {
      FullChargeBounds(tasks, times, i);
      FullChargeIsAll(tasks, times, i);
    }
    SumsBelow(charges, Durations(tasks));
  }

  lemma EventsAreGrid(tasks: seq<Interval>)
    requires |tasks| > 0
    ensures IsGrid(tasks, EventTimes(tasks)) && |EventTimes(tasks)| > 0
  {
    TimesAreGrid(tasks);
    GridEnds(tasks, EventTimes(tasks), 0);
  }

  /**
   The summary's computation. Every entry gets exactly its specified charge; the charges add up to
   the busy time, which is the length of the build exactly when it was never idle, and the sum of all
   durations exactly when no two entries ran together; and the assertion in `WeightedDuration` holds
   for every entry.
   */
  method SummarizeEntries(entries: seq<Target>) returns (length: real, weightedTotal: real, totalCpuTime: real)
    requires EntriesOk(entries) && |entries| > 0
    modifies entries
    ensures |EventTimes(Intervals(entries))| > 0
    ensures forall i | 0 <= i < |entries| ::
              entries[i].weightedDuration == Charged(Intervals(entries), i, |EventTimes(Intervals(entries))| - 1)
    ensures forall i | 0 <= i < |entries| :: WithinBounds(entries[i].Duration(), entries[i].weightedDuration, |entries|)
    ensures var tasks, times := Intervals(entries), EventTimes(Intervals(entries));
            && weightedTotal == Busy(tasks, times, |times| - 1) <= length == times[|times| - 1] - times[0]
            && (weightedTotal == length <==> NeverIdle(tasks, times[0], times[|times| - 1]))
    ensures totalCpuTime == SumOf(seq(|entries|, i requires 0 <= i < |entries| => entries[i].end - entries[i].start))
    ensures weightedTotal <= totalCpuTime
    ensures weightedTotal == totalCpuTime <==> forall i | 0 <= i < |entries| :: Alone(Intervals(entries), i)
    ensures forall i | 0 <= i < |entries| :: entries[i].targets == old(entries[i].targets)
  {
    hide Schedule, Weighted, Busy, NeverIdle, SumOf, EventTimes;
    ghost var tasks := Intervals(entries);
    var events, earliest, latest;
    ghost var first, last;
    events, earliest, latest, totalCpuTime, first, last := Collect(entries);
    length := latest - earliest;
    ScheduleEnds(tasks, earliest, latest, first, last);
    events := Sort(events);
    SortedEvents(tasks);
    weightedTotal := Sweep(entries, events, tasks);
    TotalIsBounded(tasks);
    EntriesAreWellFormed(entries);
    TotalAndDurations(tasks);
    assert Durations(tasks) == seq(|entries|, i requires 0 <= i < |entries| => entries[i].end - entries[i].start);
    forall i | 0 <= i < |entries| ensures WithinBounds(entries[i].Duration(), entries[i].weightedDuration, |entries|) {
      ChargesBounded(tasks, i);
    }
    Report(entries);
  }

  /** Printing asks every entry for its weighted duration, and so runs into the assertion or not. */
  method Report(entries: seq<Target>)
    requires forall i | 0 <= i < |entries| ::
      WithinBounds(entries[i].Duration(), entries[i].weightedDuration, |entries|)
  {
    for i := 0 to |entries| {
      assert WithinBounds(entries[i].Duration(), entries[i].weightedDuration, |entries|);
      var _ := entries[i].WeightedDuration();
    }
  }

  lemma EntriesAreWellFormed(entries: seq<Target>)
    requires EntriesOk(entries)
    ensures WellFormed(Intervals(entries))
  {
  }

  lemma ScheduleLength(tasks: seq<Interval>)
    ensures |Schedule(tasks)| == |EventTimes(tasks)| == 2 * |tasks|
  {
    ScheduleIsRight(tasks);
  }

  lemma {:induction false} SortedEvents(tasks: seq<Interval>)
    ensures Sort(EventsOf(tasks, |tasks|)) == Schedule(tasks)
  {
  }

  method RecordCharge(entries: seq<Target>, i: nat, charge: real)
    requires EntriesOk(entries) && i < |entries|
    modifies entries
    ensures forall j | 0 <= j < |entries| ::
      entries[j].weightedDuration == if j == i then charge else old(entries[j].weightedDuration)
    ensures forall j | 0 <= j < |entries| :: entries[j].targets == old(entries[j].targets)
  {
    entries[i].SetWeightedDuration(charge);
  }

  /** The scan over the sorted events. */
  method Sweep(entries: seq<Target>, events: seq<Event>, ghost tasks: seq<Interval>) returns (weightedTotal: real)
    requires EntriesOk(entries) && |entries| > 0 && tasks == Intervals(entries) && events == Schedule(tasks)
    modifies entries
    ensures |EventTimes(tasks)| == |events| > 0
    ensures forall i | 0 <= i < |entries| :: entries[i].weightedDuration == Charged(tasks, i, |events| - 1)
    ensures forall i | 0 <= i < |entries| :: entries[i].targets == old(entries[i].targets)
    ensures weightedTotal == Busy(tasks, EventTimes(tasks), |events| - 1)
  {
    hide Schedule, SweepInv, SumOf, Accumulate, Charged, Busy, WellFormed, EventTimes, EntriesOk;
    ScheduleLength(tasks);
    EntriesAreWellFormed(entries);
    var running: map<nat, real> := map[];
    var lastTime, lastWeightedTime := events[0].time, 0.0;
    weightedTotal := 0.0;
    ghost var w := seq(|entries|, i requires 0 <= i < |entries| reads entries => entries[i].weightedDuration);
    ghost var done := SweepStart(tasks, running, w);
    for k := 0 to |events|
      invariant lastTime == events[if k == 0 then 0 else k - 1].time
      invariant SweepInv(tasks, k, running, lastWeightedTime, w, done, weightedTotal)
      invariant |w| == |entries| && forall i | 0 <= i < |entries| :: w[i] == entries[i].weightedDuration
      invariant forall i | 0 <= i < |entries| :: entries[i].targets == old(entries[i].targets)
    {
      var e := events[k];
      SweepStep(tasks, k, running, lastWeightedTime, w, done, weightedTotal);
      lastWeightedTime := Accumulate(lastWeightedTime, |running|, e.time - lastTime);
      if e.action.Start? {
        running := running[e.task := lastWeightedTime];
      }
      if e.action.Stop? {
        var weightedDuration := lastWeightedTime - running[e.task];
        RecordCharge(entries, e.task, weightedDuration);
        weightedTotal := weightedTotal + weightedDuration;
        w, done := w[e.task := weightedDuration], done[e.task := weightedDuration];
        running := running - {e.task};
      }
      lastTime := e.time;
    }
    SweepEnd(tasks, running, lastWeightedTime, w, done, weightedTotal);
    assert |running| == 0;
  }
}
