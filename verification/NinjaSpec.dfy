/**
 What a build summary charges to each build step: on every stretch of time between two consecutive
 start or stop times, each running step is charged an equal share of the stretch.
 */
module NinjaSpec {

  datatype Interval = Interval(start: real, end: real)

  ghost predicate WellFormed(tasks: seq<Interval>) {
    forall i | 0 <= i < |tasks| :: 0.0 <= tasks[i].start <= tasks[i].end
  }

  /** A time grid: sorted, with every start and end on it. */
  ghost predicate IsGrid(tasks: seq<Interval>, times: seq<real>) {
    && (forall j, k | 0 <= j <= k < |times| :: times[j] <= times[k])
    && (forall i | 0 <= i < |tasks| :: tasks[i].start in times && tasks[i].end in times)
  }

  /** The task runs throughout [a, b]. */
  ghost predicate Spans(task: Interval, a: real, b: real) { task.start <= a && b <= task.end }

  /** How many of the first `n` tasks run throughout [a, b]. */
  ghost function Count(tasks: seq<Interval>, n: nat, a: real, b: real): nat
    requires n <= |tasks|
  {
    if n == 0 then 0 else Count(tasks, n - 1, a, b) + if Spans(tasks[n - 1], a, b) then 1 else 0
  }

  ghost function Running(tasks: seq<Interval>, times: seq<real>, j: nat): nat
    requires j + 1 < |times|
  {
    Count(tasks, |tasks|, times[j], times[j + 1])
  }

  /** What task `i` is charged for stretch `j`: an equal share, if it runs throughout it. */
  ghost function Share(tasks: seq<Interval>, times: seq<real>, i: nat, j: nat): real
    requires i < |tasks| && j + 1 < |times|
  {
    if Spans(tasks[i], times[j], times[j + 1]) && Running(tasks, times, j) > 0
    then (times[j + 1] - times[j]) / (Running(tasks, times, j) as real) else 0.0
  }

  /** The specification: the charge of task `i` over the first `n` stretches. */
  ghost function Weighted(tasks: seq<Interval>, times: seq<real>, i: nat, n: nat): real
    requires i < |tasks| && n < |times|
  {
    if n == 0 then 0.0 else Weighted(tasks, times, i, n - 1) + Share(tasks, times, i, n - 1)
  }

  /** Time in the first `n` stretches during which at least one task runs. */
  ghost function Busy(tasks: seq<Interval>, times: seq<real>, n: nat): real
    requires n < |times|
  {
    if n == 0 then 0.0
    else Busy(tasks, times, n - 1) + if Running(tasks, times, n - 1) > 0 then times[n] - times[n - 1] else 0.0
  }

  lemma {:induction false} CountPositive(tasks: seq<Interval>, n: nat, a: real, b: real, i: nat)
    requires i < n <= |tasks| && Spans(tasks[i], a, b)
    ensures Count(tasks, n, a, b) > 0
  {
    if i < n - 1 { CountPositive(tasks, n - 1, a, b, i); }
  }

  lemma {:induction false} CountWitness(tasks: seq<Interval>, n: nat, a: real, b: real) returns (i: nat)
    requires n <= |tasks| && Count(tasks, n, a, b) > 0
    ensures i < n && Spans(tasks[i], a, b)
  {
    if Spans(tasks[n - 1], a, b) { i := n - 1; } else { i := CountWitness(tasks, n - 1, a, b); }
  }

  lemma {:induction false} CountAtMost(tasks: seq<Interval>, n: nat, a: real, b: real)
    requires n <= |tasks|
    ensures Count(tasks, n, a, b) <= n
  {
    if n > 0 { CountAtMost(tasks, n - 1, a, b); }
  }

  // ---------------------------------------------------------------- conservation

  /** The charges of the first `m` tasks over the first `n` stretches. */
  ghost function AllWeighted(tasks: seq<Interval>, times: seq<real>, m: nat, n: nat): real
    requires m <= |tasks| && n < |times|
  {
    if m == 0 then 0.0 else AllWeighted(tasks, times, m - 1, n) + Weighted(tasks, times, m - 1, n)
  }

  ghost function AllShares(tasks: seq<Interval>, times: seq<real>, m: nat, j: nat): real
    requires m <= |tasks| && j + 1 < |times|
  {
    if m == 0 then 0.0 else AllShares(tasks, times, m - 1, j) + Share(tasks, times, m - 1, j)
  }

  lemma {:induction false} SplitLastStretch(tasks: seq<Interval>, times: seq<real>, m: nat, n: nat)
    requires m <= |tasks| && 0 < n < |times|
    ensures AllWeighted(tasks, times, m, n) == AllWeighted(tasks, times, m, n - 1) + AllShares(tasks, times, m, n - 1)
  {
    if m > 0 { SplitLastStretch(tasks, times, m - 1, n); }
  }

  lemma {:induction false} SharesOfStretch(tasks: seq<Interval>, times: seq<real>, m: nat, j: nat)
    requires m <= |tasks| && j + 1 < |times| && Running(tasks, times, j) > 0
    ensures AllShares(tasks, times, m, j) ==
            (Count(tasks, m, times[j], times[j + 1]) as real) *
            ((times[j + 1] - times[j]) / (Running(tasks, times, j) as real))
  {
    if m > 0 { SharesOfStretch(tasks, times, m - 1, j); }
  }

  lemma {:induction false} NoShares(tasks: seq<Interval>, times: seq<real>, m: nat, j: nat)
    requires m <= |tasks| && j + 1 < |times| && Running(tasks, times, j) == 0
    ensures AllShares(tasks, times, m, j) == 0.0
  {
    if m > 0 { NoShares(tasks, times, m - 1, j); }
  }

  /** Conservation: what all tasks are charged is exactly the time during which some task runs. */
  lemma {:induction false} ChargesAreBusyTime(tasks: seq<Interval>, times: seq<real>, n: nat)
    requires n < |times|
    ensures AllWeighted(tasks, times, |tasks|, n) == Busy(tasks, times, n)
  {
    hide AllWeighted, AllShares, Count;
    if n == 0 {
      NothingCharged(tasks, times, |tasks|);
    } else {
      ChargesAreBusyTime(tasks, times, n - 1);
      SplitLastStretch(tasks, times, |tasks|, n);
      if Running(tasks, times, n - 1) > 0 {
        SharesOfStretch(tasks, times, |tasks|, n - 1);
        Whole(times[n] - times[n - 1], Running(tasks, times, n - 1) as real);
      } else {
        NoShares(tasks, times, |tasks|, n - 1);
      }
    }
  }

  lemma Whole(x: real, k: real)
    requires k != 0.0
    ensures k * (x / k) == x
  {
  }

  lemma {:induction false} NothingCharged(tasks: seq<Interval>, times: seq<real>, m: nat)
    requires m <= |tasks| && 0 < |times|
    ensures AllWeighted(tasks, times, m, 0) == 0.0
  {
    if m > 0 { NothingCharged(tasks, times, m - 1); }
  }

  // ---------------------------------------------------------------- idle time

  /** At every instant of [lo, hi) some task is running. */
  ghost predicate NeverIdle(tasks: seq<Interval>, lo: real, hi: real) {
    forall t: real | lo <= t < hi :: RunsAt(tasks, t)
  }

  ghost predicate RunsAt(tasks: seq<Interval>, t: real) {
    exists i :: 0 <= i < |tasks| && tasks[i].start <= t < tasks[i].end
  }

  /** No start or end lies strictly inside a stretch. */
  lemma OnGrid(tasks: seq<Interval>, times: seq<real>, i: nat, j: nat)
    requires IsGrid(tasks, times) && i < |tasks| && j + 1 < |times|
    ensures tasks[i].start <= times[j] || times[j + 1] <= tasks[i].start
    ensures tasks[i].end <= times[j] || times[j + 1] <= tasks[i].end
  {
    assert tasks[i].start in times && tasks[i].end in times;
    var s :| 0 <= s < |times| && times[s] == tasks[i].start;
    var e :| 0 <= e < |times| && times[e] == tasks[i].end;
    assert s <= j || j + 1 <= s;
    assert e <= j || j + 1 <= e;
  }

  /** A stretch of positive length is busy exactly when some task runs at any one of its instants. */
  lemma StretchBusy(tasks: seq<Interval>, times: seq<real>, j: nat, t: real)
    requires IsGrid(tasks, times) && j + 1 < |times| && times[j] <= t < times[j + 1]
    ensures Running(tasks, times, j) > 0 <==> RunsAt(tasks, t)
  {
    if Running(tasks, times, j) > 0 {
      var i := CountWitness(tasks, |tasks|, times[j], times[j + 1]);
    }
    if RunsAt(tasks, t) {
      var i :| 0 <= i < |tasks| && tasks[i].start <= t < tasks[i].end;
      OnGrid(tasks, times, i, j);
      CountPositive(tasks, |tasks|, times[j], times[j + 1], i);
    }
  }

  /** Busy time is at most the elapsed time, and equal to it exactly when the build was never idle. */
  lemma {:induction false} BusyUpToElapsed(tasks: seq<Interval>, times: seq<real>, n: nat)
    requires IsGrid(tasks, times) && n < |times|
    ensures Busy(tasks, times, n) <= times[n] - times[0]
    ensures Busy(tasks, times, n) == times[n] - times[0] <==> NeverIdle(tasks, times[0], times[n])
  {
    if n > 0 {
      BusyUpToElapsed(tasks, times, n - 1);
      if times[n - 1] < times[n] {
        StretchBusy(tasks, times, n - 1, times[n - 1]);
        if Running(tasks, times, n - 1) > 0 {
          forall t: real | times[n - 1] <= t < times[n]
            ensures RunsAt(tasks, t)
          {
            StretchBusy(tasks, times, n - 1, t);
          }
        }
      }
    }
  }

  // ---------------------------------------------------------------- bounds per task

  ghost function Clamp(task: Interval, t: real): real {
    if t < task.start then task.start else if t > task.end then task.end else t
  }

  /** The part of stretch `j` in which task `i` runs. */
  ghost function Lived(tasks: seq<Interval>, times: seq<real>, i: nat, j: nat): real
    requires i < |tasks| && j + 1 < |times|
  {
    Clamp(tasks[i], times[j + 1]) - Clamp(tasks[i], times[j])
  }

  lemma ShareBounds(tasks: seq<Interval>, times: seq<real>, i: nat, j: nat)
    requires WellFormed(tasks) && IsGrid(tasks, times) && i < |tasks| && j + 1 < |times|
    ensures Lived(tasks, times, i, j) / (|tasks| as real) <= Share(tasks, times, i, j) <= Lived(tasks, times, i, j)
  {
    OnGrid(tasks, times, i, j);
    hide IsGrid, WellFormed, Count;
    if Spans(tasks[i], times[j], times[j + 1]) {
      CountPositive(tasks, |tasks|, times[j], times[j + 1], i);
      CountAtMost(tasks, |tasks|, times[j], times[j + 1]);
      assert Lived(tasks, times, i, j) == times[j + 1] - times[j];
      DivideBy(times[j + 1] - times[j], Running(tasks, times, j), |tasks|);
    } else {
      assert Lived(tasks, times, i, j) == 0.0;
    }
  }

  /** Over the stretches of its lifetime a task is charged between 1/m of the time, m tasks in all, and all of it. */
  lemma {:induction false} ChargeBounds(tasks: seq<Interval>, times: seq<real>, i: nat, n: nat)
    requires WellFormed(tasks) && IsGrid(tasks, times) && i < |tasks| && n < |times|
    ensures Weighted(tasks, times, i, n) <= Clamp(tasks[i], times[n]) - Clamp(tasks[i], times[0])
    ensures (Clamp(tasks[i], times[n]) - Clamp(tasks[i], times[0])) / (|tasks| as real) <= Weighted(tasks, times, i, n)
  {
    hide Clamp, Share, IsGrid, WellFormed;
    if n > 0 {
      ChargeBounds(tasks, times, i, n - 1);
      ShareBounds(tasks, times, i, n - 1);
      var before := Clamp(tasks[i], times[n - 1]) - Clamp(tasks[i], times[0]);
      DivideSum(before, Lived(tasks, times, i, n - 1), |tasks| as real);
    }
  }

  lemma DivideSum(a: real, b: real, m: real)
    requires m > 0.0
    ensures (a + b) / m == a / m + b / m
  {
  }

  lemma DivideBy(x: real, k: nat, m: nat)
    requires 0.0 <= x && 0 < k <= m
    ensures x / (m as real) <= x / (k as real) <= x
  {
    DivideByMore(x, 1.0, k as real);
    DivideByMore(x, k as real, m as real);
  }

  /** The larger the divisor the smaller the quotient. */
  lemma DivideByMore(x: real, k: real, m: real)
    requires 0.0 <= x && 0.0 < k <= m
    ensures x / m <= x / k
  {
    var a, b := x / k, x / m;
    assert a * k == x && b * m == x;
    if a < b {
      TimesBelow(a, b, k);
      TimesAtMost(k, m, b);
    }
  }

  lemma TimesBelow(a: real, b: real, k: real)
    requires a < b && 0.0 < k
    ensures a * k < b * k
  {
  }

  lemma TimesAtMost(k: real, m: real, b: real)
    requires k <= m && 0.0 <= b
    ensures b * k <= b * m
  {
  }

  /** The grid starts with the earliest start and stops with the latest end. */
  lemma GridEnds(tasks: seq<Interval>, times: seq<real>, i: nat)
    requires IsGrid(tasks, times) && i < |tasks|
    ensures |times| > 0 && times[0] <= tasks[i].start && tasks[i].end <= times[|times| - 1]
  {
    assert tasks[i].start in times && tasks[i].end in times;
    var s :| 0 <= s < |times| && times[s] == tasks[i].start;
    var e :| 0 <= e < |times| && times[e] == tasks[i].end;
  }

  /** Each task's full charge lies between its duration divided by the number of tasks and its duration. */
  lemma {:induction false} FullChargeBounds(tasks: seq<Interval>, times: seq<real>, i: nat)
    requires WellFormed(tasks) && IsGrid(tasks, times) && i < |tasks|
    ensures |times| > 0
    ensures var charge, duration := Weighted(tasks, times, i, |times| - 1), tasks[i].end - tasks[i].start;
      duration / (|tasks| as real) <= charge <= duration
  {
    GridEnds(tasks, times, i);
    hide IsGrid, Weighted;
    ChargeBounds(tasks, times, i, |times| - 1);
  }

  // ---------------------------------------------------------------- tasks that run at the same time

  /** The later start comes before the earlier end: for some time the two run together. */
  ghost predicate Together(a: Interval, b: Interval) {
    a.start < a.end && a.start < b.end && b.start < a.end && b.start < b.end
  }

  ghost predicate Alone(tasks: seq<Interval>, i: nat)
    requires i < |tasks|
  {
    forall k | 0 <= k < |tasks| && k != i :: !Together(tasks[i], tasks[k])
  }

  /** Stretch `j` is part of the task's life and shared with another one. */
  ghost predicate Shared(tasks: seq<Interval>, times: seq<real>, i: nat, j: nat)
    requires i < |tasks| && j + 1 < |times|
  {
    Spans(tasks[i], times[j], times[j + 1]) && times[j] < times[j + 1] && Running(tasks, times, j) > 1
  }

  lemma {:induction false} StretchAt(times: seq<real>, n: nat, t: real) returns (j: nat)
    requires n < |times| && times[0] <= t < times[n]
    ensures j < n && times[j] <= t < times[j + 1]
  {
    if times[n - 1] <= t { j := n - 1; } else { j := StretchAt(times, n - 1, t); }
  }

  /** If more tasks than this one run, some other one does. */
  lemma {:induction false} CountOther(tasks: seq<Interval>, n: nat, a: real, b: real, i: nat) returns (k: nat)
    requires i < |tasks| && n <= |tasks| && Count(tasks, n, a, b) > if i < n && Spans(tasks[i], a, b) then 1 else 0
    ensures k < n && k != i && Spans(tasks[k], a, b)
  {
    if Spans(tasks[n - 1], a, b) && n - 1 != i { k := n - 1; } else { k := CountOther(tasks, n - 1, a, b, i); }
  }

  lemma {:induction false} CountTwo(tasks: seq<Interval>, n: nat, a: real, b: real, i: nat, k: nat)
    requires i < k < n <= |tasks| && Spans(tasks[i], a, b) && Spans(tasks[k], a, b)
    ensures Count(tasks, n, a, b) > 1
  {
    if k < n - 1 { CountTwo(tasks, n - 1, a, b, i, k); } else { CountPositive(tasks, n - 1, a, b, i); }
  }

  lemma Halved(x: real, k: real)
    requires 0.0 < x && 1.0 < k
    ensures x / k < x
  {
    var q := x / k;
    assert q * k == x;
    if x <= q { TimesAtMost(1.0, k, q); TimesBelow(1.0, k, q); }
  }

  /** A stretch is charged in full unless it is shared. */
  lemma ShareIsAll(tasks: seq<Interval>, times: seq<real>, i: nat, j: nat)
    requires WellFormed(tasks) && IsGrid(tasks, times) && i < |tasks| && j + 1 < |times|
    ensures Share(tasks, times, i, j) == Lived(tasks, times, i, j) <==> !Shared(tasks, times, i, j)
  {
    OnGrid(tasks, times, i, j);
    assert times[j] <= times[j + 1];
    hide IsGrid, WellFormed, Count;
    if Spans(tasks[i], times[j], times[j + 1]) {
      CountPositive(tasks, |tasks|, times[j], times[j + 1], i);
      assert Lived(tasks, times, i, j) == times[j + 1] - times[j];
      if Shared(tasks, times, i, j) { Halved(times[j + 1] - times[j], Running(tasks, times, j) as real); }
    }
  }

  lemma {:induction false} ChargeIsAll(tasks: seq<Interval>, times: seq<real>, i: nat, n: nat)
    requires WellFormed(tasks) && IsGrid(tasks, times) && i < |tasks| && n < |times|
    ensures Weighted(tasks, times, i, n) == Clamp(tasks[i], times[n]) - Clamp(tasks[i], times[0]) <==>
      forall j | 0 <= j < n :: !Shared(tasks, times, i, j)
  {
    hide Clamp, Share, IsGrid, WellFormed, Shared;
    if n > 0 {
      ChargeIsAll(tasks, times, i, n - 1);
      ChargeBounds(tasks, times, i, n - 1);
      ShareBounds(tasks, times, i, n - 1);
      ShareIsAll(tasks, times, i, n - 1);
    }
  }

  lemma SharedIsTogether(tasks: seq<Interval>, times: seq<real>, i: nat, j: nat)
    requires i < |tasks| && j + 1 < |times| && Shared(tasks, times, i, j)
    ensures !Alone(tasks, i)
  {
    var k := CountOther(tasks, |tasks|, times[j], times[j + 1], i);
    assert Together(tasks[i], tasks[k]);
  }

  lemma TogetherIsShared(tasks: seq<Interval>, times: seq<real>, i: nat, k: nat) returns (j: nat)
    requires IsGrid(tasks, times) && i < |tasks| && k < |tasks| && i != k && Together(tasks[i], tasks[k])
    ensures j + 1 < |times| && Shared(tasks, times, i, j)
  {
    GridEnds(tasks, times, i);
    GridEnds(tasks, times, k);
    var t := if tasks[i].start < tasks[k].start then tasks[k].start else tasks[i].start;
    j := StretchAt(times, |times| - 1, t);
    OnGrid(tasks, times, i, j);
    OnGrid(tasks, times, k, j);
    CountTwo(tasks, |tasks|, times[j], times[j + 1], if i < k then i else k, if i < k then k else i);
  }

  /** A task's full charge is its whole duration exactly when no other one ever runs together with it. */
  lemma {:induction false} FullChargeIsAll(tasks: seq<Interval>, times: seq<real>, i: nat)
    requires WellFormed(tasks) && IsGrid(tasks, times) && i < |tasks|
    ensures |times| > 0
    ensures Weighted(tasks, times, i, |times| - 1) == tasks[i].end - tasks[i].start <==> Alone(tasks, i)
  {
    GridEnds(tasks, times, i);
    hide IsGrid, Weighted, Shared, Together;
    ChargeIsAll(tasks, times, i, |times| - 1);
    if j :| 0 <= j < |times| - 1 && Shared(tasks, times, i, j) {
      SharedIsTogether(tasks, times, i, j);
    } else if k :| 0 <= k < |tasks| && k != i && Together(tasks[i], tasks[k]) {
      var j := TogetherIsShared(tasks, times, i, k);
    }
  }
}
