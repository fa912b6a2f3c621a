/** What the allocator does when the driver refuses nothing: every operation takes its full effect. */
module CumemObliging {
  import opened Arith
  import opened Chunks
  import opened CumemDriver
  import opened CumemState
  import opened CumemMeaning
  import opened CumemRuns
  import opened CumemSafety
  import opened CumemCounts
  import opened Partition
  import opened Wrappers

  const UNHARMED := Fate({}, {}, {}, {})

  /** Consistent, without a pending error, and nothing lost, dead, stranded or leaked. */
  ghost predicate Healthy(m: Moment) { Sound(m) && m.errorCode == 0 && m.fate == UNHARMED }

  /** What the caller should do: ask for something, and name the rounded size when freeing. */
  predicate Proper(g: nat, m: Moment, op: Op)
    requires 0 < g
  {
    match op
    case Malloc(size, setting) => 0 < size && RequestFits(size, setting, g)
    case Free(p, size) => p in m.allocs ==> size == m.allocs[p].size
    case Trim(p) => p !in m.allocs
    case Sleep(_) => true
    case Discard(_) => true
    case Wake(_) => true
  }

  /** A new allocation of the rounded size, awake, at an aligned address that nobody had. */
  ghost predicate Allocated(g: nat, m: Moment, m': Moment, size: nat, setting: Option<nat>, d: nat)
    requires 0 < g
  {
    && d % g == 0 && d !in m.allocs && d in m'.allocs && m'.allocs == m.allocs[d := m'.allocs[d]]
    && IsNew(m'.allocs[d], size, setting, g) && m'.st.reserved == m.st.reserved[d := m'.allocs[d].size]
  }

  /** The full effect of an operation. */
  ghost predicate Done(g: nat, m: Moment, op: Op, m': Moment)
    requires 0 < g
  {
    match op
    case Malloc(size, setting) => exists d: nat :: Allocated(g, m, m', size, setting, d)
    case Free(p, _) => m'.allocs == m.allocs - {p} && m'.st.reserved == m.st.reserved - {p}
    case Trim(_) => m' == m
    case Sleep(p) => PutToSleep(m, m', p)
    case Discard(p) => PutToSleep(m, m', p)
    case Wake(p) =>
      && m'.st.reserved == m.st.reserved && m'.allocs.Keys == m.allocs.Keys
      && (p in m.allocs ==>
            m'.allocs == m.allocs[p := m.allocs[p].(cells := m'.allocs[p].cells, asleep := false)])
      && (p !in m.allocs ==> m' == m)
  }

  ghost predicate PutToSleep(m: Moment, m': Moment, p: nat) {
    && m'.st.reserved == m.st.reserved
    && m'.allocs == if p in m.allocs then m.allocs[p := m.allocs[p].(asleep := true)] else m.allocs
  }

  /** A live entry at home is unloaded without an error, and its range can then be given back. */
  lemma Unloads(m: Moment, p: nat)
    requires Healthy(m) && p in m.allocs
    ensures Unloadable(m, p) && GivesBack(UnloadedSt(m, p), p, m.allocs[p].size) && Tame(m, p)
    ensures p in m.st.reserved && UnloadedSt(m, p).reserved == m.st.reserved
  {
    hide Consistent, DriverOk, Handles, Maps, UnmapAll, Found;
    SoundIsAccounted(m);
    HasHome(m, p);
    UnloadedKeeps(m, p);
    var a := m.allocs[p];
    if a.asleep {
      AsleepIsUnmapped(m.st, m.allocs, m.fate, p);
    } else {
      LiveHeld(m.st, m.allocs, m.fate, p);
      UnmapAllOfOwn(m.st.mapped, p, a);
      forall h | h in a.cells
        ensures h in m.st.handles
      {
        var k :| 0 <= k < |a.cells| && a.cells[k] == h;
        ChunkHandle(a, k);
      }
    }
  }

  lemma MallocObliged(g: nat, m: Moment, op: Op, m': Moment)
    requires 0 < g && Healthy(m) && op.Malloc? && Proper(g, m, op) && Follows(g, m, op, m')
    requires m'.refusals == m.refusals
    ensures m'.errorCode == 0 && m'.fate == UNHARMED && Done(g, m, op, m')
  {
    hide DriverOk, Handles, Maps, IsNew, RequestFits, Loaded;
    var d: nat :| Malloced(g, m, m', op.size, op.chunkSetting, d);
    if d in m.allocs {
      SoundIsAccounted(m);
      HasHome(m, d);
    }
    assert Allocated(g, m, m', op.size, op.chunkSetting, d);
  }

  lemma FreeObliged(g: nat, m: Moment, op: Op, m': Moment)
    requires 0 < g && Healthy(m) && op.Free? && Proper(g, m, op) && Follows(g, m, op, m')
    ensures m'.errorCode == 0 && m'.fate == UNHARMED && Done(g, m, op, m')
  {
    hide Sound, DriverOk, UnloadedSt, Unloadable, GivesBack;
    if op.ptr in m.allocs {
      Unloads(m, op.ptr);
    } else {
      NobodyAt(m, op.ptr);
    }
  }

  lemma NobodyAt(m: Moment, p: nat)
    requires Healthy(m) && p !in m.allocs
    ensures p !in m.st.reserved && m.allocs - {p} == m.allocs && m.st.reserved - {p} == m.st.reserved
  {
  }

  lemma SleepObliged(g: nat, m: Moment, op: Op, m': Moment)
    requires 0 < g && Healthy(m) && (op.Sleep? || op.Discard?) && Follows(g, m, op, m')
    requires m'.refusals == m.refusals
    ensures m'.errorCode == 0 && m'.fate == UNHARMED && Done(g, m, op, m')
  {
    hide Sound, DriverOk, UnloadedSt, Unloadable, GivesBack;
    var p := op.ptr;
    if p in m.allocs && !m.allocs[p].asleep {
      Unloads(m, p);
      if op.Sleep? {
        var lost :| Slept(m, m', p, lost);
      } else {
        var lost :| Discarded(m, m', p, lost);
      }
    }
  }

  lemma WakeObliged(g: nat, m: Moment, op: Op, m': Moment)
    requires 0 < g && Healthy(m) && op.Wake? && Follows(g, m, op, m') && m'.refusals == m.refusals
    ensures m'.errorCode == 0 && m'.fate == UNHARMED && Done(g, m, op, m')
  {
    hide Consistent, DriverOk, Vacant, Loaded;
    var p := op.ptr;
    if p in m.allocs && m.allocs[p].asleep {
      SoundIsAccounted(m);
      HasHome(m, p);
      AsleepIsUnmapped(m.st, m.allocs, m.fate, p);
      WholeSize(m, p);
      RangeIsVacant(m.st, p, m.allocs[p].chunks);
    }
  }

  lemma WholeSize(m: Moment, p: nat)
    requires Accounted(m) && p in m.allocs
    ensures m.allocs[p].size == Offset(m.allocs[p].chunks, |m.allocs[p].chunks|)
  {
    assert EntryOk(m.st.reserved, m.allocs, m.fate, p);
  }

  /** Without a refusal, a proper operation on a healthy state takes its full effect and leaves a healthy state. */
  lemma ObligedStep(g: nat, m: Moment, op: Op, m': Moment)
    requires 0 < g && Healthy(m) && Proper(g, m, op) && Follows(g, m, op, m') && m'.refusals == m.refusals
    ensures Healthy(m') && Done(g, m, op, m')
  {
    hide Sound, Follows, Done;
    NothingWild(m, op);
    SoundUnlessWild(g, m, op, m');
    match op
    case Malloc(_, _) => MallocObliged(g, m, op, m');
    case Free(_, _) => FreeObliged(g, m, op, m');
    case Sleep(_) => SleepObliged(g, m, op, m');
    case Discard(_) => SleepObliged(g, m, op, m');
    case Wake(_) => WakeObliged(g, m, op, m');
    case Trim(_) => NothingToTrim(g, m, op, m');
  }

  lemma NothingToTrim(g: nat, m: Moment, op: Op, m': Moment)
    requires 0 < g && op.Trim? && Proper(g, m, op) && Follows(g, m, op, m')
    ensures m' == m && Done(g, m, op, m')
  {
  }

  lemma NothingWild(m: Moment, op: Op)
    requires m.fate == UNHARMED
    ensures !Wild(m, op)
  {
  }

  lemma RefusalsGrow(g: nat, m: Moment, op: Op, m': Moment)
    requires 0 < g && Follows(g, m, op, m')
    ensures m.refusals <= m'.refusals
  {
    hide DriverOk, UnloadedSt, UnloadedFate, MayLose, Handles, Maps, IsNew, ShapeOk, Loaded, Vacant, FreeError;
    hide GivesBack, RequestFits, Leaked, AwakeAgain;
  }

  lemma {:induction false} RefusalsOfRun(g: nat, trace: seq<Moment>, ops: seq<Op>, n: nat, k: nat)
    requires 0 < g && IsRun(g, trace, ops) && n <= k <= |ops|
    ensures trace[n].refusals <= trace[k].refusals
  {
    hide Follows;
    if n < k {
      RefusalsOfRun(g, trace, ops, n, k - 1);
      RefusalsGrow(g, trace[k - 1], ops[k - 1], trace[k]);
    }
  }

  /** A run of proper operations in which the driver refuses nothing: each takes its full effect. */
  lemma {:induction false} ObligedRun(g: nat, trace: seq<Moment>, ops: seq<Op>, n: nat)
    requires 0 < g && IsRun(g, trace, ops) && Healthy(trace[0]) && n <= |ops|
    requires trace[|ops|].refusals == trace[0].refusals
    requires forall k | 0 <= k < |ops| :: Proper(g, trace[k], ops[k])
    ensures Healthy(trace[n])
    ensures forall k | 0 <= k < n :: Done(g, trace[k], ops[k], trace[k + 1])
  {
    hide Follows, Healthy, Proper, Done;
    if n > 0 {
      ObligedRun(g, trace, ops, n - 1);
      RefusalsOfRun(g, trace, ops, 0, n - 1);
      RefusalsOfRun(g, trace, ops, n - 1, n);
      RefusalsOfRun(g, trace, ops, n, |ops|);
      ObligedStep(g, trace[n - 1], ops[n - 1], trace[n]);
    }
  }

  /** Sleeping and waking up again gives back the same allocation at the same address, on new memory. */
  lemma SleepThenWake(g: nat, m: Moment, m1: Moment, m2: Moment, p: nat)
    requires 0 < g && Healthy(m) && p in m.allocs && !m.allocs[p].asleep
    requires Follows(g, m, Sleep(p), m1) && Follows(g, m1, Op.Wake(p), m2) && m2.refusals == m.refusals
    ensures Healthy(m2) && m2.st.reserved == m.st.reserved && p in m2.allocs
    ensures m2.allocs == m.allocs[p := m.allocs[p].(cells := m2.allocs[p].cells)]
    ensures Sum(m1.st.handles) == Sum(AwakeSizes(m1.allocs, m1.fate)) && Sum(m2.st.handles) == Sum(m.st.handles)
  {
    hide Sound, Follows;
    RefusalsGrow(g, m, Sleep(p), m1);
    RefusalsGrow(g, m1, Op.Wake(p), m2);
    ObligedStep(g, m, Sleep(p), m1);
    ObligedStep(g, m1, Op.Wake(p), m2);
    HealthyBytes(m);
    HealthyBytes(m1);
    HealthyBytes(m2);
    assert AwakeSizes(m2.allocs, m2.fate) == AwakeSizes(m.allocs, m.fate);
  }

  lemma HealthyBytes(m: Moment)
    requires Healthy(m)
    ensures Sum(m.st.handles) == Sum(AwakeSizes(m.allocs, m.fate))
  {
    PhysicalBytes(m.st, m.allocs, m.fate);
    assert LeakedSizes(m.st, m.fate.leaked) == map[];
  }
}
