/** Exactly which operations leave a reservation or a handle behind, and how many of them a run leaves. */
module CumemCounts {
  import opened Arith
  import opened Chunks
  import opened CumemDriver
  import opened CumemState
  import opened CumemMeaning
  import opened CumemRuns
  import opened CumemSafety
  import opened Partition

  /** Freeing or trimming an address that has its reservation, which the driver would not take back or gives again. */
  ghost predicate MayStrand(m: Moment, op: Op) {
    match op
    case Free(p, size) => p in m.allocs && p !in m.fate.homeless && !GivesBack(UnloadedSt(m, p), p, size)
    case Trim(p) => p in m.allocs && p !in m.fate.homeless
    case Malloc(_, _) => false
    case Sleep(_) => false
    case Discard(_) => false
    case Wake(_) => false
  }

  /** Such an operation does leave a reservation without an entry, unless the driver withholds the placeholder. */
  ghost predicate Strands(m: Moment, op: Op, m': Moment) {
    MayStrand(m, op) && (op.Trim? ==> op.ptr in m'.st.reserved)
  }

  /** Waking up with an error pending. */
  predicate StaleWake(m: Moment, op: Op) {
    op.Wake? && op.ptr in m.allocs && m.allocs[op.ptr].asleep && m.errorCode != 0
  }

  lemma UnloadedSame(m: Moment, p: nat)
    requires Accounted(m) && p in m.allocs
    ensures UnloadedSt(m, p).reserved == m.st.reserved && UnloadedFate(m, p).homeless == m.fate.homeless
    ensures UnloadedFate(m, p).stranded == m.fate.stranded && UnloadedFate(m, p).leaked <= m.fate.leaked
    ensures p !in m.fate.stranded && (p in m.fate.homeless ==> p !in m.st.reserved)
  {
  }

  lemma SetGrows(s: set<nat>, t: set<nat>, p: nat)
    requires p !in s && (t == s || t == s + {p})
    ensures |t| == |s| + OneIf(t == s + {p})
  {
  }

  /** The leaked handles that are among the cells of a dead entry, and are released with it after all. */
  function ReleasedWith(m: Moment, p: nat): nat {
    if IsDead(m, p) then |m.fate.leaked * Elements(m.allocs[p].cells)| else 0
  }

  lemma UnloadedLeaks(m: Moment, p: nat)
    requires Accounted(m) && p in m.allocs
    ensures |UnloadedFate(m, p).leaked| + ReleasedWith(m, p) == |m.fate.leaked|
  {
    hide DriverOk;
    assert EntryOk(m.st.reserved, m.allocs, m.fate, p);
    SplitSize(m.fate.leaked, Elements(m.allocs[p].cells));
  }

  lemma FreedCounts(m: Moment, p: nat, size: nat)
    requires Accounted(m) && p in m.allocs
    ensures var fate := Freed(m, p, size).fate;
      && |fate.stranded| == |m.fate.stranded| + OneIf(MayStrand(m, Free(p, size)))
      && |fate.leaked| + ReleasedWith(m, p) == |m.fate.leaked|
  {
    hide Accounted, GivesBack, UnloadedSt, UnloadedFate;
    UnloadedSame(m, p);
    UnloadedLeaks(m, p);
    SetGrows(m.fate.stranded, Freed(m, p, size).fate.stranded, p);
  }

  lemma UnmappedCounts(m: Moment, p: nat, lost: bool)
    requires Accounted(m) && p in m.allocs && (lost ==> MayLose(m, p))
    ensures var m' := Unmapped(m, p, lost);
      && m'.fate.stranded == m.fate.stranded && |m'.fate.leaked| + ReleasedWith(m, p) == |m.fate.leaked|
      && m'.allocs == m.allocs
      && (p in m'.fate.homeless <==> p in m.fate.homeless || (p !in m.fate.homeless && p !in m'.st.reserved))
  {
    hide Accounted, UnloadedSt, UnloadedFate;
    UnloadedSame(m, p);
    UnloadedLeaks(m, p);
    if p !in m.fate.homeless { HasHome(m, p); }
  }

  lemma HasHome(m: Moment, p: nat)
    requires Accounted(m) && p in m.allocs && p !in m.fate.homeless
    ensures p in m.st.reserved && m.st.reserved[p] == m.allocs[p].size
  {
    assert EntryOk(m.st.reserved, m.allocs, m.fate, p);
  }

  lemma TrimmedCounts(m: Moment, m': Moment, p: nat, lost: bool)
    requires Accounted(m) && p in m.allocs && Trimmed(m, m', p, lost)
    ensures |m'.fate.stranded| == |m.fate.stranded| + OneIf(Strands(m, Trim(p), m'))
    ensures |m'.fate.leaked| + ReleasedWith(m, p) == |m.fate.leaked|
  {
    hide Accounted, Unmapped, MayLose;
    UnloadedSame(m, p);
    UnmappedCounts(m, p, lost);
    SetGrows(m.fate.stranded, m'.fate.stranded, p);
  }

  /** A wake with an error pending for which the driver has created a handle all the same. */
  predicate Leaks(m: Moment, op: Op, m': Moment) { StaleWake(m, op) && m'.st.handles != m.st.handles }

  function Released(m: Moment, op: Op): nat { if op.Malloc? || op.Wake? then 0 else ReleasedWith(m, op.ptr) }

  /** Stranded reservations and leaked handles grow by these operations only, one at a time. */
  lemma StepCounts(g: nat, m: Moment, op: Op, m': Moment)
    requires 0 < g && Accounted(m) && Follows(g, m, op, m')
    ensures |m'.fate.stranded| == |m.fate.stranded| + OneIf(Strands(m, op, m'))
    ensures Sound(m) ==> |m'.fate.leaked| + Released(m, op) == |m.fate.leaked| + OneIf(Leaks(m, op, m'))
  {
    hide Sound, Accounted, DriverOk, GivesBack, UnloadedSt, MayLose, RequestFits, IsNew, Loaded, Vacant, FreeError;
    hide Freed, Unmapped, Trimmed;
    match op
    case Malloc(size, setting) =>
      if m' != m && !Refused(m, m', size) { var d: nat :| Malloced(g, m, m', size, setting, d); }
    case Free(p, size) =>
      if p in m.allocs { FreedCounts(m, p, size); }
    case Sleep(p) =>
      if p in m.allocs && !m.allocs[p].asleep {
        var lost :| Slept(m, m', p, lost);
        UnmappedCounts(m, p, lost);
      }
    case Discard(p) =>
      if p in m.allocs && !m.allocs[p].asleep {
        var lost :| Discarded(m, m', p, lost);
        UnmappedCounts(m, p, lost);
      }
    case Trim(p) =>
      if p in m.allocs {
        var lost :| Trimmed(m, m', p, lost);
        TrimmedCounts(m, m', p, lost);
      }
    case Wake(p) =>
      if p in m.allocs && m.allocs[p].asleep && m.errorCode != 0 && m'.refusals == m.refusals {
        var h :| m' == Leaking(m, h, m.allocs[p].chunks[0]) && h !in m.st.handles;
        if Sound(m) { NewIsNotLeaked(m, h); }
      }
  }

  lemma NewIsNotLeaked(m: Moment, h: nat)
    requires Sound(m) && h !in m.st.handles
    ensures h !in m.fate.leaked && |m.fate.leaked + {h}| == |m.fate.leaked| + 1
  {
  }

  /** How many operations of a run strand a reservation, and how many lose a handle. */
  ghost function Strandings(trace: seq<Moment>, ops: seq<Op>, n: nat): nat
    requires n <= |ops| < |trace|
  {
    if n == 0 then 0 else Strandings(trace, ops, n - 1) + OneIf(Strands(trace[n - 1], ops[n - 1], trace[n]))
  }

  function LeakCount(trace: seq<Moment>, ops: seq<Op>, n: nat): nat
    requires n <= |ops| < |trace|
  {
    if n == 0 then 0 else LeakCount(trace, ops, n - 1) + OneIf(Leaks(trace[n - 1], ops[n - 1], trace[n]))
  }

  /** How many lost handles a run releases together with dead entries. */
  function ReleaseCount(trace: seq<Moment>, ops: seq<Op>, n: nat): nat
    requires n <= |ops| < |trace|
  {
    if n == 0 then 0 else ReleaseCount(trace, ops, n - 1) + Released(trace[n - 1], ops[n - 1])
  }

  /** Over any run one more stranded reservation per stranding; up to a wild operation, one handle per leak. */
  lemma {:induction false} RunCounts(g: nat, trace: seq<Moment>, ops: seq<Op>, n: nat)
    requires 0 < g && IsRun(g, trace, ops) && Sound(trace[0]) && n <= |ops|
    ensures |trace[n].fate.stranded| == |trace[0].fate.stranded| + Strandings(trace, ops, n)
    ensures TameUpTo(trace, ops, n) ==>
      |trace[n].fate.leaked| + ReleaseCount(trace, ops, n) == |trace[0].fate.leaked| + LeakCount(trace, ops, n)
  {
    hide Sound, Accounted, Follows, Wild, Strands, Leaks, Released;
    if n > 0 {
      SoundIsAccounted(trace[0]);
      RunCounts(g, trace, ops, n - 1);
      RunsAccount(g, trace, ops, n - 1);
      RunsKeep(g, trace, ops, n - 1);
      StepCounts(g, trace[n - 1], ops[n - 1], trace[n]);
    }
  }

  // ---------------------------------------------------------------- exactly which operations

  lemma UnloadedDriver(m: Moment, p: nat)
    requires DriverOk(m.st) && p in m.allocs
    ensures DriverOk(UnloadedSt(m, p))
  {
    hide UnmapAll, MappingsOk, ReservationsOk, Found;
    var a := m.allocs[p];
    forall x | x in UnmapAll(m.st.mapped, p, a.chunks, |a.chunks|)
      ensures x in m.st.mapped && UnmapAll(m.st.mapped, p, a.chunks, |a.chunks|)[x] == m.st.mapped[x]
    {
      UnmapAllOfOthers(m.st.mapped, p, a.chunks, |a.chunks|, x);
    }
    FewerMappings(m.st.reserved, m.st.mapped, UnmapAll(m.st.mapped, p, a.chunks, |a.chunks|));
  }

  lemma UnreservedDriver(m: Moment, p: nat, size: nat)
    requires DriverOk(m.st) && GivesBack(m.st, p, size)
    ensures DriverOk(Unreserved(m, p).st)
  {
    FreeingKeepsMappings(m.st.reserved, m.st.mapped, p);
  }

  /** A free always has its outcome. */
  lemma FreeHappens(g: nat, m: Moment, p: nat, size: nat) returns (m': Moment)
    requires 0 < g && DriverOk(m.st) && p in m.allocs
    ensures Follows(g, m, Free(p, size), m') && m' == Freed(m, p, size).(errorCode := m'.errorCode)
  {
    hide DriverOk, GivesBack, UnloadedSt, UnloadedFate, Unloadable;
    UnloadedDriver(m, p);
    var u := Unloaded(m, p);
    if GivesBack(u.st, p, size) { UnreservedDriver(u, p, size); }
    var clean := GivesBack(u.st, p, size) && Unloadable(m, p);
    m' := Freed(m, p, size).(errorCode := if clean then m.errorCode else 1);
  }

  /** Unloading may always go without the address getting lost. */
  lemma UnmappingHappens(g: nat, m: Moment, op: Op) returns (m': Moment)
    requires 0 < g && DriverOk(m.st) && (op.Sleep? || op.Discard? || op.Trim?) && op.ptr in m.allocs
    ensures Follows(g, m, op, m') && (op.Trim? ==> m' == Erased(Unmapped(m, op.ptr, false), op.ptr))
  {
    hide DriverOk, UnloadedSt, UnloadedFate, MayLose;
    var p := op.ptr;
    UnloadedDriver(m, p);
    var u := Unmapped(m, p, false);
    match op
    case Sleep(_) =>
      m' := if m.allocs[p].asleep then m else MarkedAsleep(u, p);
      assert !m.allocs[p].asleep ==> Slept(m, m', p, false);
    case Discard(_) =>
      m' := if m.allocs[p].asleep then m else if MayLose(m, p) then MarkedAsleep(u, p) else u;
      assert !m.allocs[p].asleep ==> Discarded(m, m', p, false);
    case Trim(_) =>
      m' := Erased(u, p);
      assert Trimmed(m, m', p, false);
  }

  /** An operation strands no reservation, whatever the driver does, exactly if it may not strand one. */
  lemma NothingStranded(g: nat, m: Moment, op: Op)
    requires 0 < g && Accounted(m)
    ensures (forall m' | Follows(g, m, op, m') :: |m'.fate.stranded| == |m.fate.stranded|) <==> !MayStrand(m, op)
  {
    hide Follows, Accounted, MayStrand, GivesBack, UnloadedSt, Unmapped, Freed;
    if MayStrand(m, op) {
      var m' := StrandingHappens(g, m, op);
    } else {
      forall m' | Follows(g, m, op, m')
        ensures |m'.fate.stranded| == |m.fate.stranded|
      {
        StepCounts(g, m, op, m');
      }
    }
  }

  lemma StrandingHappens(g: nat, m: Moment, op: Op) returns (m': Moment)
    requires 0 < g && Accounted(m) && MayStrand(m, op)
    ensures Follows(g, m, op, m') && |m'.fate.stranded| == |m.fate.stranded| + 1
  {
    hide Follows, Freed, GivesBack, UnloadedSt, UnloadedFate, RangesKnown, DriverOk;
    if op.Free? {
      m' := FreeHappens(g, m, op.ptr, op.size);
    } else {
      m' := UnmappingHappens(g, m, op);
      HasHome(m, op.ptr);
      UnloadedSame(m, op.ptr);
    }
    StepCounts(g, m, op, m');
  }

  lemma FirstChunk(m: Moment, p: nat)
    requires Accounted(m) && p in m.allocs
    ensures 0 < |m.allocs[p].chunks|
  {
    assert EntryOk(m.st.reserved, m.allocs, m.fate, p);
  }

  /** It loses no handle, whatever the driver does, exactly if it is not a wake with an error pending. */
  lemma NothingLeaked(g: nat, m: Moment, op: Op)
    requires 0 < g && Sound(m)
    ensures (forall m' | Follows(g, m, op, m') :: |m'.fate.leaked| <= |m.fate.leaked|) <==> !StaleWake(m, op)
  {
    hide Follows, Sound, Accounted;
    SoundIsAccounted(m);
    if StaleWake(m, op) {
      var m' := LeakHappens(g, m, op);
    } else {
      forall m' | Follows(g, m, op, m')
        ensures |m'.fate.leaked| <= |m.fate.leaked|
      {
        StepCounts(g, m, op, m');
      }
    }
  }

  lemma LeakHappens(g: nat, m: Moment, op: Op) returns (m': Moment)
    requires 0 < g && Sound(m) && StaleWake(m, op)
    ensures Follows(g, m, op, m') && |m'.fate.leaked| == |m.fate.leaked| + 1
  {
    hide Consistent, ReservationsOk, MappingsOk;
    SoundIsAccounted(m);
    FirstChunk(m, op.ptr);
    var h := AboveAll(m.st.handles.Keys);
    NewIsNotLeaked(m, h);
    m' := Leaking(m, h, m.allocs[op.ptr].chunks[0]);
    assert Woken(m, m', op.ptr);
  }
}
