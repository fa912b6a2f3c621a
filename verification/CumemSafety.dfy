/** What every run of the allocator keeps, and exactly which operations end it. */
module CumemSafety {
  import opened Arith
  import opened Chunks
  import opened CumemDriver
  import opened CumemState
  import opened CumemMeaning
  import opened CumemRuns
  import opened Partition
  import opened Wrappers

  // ---------------------------------------------------------------- consistency, operation by operation

  lemma FewerMappings(reserved: map<nat, nat>, mapped: map<nat, Mapping>, fewer: map<nat, Mapping>)
    requires MappingsOk(reserved, mapped) && forall x | x in fewer :: x in mapped && fewer[x] == mapped[x]
    ensures MappingsOk(reserved, fewer)
  {
    hide RangeReserved;
  }

  lemma StrippedLive(m: Moment, p: nat)
    requires Sound(m) && Live(m.allocs, m.fate, p)
    ensures var a := m.allocs[p];
      Stripped(m.st, p, a) == m.st.(handles := m.st.handles - Handles(a).Keys, mapped := m.st.mapped - Maps(p, a).Keys)
  {
    hide Consistent, DriverOk, UnmapAll, Handles, Maps, ShapeOk;
    LiveHeld(m.st, m.allocs, m.fate, p);
    UnmapAllOfOwn(m.st.mapped, p, m.allocs[p]);
    HandleKeys(m.allocs[p]);
  }

  /** Taking the chunks of an entry back keeps consistency, if the entry is not dead or its chunks hit nothing. */
  lemma UnloadedKeeps(m: Moment, p: nat)
    requires Sound(m) && p in m.allocs && Tame(m, p)
    ensures Sound(Unloaded(m, p)) && !Live(m.allocs, UnloadedFate(m, p), p)
    ensures Live(m.allocs, m.fate, p) ==> RangeUnmapped(UnloadedSt(m, p).mapped, p, m.allocs[p].size)
  {
    hide Consistent, UnmapAll, Handles, Maps, Harmless;
    if Live(m.allocs, m.fate, p) {
      Unload(m.st, m.allocs, m.fate, p);
      StrippedLive(m, p);
      OwnRange(m.st, m.allocs, m.fate, p);
      FewerMappings(m.st.reserved, m.st.mapped, UnloadedSt(m, p).mapped);
    } else if IsDead(m, p) {
      DeadUnloading(m, p);
    }
  }

  lemma ErasedKeeps(m: Moment, p: nat)
    requires Sound(m) && p in m.allocs && !Live(m.allocs, m.fate, p)
    ensures Sound(Erased(m, p))
  {
    hide Consistent;
    Forget(m.st, m.allocs, m.fate, p);
  }

  lemma UnreservedKeeps(m: Moment, p: nat)
    requires Sound(m) && p in m.allocs && !Live(m.allocs, m.fate, p)
    requires p in m.st.reserved && GivesBack(m.st, p, m.st.reserved[p])
    ensures Sound(Unreserved(m, p))
  {
    hide Consistent;
    LoseHome(m.st, m.allocs, m.fate, p);
    FreeingKeepsMappings(m.st.reserved, m.st.mapped, p);
  }

  lemma FreedKeeps(m: Moment, p: nat, size: nat)
    requires Sound(m) && p in m.allocs && Tame(m, p)
    ensures Sound(Freed(m, p, size))
  {
    hide Sound, UnloadedSt, UnloadedFate, Tame;
    UnloadedKeeps(m, p);
    var u := Unloaded(m, p);
    if GivesBack(u.st, p, size) {
      UnreservedKeeps(u, p);
      ErasedKeeps(Unreserved(u, p), p);
    } else {
      ErasedKeeps(u, p);
    }
  }

  lemma UnmappedKeeps(m: Moment, p: nat, lost: bool)
    requires Sound(m) && p in m.allocs && Tame(m, p) && (lost ==> MayLose(m, p))
    ensures Sound(Unmapped(m, p, lost)) && !Live(m.allocs, Unmapped(m, p, lost).fate, p)
  {
    hide Consistent, DriverOk, UnloadedSt, UnloadedFate, Tame;
    UnloadedKeeps(m, p);
    var u := Unloaded(m, p).(errorCode := 0, refusals := m.refusals + OneIf(lost));
    if lost { UnreservedKeeps(u, p); }
  }

  lemma MarkedKeeps(m: Moment, p: nat)
    requires Sound(m) && p in m.allocs && p in m.fate.dead
    ensures Sound(MarkedAsleep(m, p))
  {
    hide Consistent;
    MarkAsleep(m.st, m.allocs, m.fate, p);
  }

  lemma MallocedKeeps(g: nat, m: Moment, m': Moment, op: Op, d: nat)
    requires 0 < g && Sound(m) && DriverOk(m'.st) && op.Malloc? && Malloced(g, m, m', op.size, op.chunkSetting, d)
    ensures Sound(m')
  {
    hide Consistent, Handles, Maps, NoRepeats, ShapeOk, IsNew, ReservationsOk, MappingsOk, RangeFree, Live;
    var a := m'.allocs[d];
    FreshAddress(m, d, a);
    assert IsNew(a, op.size, op.chunkSetting, g);
    NewIsAwake(g, a, op);
    if m'.errorCode != 0 {
      EnterFailed(m.st, m.allocs, m.fate, d, a);
    } else {
      var asleep := a.(asleep := true);
      AsleepShape(a);
      Enter(m.st, m.allocs, m.fate, d, asleep);
      var st := m.st.(reserved := m.st.reserved[d := a.size]);
      CumemState.Wake(st, m.allocs[d := asleep], m'.fate, d, a);
      assert m.allocs[d := asleep][d := a] == m'.allocs;
      assert m'.st == st.(handles := st.handles + Handles(a), mapped := st.mapped + Maps(d, a));
    }
  }

  /** A range that is free belongs to no live allocation. */
  lemma FreshAddress(m: Moment, d: nat, a: Allocation)
    requires Sound(m) && ShapeOk(a) && RangeFree(m.st.reserved, d, a.size)
    ensures !Live(m.allocs, m.fate, d)
  {
    hide Consistent;
    if Live(m.allocs, m.fate, d) { LiveIsReserved(m.st, m.allocs, m.fate, d); }
  }

  lemma AsleepShape(a: Allocation)
    requires ShapeOk(a)
    ensures ShapeOk(a.(asleep := true))
  {
  }

  lemma NewIsAwake(g: nat, a: Allocation, op: Op)
    requires 0 < g && op.Malloc? && IsNew(a, op.size, op.chunkSetting, g)
    ensures !a.asleep
  {
  }

  lemma WokenShape(m: Moment, p: nat, a: Allocation)
    requires Sound(m) && p in m.allocs && a == m.allocs[p].(cells := a.cells, asleep := false)
    requires |a.cells| == |a.chunks|
    ensures ShapeOk(a) && a.size == m.allocs[p].size
  {
    assert EntryOk(m.st.reserved, m.allocs, m.fate, p);
  }

  lemma WokenKeeps(m: Moment, m': Moment, p: nat)
    requires Sound(m) && DriverOk(m'.st) && p in m.allocs && m.allocs[p].asleep && Woken(m, m', p)
    ensures Sound(m')
  {
    hide Consistent, Handles, Maps, NoRepeats, ShapeOk, ReservationsOk, MappingsOk, Vacant;
    if m' == m.(errorCode := 0, refusals := m'.refusals) {
    } else if m.errorCode == 0 {
      var a := m'.allocs[p];
      WokenShape(m, p, a);
      CumemState.Wake(m.st, m.allocs, m.fate, p, a);
      assert m'.st == m.st.(handles := m.st.handles + Handles(a), mapped := m.st.mapped + Maps(p, a));
    } else {
      var h :| m' == Leaking(m, h, m.allocs[p].chunks[0]) && h !in m.st.handles;
      Leak(m.st, m.allocs, m.fate, h, m.allocs[p].chunks[0]);
    }
  }

  /** Every operation keeps the driver and the registry consistent, unless it is wild. */
  lemma FollowsKeeps(g: nat, m: Moment, op: Op, m': Moment)
    requires 0 < g && Sound(m) && Follows(g, m, op, m') && !Wild(m, op)
    ensures Sound(m')
  {
    hide Consistent, DriverOk, RequestFits, Malloced, Freed, Unmapped, Woken, MarkedAsleep, Erased, Tame, MayLose;
    match op
    case Malloc(size, setting) =>
      if RequestFits(size, setting, g) && !Refused(m, m', size) {
        var d: nat :| Malloced(g, m, m', size, setting, d);
        MallocedKeeps(g, m, m', op, d);
      }
    case Free(p, size) =>
      if p in m.allocs { FreedKeeps(m, p, size); }
    case Sleep(p) =>
      if p in m.allocs && !m.allocs[p].asleep {
        var lost :| Slept(m, m', p, lost);
        SleptKeeps(m, p, lost);
      }
    case Discard(p) =>
      if p in m.allocs && !m.allocs[p].asleep {
        var lost :| Discarded(m, m', p, lost);
        SleptKeeps(m, p, lost);
      }
    case Trim(p) =>
      if p in m.allocs {
        var lost :| Trimmed(m, m', p, lost);
        UnmappedKeeps(m, p, lost);
        SameRegistry(m, p, lost);
        ErasedKeeps(Unmapped(m, p, lost), p);
      }
    case Wake(p) =>
      if p in m.allocs && m.allocs[p].asleep { WokenKeeps(m, m', p); }
  }

  lemma SameRegistry(m: Moment, p: nat, lost: bool)
    requires p in m.allocs
    ensures Unmapped(m, p, lost).allocs == m.allocs
    ensures !m.allocs[p].asleep && (p in m.fate.dead || Live(m.allocs, m.fate, p)) ==>
      p in Unmapped(m, p, lost).fate.dead
  {
  }

  lemma SleptKeeps(m: Moment, p: nat, lost: bool)
    requires Sound(m) && p in m.allocs && Tame(m, p) && !m.allocs[p].asleep && (lost ==> MayLose(m, p))
    ensures Unmapped(m, p, lost).allocs == m.allocs && Sound(Unmapped(m, p, lost))
    ensures Sound(MarkedAsleep(Unmapped(m, p, lost), p))
  {
    hide Sound, Unmapped, MarkedAsleep, Tame, MayLose;
    UnmappedKeeps(m, p, lost);
    SameRegistry(m, p, lost);
    MarkedKeeps(Unmapped(m, p, lost), p);
  }

  // ---------------------------------------------------------------- wild operations

  /** What a wild operation takes away is still registered as somebody's, who is live. */
  lemma WildBreaks(g: nat, m: Moment, op: Op, m': Moment) returns (q: nat)
    requires 0 < g && Sound(m) && Follows(g, m, op, m') && Wild(m, op)
    ensures q in m.allocs && q in m'.allocs && m'.allocs[q] == m.allocs[q]
    ensures Live(m'.allocs, m'.fate, q) && Robbed(m'.st, q, m'.allocs[q]) && !Sound(m')
  {
    hide Sound, DriverOk, Harmless, Robbed, MayLose, GivesBack, FreeError;
    var p := op.ptr;
    q := WildHits(m, p);
    UnmappedOthers(m, p, q);
    if op.Sleep? { var lost :| Slept(m, m', p, lost); }
    if op.Discard? { var lost :| Discarded(m, m', p, lost); }
    if op.Trim? { var lost :| Trimmed(m, m', p, lost); }
    assert m'.allocs[q] == m.allocs[q] && Live(m'.allocs, m'.fate, q);
    RobbedStays(Stripped(m.st, p, m.allocs[p]), m'.st, q, m.allocs[q]);
    RobbedIsUnsound(m', q);
  }

  lemma UnmappedOthers(m: Moment, p: nat, q: nat)
    requires p in m.allocs && q in m.allocs && q != p
    ensures Live(m.allocs, m.fate, q) ==> Live(m.allocs, UnloadedFate(m, p), q)
  {
  }

  lemma RobbedStays(st: DriverState, st': DriverState, q: nat, a: Allocation)
    requires Robbed(st, q, a) && st'.mapped == st.mapped && st'.handles == st.handles
    ensures Robbed(st', q, a)
  {
  }

  lemma RobbedIsUnsound(m: Moment, q: nat)
    requires Live(m.allocs, m.fate, q) && Robbed(m.st, q, m.allocs[q])
    ensures !Sound(m)
  {
    RobbedIsInconsistent(m.st, m.allocs, m.fate, q);
  }

  /** Driver and registry stay consistent exactly if the operation is not wild, whatever fails in it. */
  lemma SoundUnlessWild(g: nat, m: Moment, op: Op, m': Moment)
    requires 0 < g && Sound(m) && Follows(g, m, op, m')
    ensures Sound(m') <==> !Wild(m, op)
  {
    hide Sound, Follows, Wild;
    if Wild(m, op) { var q := WildBreaks(g, m, op, m'); } else { FollowsKeeps(g, m, op, m'); }
  }

  // ---------------------------------------------------------------- reservations, operation by operation

  lemma SoundIsAccounted(m: Moment)
    requires Sound(m)
    ensures Accounted(m)
  {
  }

  lemma UnloadedRanges(m: Moment, p: nat)
    requires RangesKnown(m) && p in m.allocs
    ensures RangesKnown(Unloaded(m, p))
  {
    hide ReservationsOk, ShapeOk, UnmapAll;
    assert EntryOk(m.st.reserved, m.allocs, m.fate, p);
  }

  lemma UnreservedRanges(m: Moment, p: nat)
    requires RangesKnown(m) && p in m.allocs && p in m.st.reserved
    ensures RangesKnown(Unreserved(m, p))
  {
    hide ShapeOk;
  }

  lemma ErasedRanges(m: Moment, p: nat)
    requires RangesKnown(m) && p in m.allocs
    ensures RangesKnown(Erased(m, p))
  {
    hide ReservationsOk, ShapeOk;
  }

  lemma MarkedRanges(m: Moment, p: nat)
    requires RangesKnown(m) && p in m.allocs
    ensures RangesKnown(MarkedAsleep(m, p))
  {
    hide ReservationsOk;
    assert EntryOk(m.st.reserved, m.allocs, m.fate, p);
  }

  lemma MallocedRanges(g: nat, m: Moment, m': Moment, size: nat, chunkSetting: Option<nat>, d: nat)
    requires 0 < g && RangesKnown(m) && DriverOk(m'.st) && Malloced(g, m, m', size, chunkSetting, d)
    ensures RangesKnown(m')
  {
    hide ReservationsOk, MappingsOk, ShapeOk, Handles, Maps, RangeFree;
    NewIsAwake(g, m'.allocs[d], Malloc(size, chunkSetting));
  }

  lemma WokenRanges(m: Moment, m': Moment, p: nat)
    requires RangesKnown(m) && p in m.allocs && m.allocs[p].asleep && Woken(m, m', p)
    ensures RangesKnown(m')
  {
    hide ReservationsOk, Handles, Maps, Vacant;
    assert EntryOk(m.st.reserved, m.allocs, m.fate, p);
  }

  lemma FreedRanges(m: Moment, p: nat, size: nat)
    requires RangesKnown(m) && p in m.allocs
    ensures RangesKnown(Freed(m, p, size))
  {
    hide RangesKnown, UnloadedSt, UnloadedFate;
    UnloadedRanges(m, p);
    var u := Unloaded(m, p);
    if GivesBack(u.st, p, size) {
      UnreservedRanges(u, p);
      ErasedRanges(Unreserved(u, p), p);
    } else {
      ErasedRanges(u, p);
    }
  }

  lemma UnmappedRanges(m: Moment, p: nat, lost: bool)
    requires RangesKnown(m) && p in m.allocs && (lost ==> MayLose(m, p))
    ensures RangesKnown(Unmapped(m, p, lost)) && Unmapped(m, p, lost).allocs == m.allocs
    ensures RangesKnown(MarkedAsleep(Unmapped(m, p, lost), p)) && RangesKnown(Erased(Unmapped(m, p, lost), p))
  {
    hide RangesKnown, UnloadedSt, UnloadedFate;
    UnloadedRanges(m, p);
    var u := Unloaded(m, p).(errorCode := 0, refusals := m.refusals + OneIf(lost));
    SameRanges(Unloaded(m, p), u);
    if lost { UnreservedRanges(u, p); }
    MarkedRanges(Unmapped(m, p, lost), p);
    ErasedRanges(Unmapped(m, p, lost), p);
  }

  lemma SameRanges(m: Moment, m': Moment)
    requires RangesKnown(m) && m' == m.(errorCode := m'.errorCode, refusals := m'.refusals)
    ensures RangesKnown(m')
  {
  }

  /** Whatever happens, wild operations included, every reservation stays accounted for. */
  lemma FollowsAccounts(g: nat, m: Moment, op: Op, m': Moment)
    requires 0 < g && Accounted(m) && Follows(g, m, op, m')
    ensures Accounted(m')
  {
    hide RangesKnown, DriverOk, RequestFits, Malloced, Freed, Unmapped, Woken, MarkedAsleep, Erased, MayLose;
    match op
    case Malloc(size, setting) =>
      if m' == m {
      } else if Refused(m, m', size) {
        SameRanges(m, m');
      } else {
        var d: nat :| Malloced(g, m, m', size, setting, d);
        MallocedRanges(g, m, m', size, setting, d);
      }
    case Free(p, size) =>
      if p in m.allocs {
        FreedRanges(m, p, size);
        SameRanges(Freed(m, p, size), m');
      }
    case Sleep(p) =>
      if p in m.allocs && !m.allocs[p].asleep {
        var lost :| Slept(m, m', p, lost);
        UnmappedRanges(m, p, lost);
      }
    case Discard(p) =>
      if p in m.allocs && !m.allocs[p].asleep {
        var lost :| Discarded(m, m', p, lost);
        UnmappedRanges(m, p, lost);
      }
    case Trim(p) =>
      if p in m.allocs {
        var lost :| Trimmed(m, m', p, lost);
        UnmappedRanges(m, p, lost);
      }
    case Wake(p) =>
      if p in m.allocs && m.allocs[p].asleep { WokenRanges(m, m', p); }
  }

  // ---------------------------------------------------------------- runs

  /** The moments before and after each operation of a run. */
  ghost predicate IsRun(g: nat, trace: seq<Moment>, ops: seq<Op>)
    requires 0 < g
  {
    && |trace| == |ops| + 1
    && forall k | 0 <= k < |ops| :: Follows(g, trace[k], ops[k], trace[k + 1])
  }

  ghost predicate SoundUpTo(trace: seq<Moment>, n: nat)
    requires n < |trace|
  {
    forall k | 0 <= k <= n :: Sound(trace[k])
  }

  predicate TameUpTo(trace: seq<Moment>, ops: seq<Op>, n: nat)
    requires n <= |ops| < |trace|
  {
    forall k | 0 <= k < n :: !Wild(trace[k], ops[k])
  }

  /** The moments of a run are consistent exactly up to its first wild operation, whatever fails on the way. */
  lemma {:induction false} RunsKeep(g: nat, trace: seq<Moment>, ops: seq<Op>, n: nat)
    requires 0 < g && IsRun(g, trace, ops) && Sound(trace[0]) && n <= |ops|
    ensures SoundUpTo(trace, n) <==> TameUpTo(trace, ops, n)
  {
    hide Sound, Follows, Wild;
    if n > 0 {
      RunsKeep(g, trace, ops, n - 1);
      assert SoundUpTo(trace, n) <==> SoundUpTo(trace, n - 1) && Sound(trace[n]);
      assert TameUpTo(trace, ops, n) <==> TameUpTo(trace, ops, n - 1) && !Wild(trace[n - 1], ops[n - 1]);
      if SoundUpTo(trace, n - 1) { SoundUnlessWild(g, trace[n - 1], ops[n - 1], trace[n]); }
    }
  }

  lemma {:induction false} RunsAccount(g: nat, trace: seq<Moment>, ops: seq<Op>, n: nat)
    requires 0 < g && IsRun(g, trace, ops) && Accounted(trace[0]) && n <= |ops|
    ensures Accounted(trace[n])
  {
    hide Accounted, Follows;
    if n > 0 {
      RunsAccount(g, trace, ops, n - 1);
      FollowsAccounts(g, trace[n - 1], ops[n - 1], trace[n]);
    }
  }
}
