/** Exactly which operations put an allocation into the addresses of another, and which runs stay clean. */
module CumemClean {
  import opened Arith
  import opened Chunks
  import opened CumemDriver
  import opened CumemState
  import opened CumemMeaning
  import opened CumemRuns
  import opened CumemSafety
  import opened CumemCounts
  import opened Partition

  // ---------------------------------------------------------------- squatters

  /** Waking up an address that was lost, where every chunk happens to lie in reserved, unmapped addresses. */
  predicate Trespass(m: Moment, op: Op) {
    && op.Wake? && op.ptr in m.allocs && m.allocs[op.ptr].asleep && op.ptr in m.fate.homeless
    && m.errorCode == 0 && Vacant(m.st, op.ptr, m.allocs[op.ptr].chunks)
  }

  lemma HomelessAreQuiet(m: Moment, p: nat, q: nat)
    requires Sound(m) && NoSquatters(m.allocs, m.fate) && p in m.allocs
    ensures UnloadedFate(m, p).homeless == m.fate.homeless
    ensures q in m.fate.homeless && q in m.allocs && q != p ==> m.allocs[q].asleep || q in UnloadedFate(m, p).dead
    ensures m.allocs[p].asleep || p in UnloadedFate(m, p).dead
  {
    assert q in m.fate.homeless ==> !Live(m.allocs, m.fate, q);
  }

  /** Where there is no squatter, only such a wake makes one. */
  lemma SquattersTrespass(g: nat, m: Moment, op: Op, m': Moment)
    requires 0 < g && Sound(m) && Follows(g, m, op, m') && NoSquatters(m.allocs, m.fate) && !Trespass(m, op)
    ensures NoSquatters(m'.allocs, m'.fate)
  {
    hide Consistent, DriverOk, GivesBack, UnloadedSt, UnloadedFate, MayLose, RequestFits, IsNew, Loaded, FreeError;
    if op.Malloc? && m' != m && !Refused(m, m', op.size) {
      var d: nat :| Malloced(g, m, m', op.size, op.chunkSetting, d);
    }
    forall q | q in m'.fate.homeless
      ensures !Live(m'.allocs, m'.fate, q)
    {
      assert q in m.fate.homeless ==> !Live(m.allocs, m.fate, q);
      if !op.Malloc? && op.ptr in m.allocs { HomelessAreQuiet(m, op.ptr, q); }
    }
  }

  /** The driver, when the first `j` chunks of an entry have been mapped. */
  ghost function MappedUpTo(st: DriverState, p: nat, a: Allocation, j: nat): DriverState
    requires j <= |a.chunks| == |a.cells|
  {
    st.(handles := st.handles + Handles(a), mapped := st.mapped + MapPart(p, a.chunks, a.cells, j))
  }

  ghost predicate Mappable(st: DriverState, p: nat, a: Allocation, j: nat)
    requires j < |a.chunks| == |a.cells|
  {
    MayMap(MappedUpTo(st, p, a, j), p + Offset(a.chunks, j), a.chunks[j], a.cells[j])
  }

  lemma {:induction false} MappableIsVacant(st: DriverState, p: nat, a: Allocation, n: nat)
    requires ShapeOk(a) && MappingsOk(st.reserved, st.mapped) && n <= |a.chunks|
    requires forall j | 0 <= j < n :: Mappable(st, p, a, j)
    ensures MapPart(p, a.chunks, a.cells, n).Keys !! st.mapped.Keys
    ensures forall j | 0 <= j < n ::
      && RangeReserved(st.reserved, p + Offset(a.chunks, j), a.chunks[j])
      && RangeUnmapped(st.mapped, p + Offset(a.chunks, j), a.chunks[j])
  {
    hide Handles, Offset, RangeReserved, RangeUnmapped, Mappable, MappingsOk;
    if n > 0 {
      MappableIsVacant(st, p, a, n - 1);
      PlaceIsVacant(st, p, a, n - 1);
      var addr := p + Offset(a.chunks, n - 1);
      assert MapPart(p, a.chunks, a.cells, n).Keys == MapPart(p, a.chunks, a.cells, n - 1).Keys + {addr};
    }
  }

  lemma {:induction false} PlaceIsVacant(st: DriverState, p: nat, a: Allocation, j: nat)
    requires ShapeOk(a) && MappingsOk(st.reserved, st.mapped) && j < |a.chunks| && Mappable(st, p, a, j)
    requires MapPart(p, a.chunks, a.cells, j).Keys !! st.mapped.Keys
    ensures var addr := p + Offset(a.chunks, j);
      && RangeReserved(st.reserved, addr, a.chunks[j]) && RangeUnmapped(st.mapped, addr, a.chunks[j])
      && addr !in st.mapped
  {
    hide Handles, Offset, RangeReserved, MapPart;
    var mapped, addr := st.mapped + MapPart(p, a.chunks, a.cells, j), p + Offset(a.chunks, j);
    forall b | b in st.mapped
      ensures b + st.mapped[b].size <= addr || addr + a.chunks[j] <= b
    {
      assert b in mapped && mapped[b] == st.mapped[b];
    }
  }

  lemma VacantIsMappable(st: DriverState, p: nat, a: Allocation, j: nat)
    requires ShapeOk(a) && NoRepeats(a.cells) && j < |a.chunks| && Vacant(st, p, a.chunks)
    ensures Mappable(st, p, a, j)
  {
    hide Handles, MapPart, Offset, RangeReserved;
    ChunkHandle(a, j);
    MapPartRange(p, a.chunks, a.cells, j);
  }

  /** The driver lets each chunk be mapped in turn exactly when all the places are vacant. */
  lemma MappableIfVacant(st: DriverState, p: nat, a: Allocation)
    requires ShapeOk(a) && NoRepeats(a.cells) && MappingsOk(st.reserved, st.mapped)
    ensures Vacant(st, p, a.chunks) <==> forall j | 0 <= j < |a.chunks| :: Mappable(st, p, a, j)
  {
    hide Mappable, RangeReserved, RangeUnmapped, Offset, MappingsOk, NoRepeats;
    if Vacant(st, p, a.chunks) {
      forall j | 0 <= j < |a.chunks|
        ensures Mappable(st, p, a, j)
      {
        VacantIsMappable(st, p, a, j);
      }
    }
    if forall j | 0 <= j < |a.chunks| :: Mappable(st, p, a, j) { MappableIsVacant(st, p, a, |a.chunks|); }
  }

  /** The moment after a wake that succeeds, with new handles numbered from `bound`. */
  ghost function Awoken(m: Moment, p: nat, bound: nat): Moment
    requires p in m.allocs
  {
    var a := m.allocs[p].(cells := seq(|m.allocs[p].chunks|, k => bound + k), asleep := false);
    var st := m.st.(handles := m.st.handles + Handles(a), mapped := m.st.mapped + Maps(p, a));
    m.(st := st, errorCode := 0, allocs := m.allocs[p := a])
  }

  lemma NewHandles(handles: map<nat, nat>, a: Allocation, bound: nat)
    requires (forall h | h in handles :: h < bound) && a.cells == seq(|a.chunks|, k => bound + k)
    ensures NoRepeats(a.cells) && Handles(a).Keys !! handles.Keys
  {
    HandlePartKeys(a.chunks, a.cells, |a.chunks|);
    assert forall h | h in a.cells[..|a.chunks|] :: h >= bound;
  }

  lemma NewPlace(st: DriverState, p: nat, a: Allocation, x: nat) returns (j: nat)
    requires ShapeOk(a) && Vacant(st, p, a.chunks) && x in Maps(p, a)
    ensures j < |a.chunks| && IsChunk(p, a, x, j) && 0 < a.chunks[j]
    ensures RangeReserved(st.reserved, x, a.chunks[j]) && RangeUnmapped(st.mapped, x, a.chunks[j])
  {
    hide Maps, Offset, RangeReserved, RangeUnmapped;
    j := ChunkOfKey(p, a, x);
    ChunkMapped(p, a, j);
  }

  lemma NewMappings(st: DriverState, p: nat, a: Allocation)
    requires MappingsOk(st.reserved, st.mapped) && ShapeOk(a) && Vacant(st, p, a.chunks)
    ensures Maps(p, a).Keys !! st.mapped.Keys && MappingsOk(st.reserved, st.mapped + Maps(p, a))
  {
    hide Maps, Offset, RangeReserved, Vacant, ShapeOk, Positive;
    forall x | x in Maps(p, a)
      ensures 0 < Maps(p, a)[x].size && RangeReserved(st.reserved, x, Maps(p, a)[x].size)
      ensures RangeUnmapped(st.mapped, x, Maps(p, a)[x].size)
    {
      var j := NewPlace(st, p, a, x);
    }
    forall x, y | x in Maps(p, a) && y in Maps(p, a) && x != y
      ensures x + Maps(p, a)[x].size <= y || y + Maps(p, a)[y].size <= x
    {
      var i := NewPlace(st, p, a, x);
      var j := NewPlace(st, p, a, y);
      ChunksApart(a, i, j);
    }
  }

  lemma {:induction false} ChunksApart(a: Allocation, i: nat, j: nat)
    requires ShapeOk(a) && i < |a.chunks| && j < |a.chunks| && i != j
    ensures Offset(a.chunks, i) + a.chunks[i] <= Offset(a.chunks, j)
         || Offset(a.chunks, j) + a.chunks[j] <= Offset(a.chunks, i)
  {
    hide Offset;
    if i < j { OffsetIncreases(a.chunks, i, j); } else { OffsetIncreases(a.chunks, j, i); }
  }

  ghost predicate IsChunk(p: nat, a: Allocation, x: nat, j: nat)
    requires ShapeOk(a) && j < |a.chunks| && x in Maps(p, a)
  {
    x == p + Offset(a.chunks, j) && Maps(p, a)[x].size == a.chunks[j]
  }

  lemma AwokenFollows(g: nat, m: Moment, p: nat, bound: nat)
    requires 0 < g && Sound(m) && Trespass(m, Wake(p)) && forall h | h in m.st.handles :: h < bound
    ensures Follows(g, m, Wake(p), Awoken(m, p, bound))
      && Squats(m.allocs[p := Awoken(m, p, bound).allocs[p]], m.fate, p)
  {
    hide Consistent, Handles, Maps, ReservationsOk, MappingsOk, NoRepeats, Vacant, ShapeOk;
    var a := Awoken(m, p, bound).allocs[p];
    WokenShape(m, p, a);
    NewHandles(m.st.handles, a, bound);
    NewMappings(m.st, p, a);
    QuietIsNotDead(m, p);
  }

  lemma QuietIsNotDead(m: Moment, p: nat)
    requires Sound(m) && p in m.allocs && m.allocs[p].asleep
    ensures p !in m.fate.dead
  {
    assert EntryOk(m.st.reserved, m.allocs, m.fate, p);
  }

  /**
   An operation keeps squatters out, whatever the driver does, exactly when it is not the wake of a lost
   address whose chunks all lie in reserved addresses where nothing is mapped.
   */
  lemma SquattersStayOut(g: nat, m: Moment, op: Op)
    requires 0 < g && Sound(m) && NoSquatters(m.allocs, m.fate)
    ensures (forall m' | Follows(g, m, op, m') :: NoSquatters(m'.allocs, m'.fate)) <==> !Trespass(m, op)
  {
    hide Sound, Follows, Trespass, Live;
    if Trespass(m, op) {
      assert op == Wake(op.ptr) by { TrespassIsWake(m, op); }
      TrespassIsWake(m, op);
      var bound := AboveAll(m.st.handles.Keys);
      AwokenFollows(g, m, op.ptr, bound);
      var m' := Awoken(m, op.ptr, bound);
      assert Follows(g, m, op, m') && !NoSquatters(m'.allocs, m'.fate);
    } else {
      forall m' | Follows(g, m, op, m')
        ensures NoSquatters(m'.allocs, m'.fate)
      {
        SquattersTrespass(g, m, op, m');
      }
    }
  }

  lemma TrespassIsWake(m: Moment, op: Op)
    requires Trespass(m, op)
    ensures op.Wake? && op == Wake(op.ptr) && op.ptr in m.allocs && op.ptr in m.fate.homeless
  {
  }

  // ---------------------------------------------------------------- clean runs

  /** Nothing stranded, nothing leaked, nobody in anybody else's addresses. */
  ghost predicate Clean(m: Moment) { m.fate.stranded == {} && m.fate.leaked == {} && NoSquatters(m.allocs, m.fate) }

  /** What a caller would have to avoid. */
  ghost predicate Careless(m: Moment, op: Op) {
    Wild(m, op) || MayStrand(m, op) || StaleWake(m, op) || Trespass(m, op)
  }

  /** An operation keeps a clean state clean, whatever the driver does, exactly if it is not careless. */
  lemma StaysClean(g: nat, m: Moment, op: Op)
    requires 0 < g && Sound(m) && Clean(m)
    ensures (forall m' | Follows(g, m, op, m') :: Sound(m') && Clean(m')) <==> !Careless(m, op)
  {
    hide Sound, Accounted, Follows, Wild, MayStrand, StaleWake, Trespass, NoSquatters;
    SoundIsAccounted(m);
    NothingStranded(g, m, op);
    NothingLeaked(g, m, op);
    SquattersStayOut(g, m, op);
    if Wild(m, op) {
      var m' := WildHappens(g, m, op);
      SoundUnlessWild(g, m, op, m');
    }
    forall m' | Follows(g, m, op, m') && !Careless(m, op)
      ensures Sound(m') && Clean(m')
    {
      SoundUnlessWild(g, m, op, m');
      assert |m'.fate.stranded| == 0 && |m'.fate.leaked| == 0;
    }
  }

  lemma WildHappens(g: nat, m: Moment, op: Op) returns (m': Moment)
    requires 0 < g && Sound(m) && Wild(m, op)
    ensures Follows(g, m, op, m')
  {
    hide Consistent, Follows, Tame;
    if op.Free? { m' := FreeHappens(g, m, op.ptr, op.size); } else { m' := UnmappingHappens(g, m, op); }
  }

  /** A run without such operations stays clean, however often creating, mapping and reserving fails in it. */
  lemma {:induction false} CleanRuns(g: nat, trace: seq<Moment>, ops: seq<Op>, n: nat)
    requires 0 < g && IsRun(g, trace, ops) && Sound(trace[0]) && Clean(trace[0]) && n <= |ops|
    requires forall k | 0 <= k < n :: !Careless(trace[k], ops[k])
    ensures Sound(trace[n]) && Clean(trace[n])
  {
    hide Sound, Follows, Careless, Clean;
    if n > 0 {
      CleanRuns(g, trace, ops, n - 1);
      StaysClean(g, trace[n - 1], ops[n - 1]);
      assert Follows(g, trace[n - 1], ops[n - 1], trace[n]);
    }
  }

  /** In a clean state every reservation has its entry, and every live byte belongs to a live allocation. */
  lemma CleanMeans(m: Moment)
    requires Sound(m) && Clean(m)
    ensures m.st.reserved.Keys == m.allocs.Keys - m.fate.homeless
    ensures Sum(m.st.handles) == Sum(AwakeSizes(m.allocs, m.fate))
    ensures forall p | p in m.allocs && p !in m.fate.homeless && !Live(m.allocs, m.fate, p) ::
      RangeUnmapped(m.st.mapped, p, m.allocs[p].size)
  {
    PhysicalBytes(m.st, m.allocs, m.fate);
    assert LeakedSizes(m.st, m.fate.leaked) == map[];
    forall p | p in m.allocs && p !in m.fate.homeless && !Live(m.allocs, m.fate, p)
      ensures RangeUnmapped(m.st.mapped, p, m.allocs[p].size)
    {
      AsleepIsUnmapped(m.st, m.allocs, m.fate, p);
    }
  }

  /** Without squatters a free strands its reservation exactly when it is given another size than the rounded one. */
  lemma OnlyMisSizedFreesStrand(m: Moment, p: nat, size: nat)
    requires Sound(m) && NoSquatters(m.allocs, m.fate) && p in m.allocs && p !in m.fate.homeless && Tame(m, p)
    ensures MayStrand(m, Free(p, size)) <==> size != m.allocs[p].size
  {
    hide Consistent, DriverOk, UnloadedSt, UnloadedFate, Tame, Live, NoSquatters;
    SoundIsAccounted(m);
    UnloadedSame(m, p);
    HasHome(m, p);
    UnloadedKeeps(m, p);
    if !Live(m.allocs, m.fate, p) {
      AsleepIsUnmapped(m.st, m.allocs, m.fate, p);
      NotLiveKeepsMappings(m, p);
    }
  }

  lemma NotLiveKeepsMappings(m: Moment, p: nat)
    requires Sound(m) && p in m.allocs && !Live(m.allocs, m.fate, p) && Tame(m, p)
    ensures UnloadedSt(m, p).mapped == m.st.mapped
  {
    hide Consistent, DriverOk, UnmapAll;
    if IsDead(m, p) { DeadUnloading(m, p); }
  }
}
