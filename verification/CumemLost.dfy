/**
 Three runs that end badly. A lost address is woken up inside somebody else's placeholder; a wake with an
 error pending loses a handle; the entry of a failed malloc takes somebody else's handle away.
 */
module CumemLost {
  import opened Arith
  import opened Chunks
  import opened CumemDriver
  import opened CumemState
  import opened CumemMeaning
  import opened CumemRuns
  import opened CumemSafety
  import opened CumemCounts
  import opened CumemClean
  import opened Partition
  import opened Wrappers

  lemma NotVacant(m: Moment, p: nat, x: nat)
    requires Sound(m) && p in m.allocs && x in m.st.mapped && Meets(m.st, x, p, m.allocs[p].size)
    ensures !Vacant(m.st, p, m.allocs[p].chunks) && !RangeUnmapped(m.st.mapped, p, m.allocs[p].size)
  {
    hide Partitions, HandleParts, MapParts, NoRepeats, RangeReserved;
    var a := m.allocs[p];
    assert EntryOk(m.st.reserved, m.allocs, m.fate, p);
    var byte := if x < p then p else x;
    assert 0 < m.st.mapped[x].size;
    var k := ChunkAt(a.chunks, |a.chunks|, byte - p);
    assert !RangeUnmapped(m.st.mapped, p + Offset(a.chunks, k), a.chunks[k]);
  }

  /** With a squatter in its addresses a sleeping allocation cannot wake up, and freeing it strands its range. */
  lemma VictimIsStuck(g: nat, m: Moment, p: nat, x: nat)
    requires 0 < g && Sound(m) && p in m.allocs && m.allocs[p].asleep && p !in m.fate.homeless
    requires x in m.st.mapped && Meets(m.st, x, p, m.allocs[p].size)
    ensures forall m' | Follows(g, m, Op.Wake(p), m') :: p in m'.allocs && m'.allocs[p].asleep
    ensures forall size :: MayStrand(m, Free(p, size))
  {
    hide Consistent, DriverOk, Vacant, RangeUnmapped, Loaded;
    SoundIsAccounted(m);
    NotVacant(m, p, x);
    HasHome(m, p);
  }

  // ---------------------------------------------------------------- a lost address wakes up

  const G: nat := 2 * MB
  const LOST: nat := 12 * MB
  const HOST: nat := 10 * MB

  function OneChunk(size: nat, cell: nat, asleep: bool): Allocation { Allocation(size, [size], [cell], asleep) }

  lemma {:induction false} OneChunkParts(p: nat, a: Allocation, cell: nat)
    requires 0 < a.size && a == OneChunk(a.size, cell, a.asleep)
    ensures ShapeOk(a) && NoRepeats(a.cells)
    ensures Handles(a) == map[cell := a.size] && Maps(p, a) == map[p := Mapping(a.size, cell)]
    ensures forall mapped: map<nat, Mapping> | p in mapped && mapped[p].size == a.size ::
      UnmapAll(mapped, p, a.chunks, 1) == mapped - {p}
  {
    assert Offset(a.chunks, 1) == a.size && Offset(a.chunks, 0) == 0;
    assert HandlePart(a.chunks, a.cells, 1) == HandlePart(a.chunks, a.cells, 0)[cell := a.size];
    assert MapPart(p, a.chunks, a.cells, 1) == MapPart(p, a.chunks, a.cells, 0)[p := Mapping(a.size, cell)];
    forall mapped: map<nat, Mapping> | p in mapped && mapped[p].size == a.size
      ensures UnmapAll(mapped, p, a.chunks, 1) == mapped - {p}
    {
      assert Found(mapped, p, a.chunks, 0) && UnmapAll(mapped, p, a.chunks, 0) == mapped;
    }
  }

  lemma OneChunkRequest(size: nat, cell: nat)
    requires size in {2 * MB, 6 * MB}
    ensures RequestFits(size, None, G) && IsNew(OneChunk(size, cell, false), size, None, G)
  {
    AlignUpFixed(size, G);
    AlignUpFixed(DEFAULT_CHUNK, G);
    DivUnique(size + DEFAULT_CHUNK - 1, 1, size - 1, DEFAULT_CHUNK);
    assert Split(size, DEFAULT_CHUNK) == [size];
  }

  const NOTHING := Fate({}, {}, {}, {})
  const LOST_FATE := Fate({LOST}, {}, {}, {})

  const START := Moment(DriverState(map[], map[], map[]), 0, map[], NOTHING, 0)
  const ONE_AWAKE := Moment(DriverState(map[LOST := G], map[5 := G], map[LOST := Mapping(G, 5)]), 0,
                            map[LOST := OneChunk(G, 5, false)], NOTHING, 0)
  const ONE_LOST := Moment(DriverState(map[], map[], map[]), 0, map[LOST := OneChunk(G, 5, true)], LOST_FATE, 1)
  const HOST_AWAKE := Moment(DriverState(map[HOST := 6 * MB], map[7 := 6 * MB], map[HOST := Mapping(6 * MB, 7)]), 0,
                             map[LOST := OneChunk(G, 5, true), HOST := OneChunk(6 * MB, 7, false)], LOST_FATE, 1)
  const HOST_ASLEEP := Moment(DriverState(map[HOST := 6 * MB], map[], map[]), 0,
                              map[LOST := OneChunk(G, 5, true), HOST := OneChunk(6 * MB, 7, true)], LOST_FATE, 1)
  const SQUATTING := Moment(DriverState(map[HOST := 6 * MB], map[9 := G], map[LOST := Mapping(G, 9)]), 0,
                            map[LOST := OneChunk(G, 9, false), HOST := OneChunk(6 * MB, 7, true)], LOST_FATE, 1)

  lemma StartIsOk()
    ensures Sound(START) && Clean(START)
  {
    var noOwner: map<nat, nat> := map[];
    assert OwnedBy(START.st.handles, HandleParts(START.allocs, NOTHING), noOwner, {});
    assert OwnedBy(START.st.mapped, MapParts(START.allocs, NOTHING), noOwner, {});
  }

  lemma FirstMalloc()
    ensures Follows(G, START, Malloc(G, None), ONE_AWAKE) && !Wild(START, Malloc(G, None))
  {
    hide RequestFits, IsNew, Handles, Maps, ShapeOk, NoRepeats;
    OneChunkRequest(G, 5);
    OneChunkParts(LOST, OneChunk(G, 5, false), 5);
    assert LOST % G == 0 by { DivUnique(LOST, 6, 0, G); }
    assert LOST in ONE_AWAKE.st.reserved;
    assert RangeReserved(ONE_AWAKE.st.reserved, LOST, G);
    assert Malloced(G, START, ONE_AWAKE, G, None, LOST);
  }

  lemma FallingAsleepLosesIt()
    ensures Follows(G, ONE_AWAKE, Sleep(LOST), ONE_LOST) && !Wild(ONE_AWAKE, Sleep(LOST))
  {
    hide Handles, Maps, ShapeOk, NoRepeats, UnmapAll;
    var m, a := ONE_AWAKE, OneChunk(G, 5, false);
    OneChunkParts(LOST, a, 5);
    assert a.cells == [5] && Elements(a.cells) == {5};
    assert UnloadedSt(m, LOST) == m.st.(handles := map[], mapped := map[]);
    assert Offset(a.chunks, 0) == 0 && AllThere(m.st, LOST, a);
    assert Slept(m, ONE_LOST, LOST, true);
  }

  lemma SecondMalloc()
    ensures Follows(G, ONE_LOST, Malloc(6 * MB, None), HOST_AWAKE) && !Wild(ONE_LOST, Malloc(6 * MB, None))
  {
    hide RequestFits, IsNew, Handles, Maps, ShapeOk, NoRepeats;
    OneChunkRequest(6 * MB, 7);
    OneChunkParts(HOST, OneChunk(6 * MB, 7, false), 7);
    assert HOST % G == 0 by { DivUnique(HOST, 5, 0, G); }
    assert HOST in HOST_AWAKE.st.reserved;
    assert RangeReserved(HOST_AWAKE.st.reserved, HOST, 6 * MB);
    assert Malloced(G, ONE_LOST, HOST_AWAKE, 6 * MB, None, HOST);
  }

  lemma HostFallsAsleep()
    ensures Follows(G, HOST_AWAKE, Sleep(HOST), HOST_ASLEEP) && !Wild(HOST_AWAKE, Sleep(HOST))
  {
    hide Handles, Maps, ShapeOk, NoRepeats, UnmapAll;
    var m, a := HOST_AWAKE, OneChunk(6 * MB, 7, false);
    OneChunkParts(HOST, a, 7);
    assert a.cells == [7] && Elements(a.cells) == {7};
    assert UnloadedSt(m, HOST) == m.st.(handles := map[], mapped := map[]);
    assert Slept(m, HOST_ASLEEP, HOST, false);
  }

  lemma LostWakesUp()
    ensures Follows(G, HOST_ASLEEP, Op.Wake(LOST), SQUATTING) && !Wild(HOST_ASLEEP, Op.Wake(LOST))
    ensures Trespass(HOST_ASLEEP, Op.Wake(LOST))
  {
    hide Handles, Maps, ShapeOk, NoRepeats;
    var m, a := HOST_ASLEEP, OneChunk(G, 9, false);
    OneChunkParts(LOST, a, 9);
    assert Offset(a.chunks, 0) == 0;
    assert HOST in m.st.reserved && HOST in SQUATTING.st.reserved;
    assert RangeReserved(m.st.reserved, LOST, G) && RangeReserved(SQUATTING.st.reserved, LOST, G);
    assert Vacant(m.st, LOST, a.chunks);
    assert Woken(m, SQUATTING, LOST);
  }

  /** Every step is one the driver may take; at the end the host is stuck. */
  lemma LosingRun()
    ensures var ops := [Malloc(G, None), Sleep(LOST), Malloc(6 * MB, None), Sleep(HOST), Op.Wake(LOST)];
      var trace := [START, ONE_AWAKE, ONE_LOST, HOST_AWAKE, HOST_ASLEEP, SQUATTING];
      IsRun(G, trace, ops) && Sound(START) && Clean(START) && Clean(HOST_ASLEEP) && Trespass(HOST_ASLEEP, ops[4])
    ensures Sound(SQUATTING) && !Clean(SQUATTING)
    ensures forall m' | Follows(G, SQUATTING, Op.Wake(HOST), m') :: HOST in m'.allocs && m'.allocs[HOST].asleep
    ensures forall size :: MayStrand(SQUATTING, Free(HOST, size))
  {
    hide Sound, Follows, Wild, Trespass, MayStrand;
    StartIsOk();
    FirstMalloc();
    FallingAsleepLosesIt();
    SecondMalloc();
    HostFallsAsleep();
    LostWakesUp();
    var ops := [Malloc(G, None), Sleep(LOST), Malloc(6 * MB, None), Sleep(HOST), Op.Wake(LOST)];
    var trace := [START, ONE_AWAKE, ONE_LOST, HOST_AWAKE, HOST_ASLEEP, SQUATTING];
    assert IsRun(G, trace, ops) && TameUpTo(trace, ops, 5);
    RunsKeep(G, trace, ops, 5);
    assert Sound(trace[5]);
    VictimIsStuck(G, SQUATTING, HOST, LOST);
    assert Live(SQUATTING.allocs, SQUATTING.fate, LOST) && LOST in SQUATTING.fate.homeless;
  }

  // ---------------------------------------------------------------- a wake loses a handle

  const ONE_ASLEEP := Moment(DriverState(map[LOST := G], map[], map[]), 0,
                             map[LOST := OneChunk(G, 5, true)], NOTHING, 0)
  const PENDING := Moment(ONE_ASLEEP.st, 2, ONE_ASLEEP.allocs, NOTHING, 1)
  const LEAKED := Moment(DriverState(map[LOST := G], map[9 := G], map[]), 0,
                         ONE_ASLEEP.allocs, Fate({}, {}, {}, {9}), 1)

  lemma FallingAsleepKeepsIt()
    ensures Follows(G, ONE_AWAKE, Sleep(LOST), ONE_ASLEEP) && !Wild(ONE_AWAKE, Sleep(LOST))
  {
    hide Handles, Maps, ShapeOk, NoRepeats, UnmapAll;
    var m, a := ONE_AWAKE, OneChunk(G, 5, false);
    OneChunkParts(LOST, a, 5);
    assert a.cells == [5] && Elements(a.cells) == {5};
    assert UnloadedSt(m, LOST) == m.st.(handles := map[], mapped := map[]);
    assert Slept(m, ONE_ASLEEP, LOST, false);
  }

  lemma MallocIsRefused()
    ensures Follows(G, ONE_ASLEEP, Malloc(G, None), PENDING) && !Wild(ONE_ASLEEP, Malloc(G, None))
  {
    OneChunkRequest(G, 5);
    assert LOST in PENDING.st.reserved;
  }

  lemma StaleWakeLoses()
    ensures Follows(G, PENDING, Op.Wake(LOST), LEAKED) && !Wild(PENDING, Op.Wake(LOST))
    ensures StaleWake(PENDING, Op.Wake(LOST)) && Leaks(PENDING, Op.Wake(LOST), LEAKED)
  {
    assert OneChunk(G, 5, true).chunks == [G];
    assert LEAKED == Leaking(PENDING, 9, G);
    assert 9 in LEAKED.st.handles && 9 !in PENDING.st.handles;
    assert Woken(PENDING, LEAKED, LOST);
  }

  /** An error that a refused malloc leaves behind costs the next wake a handle, for good. */
  lemma LeakingRun()
    ensures var ops := [Malloc(G, None), Sleep(LOST), Malloc(G, None), Op.Wake(LOST)];
      var trace := [START, ONE_AWAKE, ONE_ASLEEP, PENDING, LEAKED];
      IsRun(G, trace, ops) && Sound(START) && Clean(START) && Clean(PENDING) && StaleWake(PENDING, ops[3])
    ensures Sound(LEAKED) && 9 in LEAKED.fate.leaked && 9 in LEAKED.st.handles && LEAKED.allocs[LOST].asleep
  {
    hide Sound, Follows, Wild, StaleWake;
    StartIsOk();
    FirstMalloc();
    FallingAsleepKeepsIt();
    MallocIsRefused();
    StaleWakeLoses();
    var ops := [Malloc(G, None), Sleep(LOST), Malloc(G, None), Op.Wake(LOST)];
    var trace := [START, ONE_AWAKE, ONE_ASLEEP, PENDING, LEAKED];
    assert IsRun(G, trace, ops) && TameUpTo(trace, ops, 4);
    RunsKeep(G, trace, ops, 4);
    assert Sound(trace[4]);
  }

  // ---------------------------------------------------------------- a dead entry takes a handle away

  const DEAD_FATE := Fate({LOST}, {LOST}, {}, {})
  const FAILED := Moment(DriverState(map[], map[], map[]), 2, map[LOST := OneChunk(G, 5, false)], DEAD_FATE, 1)
  const RAISED := Moment(FAILED.st, 0, FAILED.allocs, DEAD_FATE, 1)
  const REUSED := Moment(DriverState(map[HOST := 6 * MB], map[5 := 6 * MB], map[HOST := Mapping(6 * MB, 5)]), 0,
                         map[LOST := OneChunk(G, 5, false), HOST := OneChunk(6 * MB, 5, false)], DEAD_FATE, 1)
  const ROBBED := Moment(DriverState(map[HOST := 6 * MB], map[], map[HOST := Mapping(6 * MB, 5)]), 0,
                         map[LOST := OneChunk(G, 5, true), HOST := OneChunk(6 * MB, 5, false)], LOST_FATE, 1)

  lemma MallocFails()
    ensures Follows(G, START, Malloc(G, None), FAILED) && !Wild(START, Malloc(G, None))
  {
    hide RequestFits, IsNew, Handles, Maps, ShapeOk, NoRepeats;
    OneChunkRequest(G, 5);
    OneChunkParts(LOST, OneChunk(G, 5, false), 5);
    assert LOST % G == 0 by { DivUnique(LOST, 6, 0, G); }
    assert Malloced(G, START, FAILED, G, None, LOST);
  }

  lemma {:induction false} NothingToUnmap(mapped: map<nat, Mapping>)
    requires LOST !in mapped
    ensures UnmapAll(mapped, LOST, OneChunk(G, 5, false).chunks, 1) == mapped
    ensures !Found(mapped, LOST, OneChunk(G, 5, false).chunks, 0)
  {
    assert Offset(OneChunk(G, 5, false).chunks, 0) == 0;
    NothingFound(mapped, LOST, OneChunk(G, 5, false).chunks, 1);
  }

  lemma DiscardRaises()
    ensures Follows(G, FAILED, Discard(LOST), RAISED) && !Wild(FAILED, Discard(LOST))
  {
    hide UnmapAll, Found;
    var m, a := FAILED, OneChunk(G, 5, false);
    NothingToUnmap(m.st.mapped);
    assert Elements(a.cells) == {5};
    assert UnloadedSt(m, LOST) == m.st && UnloadedFate(m, LOST) == m.fate;
    assert !Unloadable(m, LOST);
    assert Discarded(m, RAISED, LOST, false);
  }

  lemma MallocReuses()
    ensures Follows(G, RAISED, Malloc(6 * MB, None), REUSED) && !Wild(RAISED, Malloc(6 * MB, None))
  {
    hide RequestFits, IsNew, Handles, Maps, ShapeOk, NoRepeats;
    OneChunkRequest(6 * MB, 5);
    OneChunkParts(HOST, OneChunk(6 * MB, 5, false), 5);
    assert HOST % G == 0 by { DivUnique(HOST, 5, 0, G); }
    assert HOST in REUSED.st.reserved;
    assert RangeReserved(REUSED.st.reserved, HOST, 6 * MB);
    assert Malloced(G, RAISED, REUSED, 6 * MB, None, HOST);
  }

  lemma SleepRobs()
    ensures Follows(G, REUSED, Sleep(LOST), ROBBED) && Wild(REUSED, Sleep(LOST))
  {
    hide UnmapAll, Found;
    var m, a := REUSED, OneChunk(G, 5, false);
    NothingToUnmap(m.st.mapped);
    assert a.cells == [5] && Elements(a.cells) == {5};
    assert 5 in a.cells && 5 in m.st.handles;
    assert HOST in ROBBED.st.reserved;
    assert RangeReserved(ROBBED.st.reserved, HOST, 6 * MB);
    assert UnloadedSt(m, LOST) == m.st.(handles := map[]) && UnloadedFate(m, LOST) == m.fate;
    assert Slept(m, ROBBED, LOST, false);
  }

  /** Runs do reach a wild operation: at the end an allocation in use is mapped to a handle that is gone. */
  lemma WildRun()
    ensures var ops := [Malloc(G, None), Discard(LOST), Malloc(6 * MB, None), Sleep(LOST)];
      var trace := [START, FAILED, RAISED, REUSED, ROBBED];
      IsRun(G, trace, ops) && SoundUpTo(trace, 3) && Clean(REUSED) && Wild(REUSED, ops[3])
    ensures !Sound(ROBBED) && Live(ROBBED.allocs, ROBBED.fate, HOST)
    ensures ROBBED.st.mapped[HOST].handle !in ROBBED.st.handles
  {
    hide Sound, Follows, Wild;
    StartIsOk();
    MallocFails();
    DiscardRaises();
    MallocReuses();
    SleepRobs();
    var ops := [Malloc(G, None), Discard(LOST), Malloc(6 * MB, None), Sleep(LOST)];
    var trace := [START, FAILED, RAISED, REUSED, ROBBED];
    assert IsRun(G, trace, ops) && TameUpTo(trace, ops, 3);
    RunsKeep(G, trace, ops, 3);
    assert Sound(trace[3]);
    SoundUnlessWild(G, REUSED, ops[3], ROBBED);
  }
}
