/**
 The sleep/wake allocator on top of the driver: chunked creation with rollback, allocation, release,
 and the swap between a mapped range and an empty placeholder reservation at the same address. Every
 operation is shown to be a step of the state machine, in every state that runs can reach, also after
 operations that have taken chunks away from others.
 */
module CumemAllocator {
  import opened Arith
  import opened Chunks
  import opened CumemDriver
  import opened CumemState
  import opened CumemMeaning
  import opened CumemRuns
  import opened CumemSafety
  import opened CumemCounts
  import opened CumemClean
  import opened Wrappers
  import Partition

  class Allocator {
    const driver: Driver
    var errorCode: nat
    var allocs: Table
    /** No operation of the allocator consults it. */
    ghost var fate: Fate

    ghost function State(): Moment
      reads this, driver
    {
      Moment(driver.st, errorCode, allocs, fate, driver.refusals)
    }

    ghost predicate Valid()
      reads this, driver
    {
      driver.Valid() && Accounted(State())
    }

    constructor (driver: Driver)
      requires driver.Valid() && driver.st == DriverState(map[], map[], map[])
      ensures Valid() && this.driver == driver && State().allocs == map[] && State().errorCode == 0
      ensures State().fate == Fate({}, {}, {}, {}) && State().st == driver.st
      ensures Sound(State()) && Clean(State())
    {
      this.driver := driver;
      errorCode, allocs, fate := 0, map[], Fate({}, {}, {}, {});
      new;
      var noOwner: map<nat, nat> := map[];
      assert Partition.OwnedBy(driver.st.handles, HandleParts(allocs, fate), noOwner, fate.leaked);
      assert Partition.OwnedBy(driver.st.mapped, MapParts(allocs, fate), noOwner, {});
    }

    /** The error code is sticky: it remembers a failure until an entry point resets it. */
    method CudaCheck(status: nat)
      modifies `errorCode
      ensures errorCode == if status != SUCCESS then status else old(errorCode)
    {
      if status != SUCCESS { errorCode := status; }
    }

    /** Reserves at an aligned address, retrying without the alignment and checking the result. */
    method ReserveRocmAddress(size: nat, alignment: nat, hint: nat) returns (status: nat, addr: nat)
      requires driver.Valid()
      modifies driver
      ensures driver.Valid()
      ensures status == SUCCESS ==>
        && 0 < addr && 0 < size && addr !in old(driver.st).reserved && RangeFree(old(driver.st).reserved, addr, size)
        && (alignment != 0 ==> addr % alignment == 0)
        && driver.st == old(driver.st).(reserved := old(driver.st).reserved[addr := size])
      ensures status != SUCCESS ==> driver.st == old(driver.st)
      ensures old(driver.refusals) <= driver.refusals
      ensures status == SUCCESS && alignment == 0 ==>
        driver.refusals ==
          old(driver.refusals) + OneIf(HintFits(old(driver.st).reserved, size, 0, hint) && addr != hint)
      ensures status != SUCCESS && alignment == 0 ==> driver.refusals == old(driver.refusals) + OneIf(0 < size)
      ensures status != SUCCESS && alignment != 0 && 0 < size ==>
        || old(driver.refusals) + 2 <= driver.refusals
        || (old(driver.refusals) < driver.refusals
            && exists x :: driver.offers == old(driver.offers) + [x] && x % alignment != 0)
    {
      hide MappingsOk, RangeUnmapped, RangeReserved, RangeFree;
      status, addr := driver.MemAddressReserve(size, alignment, hint);
      if status == SUCCESS || alignment == 0 { return; }
      status, addr := driver.MemAddressReserve(size, 0, hint);
      if status != SUCCESS { return; }
      if addr % alignment == 0 { return; }
      UnreservedIsUnmapped(old(driver.st), addr, size);
      var freed := driver.MemAddressFree(addr, size);
      assert old(driver.st).reserved[addr := size] - {addr} == old(driver.st).reserved;
      status := NOT_SUPPORTED;
    }

    /** Releases the first `n` cells, in order, and reports the first error. */
    method ReleaseCells(chunks: seq<nat>, cells: array<nat>, n: nat) returns (firstError: nat)
      requires driver.Valid() && n <= cells.Length == |chunks|
      modifies driver`st
      ensures driver.Valid()
      ensures driver.st ==
        old(driver.st).(handles := old(driver.st).handles - HandlePart(chunks, cells[..], n).Keys)
      ensures firstError == SUCCESS <==> Releasable(old(driver.st).handles, cells[..n])
    {
      hide HandlePart, MapPart, Offset, ReservationsOk, MappingsOk, Releasable;
      ghost var cs := cells[..];
      NothingMapped(old(driver.st), 0, chunks, cs);
      NothingToRelease(old(driver.st).handles, cs);
      firstError := SUCCESS;
      for j := 0 to n
        invariant driver.Valid()
        invariant driver.st == old(driver.st).(handles := old(driver.st).handles - HandlePart(chunks, cs, j).Keys)
        invariant firstError == SUCCESS <==> Releasable(old(driver.st).handles, cs[..j])
      {
        RemoveNext(old(driver.st).handles, map[], 0, chunks, cs, j);
        NextRelease(old(driver.st).handles, chunks, cs, j);
        var status := driver.MemRelease(cells[j]);
        if status != SUCCESS && firstError == SUCCESS { firstError := status; }
      }
    }

    /** Unmaps the first `n` chunks at their running offsets, as far as they are found, and reports the first error. */
    method UnmapChunks(base: nat, chunks: seq<nat>, n: nat) returns (firstError: nat)
      requires driver.Valid() && n <= |chunks| && Positive(chunks)
      modifies driver`st
      ensures driver.Valid()
      ensures driver.st == old(driver.st).(mapped := UnmapAll(old(driver.st).mapped, base, chunks, n))
      ensures firstError == SUCCESS <==> forall j | 0 <= j < n :: Found(old(driver.st).mapped, base, chunks, j)
    {
      hide UnmapAll, ReservationsOk, MappingsOk, Positive, Offset, Found;
      NothingUnmapped(driver.st.mapped, base, chunks);
      var unmappedSize := 0;
      firstError := SUCCESS;
      for j := 0 to n
        invariant driver.Valid() && unmappedSize == Offset(chunks, j)
        invariant driver.st == old(driver.st).(mapped := UnmapAll(old(driver.st).mapped, base, chunks, j))
        invariant firstError == SUCCESS <==> forall i | 0 <= i < j :: Found(old(driver.st).mapped, base, chunks, i)
      {
        StillFound(old(driver.st).mapped, base, chunks, j);
        OffsetStep(chunks, j);
        var status := driver.MemUnmap(base + unmappedSize, chunks[j]);
        if status != SUCCESS && firstError == SUCCESS { firstError := status; }
        unmappedSize := unmappedSize + chunks[j];
      }
    }

    /**
     Creates one handle per chunk, or none: on an error the ones before it are released again.
     A stale error code is mistaken for a failure of the first creation, whose handle is then lost.
     */
    method CreateChunks(chunks: seq<nat>, cells: array<nat>) returns (done: bool)
      requires driver.Valid() && cells.Length == |chunks|
      modifies `errorCode, driver, cells
      ensures driver.Valid()
      ensures done && |chunks| > 0 ==> old(errorCode) == 0 == errorCode
      ensures |chunks| == 0 ==> done && errorCode == old(errorCode)
      ensures !done ==> errorCode != 0
      ensures done ==>
        && NoRepeats(cells[..]) && HandlePart(chunks, cells[..], |chunks|).Keys !! old(driver.st).handles.Keys
        && driver.st == old(driver.st).(handles := old(driver.st).handles + HandlePart(chunks, cells[..], |chunks|))
      ensures !done && old(errorCode) == 0 ==> driver.st == old(driver.st)
      ensures !done && old(errorCode) != 0 ==>
        NothingOrFirst(old(driver.st), driver.st, chunks, cells[..], driver.refusals != old(driver.refusals))
      ensures old(driver.refusals) <= driver.refusals <= old(driver.refusals) + 1
      ensures old(errorCode) == 0 ==> (done <==> driver.refusals == old(driver.refusals))
    {
      hide HandlePart, MapPart, Offset, ReservationsOk, MappingsOk, NothingOrFirst;
      ghost var st0 := driver.st;
      NothingMapped(st0, 0, chunks, cells[..]);
      assert NoRepeats(cells[..0]);
      for i := 0 to |chunks|
        invariant driver.Valid() && (if i == 0 then errorCode == old(errorCode) else old(errorCode) == 0 == errorCode)
        invariant NoRepeats(cells[..i]) && HandlePart(chunks, cells[..], i).Keys !! st0.handles.Keys
        invariant driver.st == st0.(handles := st0.handles + HandlePart(chunks, cells[..], i))
        invariant driver.refusals == old(driver.refusals)
      {
        ghost var before := cells[..];
        var status, handle := driver.MemCreate(chunks[i]);
        if status == SUCCESS {
          cells[i] := handle;
          NextCell(st0.handles, chunks, before, cells[..], i);
        }
        CudaCheck(status);
        if errorCode != 0 {
          Partition.AddThenRemove(st0.handles, HandlePart(chunks, cells[..], i));
          NothingMapped(driver.st, 0, chunks, cells[..]);
          if i == 0 { FirstOrNothing(st0, driver.st, chunks, cells[..], status != SUCCESS); }
          var _ := ReleaseCells(chunks, cells, i);
          return false;
        }
      }
      return true;
    }

    /** Maps every created chunk; on an error unmaps the earlier ones and releases all handles. */
    method MapChunks(base: nat, chunks: seq<nat>, cells: array<nat>)
      requires driver.Valid() && cells.Length == |chunks| && Positive(chunks) && errorCode == 0
      requires NoRepeats(cells[..]) && Partition.Includes(driver.st.handles, HandlePart(chunks, cells[..], |chunks|))
      modifies `errorCode, driver
      ensures driver.Valid()
      ensures errorCode == 0 <==> Vacant(old(driver.st), base, chunks) && driver.refusals == old(driver.refusals)
      ensures old(driver.refusals) <= driver.refusals <= old(driver.refusals) + 1
      ensures errorCode == 0 ==>
        && MapPart(base, chunks, cells[..], |chunks|).Keys !! old(driver.st).mapped.Keys
        && driver.st == old(driver.st).(mapped := old(driver.st).mapped + MapPart(base, chunks, cells[..], |chunks|))
      ensures errorCode != 0 ==>
        driver.st == old(driver.st).(handles := old(driver.st).handles - HandlePart(chunks, cells[..], |chunks|).Keys)
    {
      hide HandlePart, MapPart, ReservationsOk, MappingsOk, NoRepeats, VacantTo, UnmapAll, RangeReserved, RangeUnmapped;
      hide Positive, Found, Offset;
      ghost var st0, cs := driver.st, cells[..];
      NothingMapped(st0, base, chunks, cs);
      var allocatedSize := 0;
      for i := 0 to |chunks|
        invariant driver.Valid() && errorCode == 0 && allocatedSize == Offset(chunks, i)
        invariant MapPart(base, chunks, cs, i).Keys !! st0.mapped.Keys && VacantTo(st0, base, chunks, i)
        invariant driver.st == st0.(mapped := st0.mapped + MapPart(base, chunks, cs, i))
        invariant driver.refusals == old(driver.refusals)
      {
        ghost var before := driver.st;
        NextFits(st0, before, base, chunks, cs, i);
        OffsetStep(chunks, i);
        var status := driver.MemMap(base + allocatedSize, chunks[i], cells[i]);
        CudaCheck(status);
        if errorCode != 0 {
          UnmapAllOfPart(driver.st.mapped, base, chunks, cs, i);
          Partition.AddThenRemove(st0.mapped, MapPart(base, chunks, cs, i));
          var _ := UnmapChunks(base, chunks, i);
          assert driver.st == st0;
          var _ := ReleaseCells(chunks, cells, |chunks|);
          return;
        }
        NextPlace(st0, before, base, chunks, cs, i);
        AddNext(map[], st0.mapped, base, chunks, cs, i);
        allocatedSize := allocatedSize + chunks[i];
      }
    }

    /** `create_and_map`: one live mapped handle per chunk, or, unless a stale error was pending, no change at all. */
    method CreateAndMap(base: nat, chunks: seq<nat>, cells: array<nat>)
      requires driver.Valid() && cells.Length == |chunks| && 0 < |chunks| && Positive(chunks)
      modifies `errorCode, driver, cells
      ensures driver.Valid()
      ensures errorCode == 0 <==>
        old(errorCode) == 0 && Vacant(old(driver.st), base, chunks) && driver.refusals == old(driver.refusals)
      ensures old(driver.refusals) <= driver.refusals <= old(driver.refusals) + 1
      ensures errorCode == 0 ==>
        && NoRepeats(cells[..])
        && HandlePart(chunks, cells[..], |chunks|).Keys !! old(driver.st).handles.Keys
        && MapPart(base, chunks, cells[..], |chunks|).Keys !! old(driver.st).mapped.Keys
        && driver.st == old(driver.st).(
             handles := old(driver.st).handles + HandlePart(chunks, cells[..], |chunks|),
             mapped := old(driver.st).mapped + MapPart(base, chunks, cells[..], |chunks|))
      ensures errorCode != 0 && old(errorCode) == 0 ==> driver.st == old(driver.st)
      ensures old(errorCode) != 0 ==>
        NothingOrFirst(old(driver.st), driver.st, chunks, cells[..], driver.refusals != old(driver.refusals))
    {
      hide HandlePart, MapPart, Offset, ReservationsOk, MappingsOk, RangeReserved, RangeUnmapped;
      var created := CreateChunks(chunks, cells);
      if !created { return; }
      Partition.AddThenRemove(old(driver.st).handles, HandlePart(chunks, cells[..], |chunks|));
      SameVacant(old(driver.st), driver.st, base, chunks);
      MapChunks(base, chunks, cells);
    }

    /** `unmap_and_release`: strips the driver of the given chunks, with an error unless all of them are there. */
    method UnmapAndRelease(base: nat, a: Allocation)
      requires driver.Valid() && ShapeOk(a)
      modifies `errorCode, driver`st
      ensures driver.Valid() && driver.st == Stripped(old(driver.st), base, a)
      ensures if AllThere(old(driver.st), base, a) then errorCode == old(errorCode) else errorCode != 0
    {
      hide HandlePart, MapPart, ReservationsOk, MappingsOk, UnmapAll, Releasable, Found, Positive;
      var cells := new nat[|a.cells|](i requires 0 <= i < |a.cells| => a.cells[i]);
      assert cells[..] == a.cells && cells[..|a.chunks|] == a.cells;
      HandleKeys(a);
      var firstError := UnmapChunks(base, a.chunks, |a.chunks|);
      var status := ReleaseCells(a.chunks, cells, |a.chunks|);
      if status != SUCCESS && firstError == SUCCESS { firstError := status; }
      CudaCheck(firstError);
    }

    method FillChunkSizes(alignedSize: nat, alignedChunk: nat) returns (chunkSizes: array<nat>)
      requires 0 < alignedChunk
      ensures fresh(chunkSizes) && chunkSizes[..] == Split(alignedSize, alignedChunk)
    {
      var numChunks := NumChunks(alignedSize, alignedChunk);
      chunkSizes := new nat[numChunks];
      for i := 0 to numChunks
        invariant forall k | 0 <= k < i :: chunkSizes[k] == ChunkSize(alignedSize, alignedChunk, k)
      {
        chunkSizes[i] := ChunkSize(alignedSize, alignedChunk, i);
      }
    }

    /**
     `my_malloc`; 0 is the null pointer, and `d` the address that reached the callback, or 0. A failure
     leaves the driver as it was; after the callback it also leaves an entry for an address that it gave back.
     */
    method MyMalloc(size: nat, chunkSetting: Option<nat>) returns (ptr: nat, ghost d: nat)
      requires Valid() && RequestFits(size, chunkSetting, driver.granularity)
      modifies `errorCode, `allocs, `fate, driver
      ensures Valid()
      ensures if d == 0 then Refused(old(State()), State(), size)
              else Malloced(driver.granularity, old(State()), State(), size, chunkSetting, d)
      ensures ptr == if errorCode == 0 then d else 0
    {
      hide HandlePart, MapPart, Offset, AlignUp, Split, RequestFits, MemCreateChunkSize, NoRepeats, Positive;
      hide RangeFree, RangeUnmapped, RangeReserved, ReservationsOk, MappingsOk, NothingOrFirst, Vacant, Live;
      hide IsNew, ShapeOk, SplitShape, RangesOk, HintFits, NumChunks, ChunkSize;
      ptr, d := 0, 0;
      ghost var before := State();
      var status, granularity := driver.MemGetAllocationGranularity();
      CudaCheck(status);
      if errorCode != 0 { return; }
      var alignedSize := AlignUp(size, granularity);
      var dMem;
      status, dMem := ReserveRocmAddress(alignedSize, granularity, 0);
      CudaCheck(status);
      if errorCode != 0 {
        if 0 < size { RoundedSize(size, chunkSetting, granularity); }
        return;
      }
      UnreservedIsUnmapped(before.st, dMem, alignedSize);
      var alignedChunk := AlignUp(MemCreateChunkSize(chunkSetting), granularity);
      MallocShape(size, chunkSetting, granularity);
      var chunkSizes := FillChunkSizes(alignedSize, alignedChunk);
      var cells := new nat[chunkSizes.Length];
      d := dMem;
      NewChunks(alignedSize, alignedChunk);
      RangeIsVacant(driver.st, dMem, chunkSizes[..]);
      CreateAndMap(dMem, chunkSizes[..], cells);
      var entry := Allocation(alignedSize, chunkSizes[..], cells[..], false);
      NewEntry(entry, size, chunkSetting, granularity);
      allocs := allocs[dMem := entry];
      if errorCode != 0 {
        status := driver.MemAddressFree(dMem, alignedSize);
        CudaCheck(status);
        assert before.st.reserved[dMem := alignedSize] - {dMem} == before.st.reserved;
        fate := WithDeath(WithoutHome(fate, dMem), dMem);
      } else {
        fate := WithoutDeath(WithHome(fate, dMem), dMem);
        ptr := dMem;
      }
      MallocedRanges(granularity, before, State(), size, chunkSetting, dMem);
    }

    /** The chunks of an entry that the registry believes to be awake, taken back. */
    method Unload(ptr: nat)
      requires Valid() && ptr in allocs && !allocs[ptr].asleep
      modifies `errorCode, `fate, driver
      ensures Valid() && State() == Unloaded(old(State()), ptr).(errorCode := errorCode)
      ensures if Unloadable(old(State()), ptr) then errorCode == old(errorCode) else errorCode != 0
    {
      hide RangesOk, ReservationsOk, MappingsOk, UnmapAll, AllThere;
      ghost var before := State();
      EntryShape(before, ptr);
      UnmapAndRelease(ptr, allocs[ptr]);
      fate := UnloadedFate(before, ptr);
      UnloadedRanges(before, ptr);
    }

    /**
     `my_free`, of any registered address. The range is given back exactly when it is reserved with the
     size that the caller names and nothing is mapped in it; otherwise a reservation is left behind.
     */
    method MyFree(ptr: nat, size: nat)
      requires Valid() && ptr in allocs
      modifies `errorCode, `allocs, `fate, driver
      ensures Valid() && State() == Freed(old(State()), ptr, size).(errorCode := errorCode)
      ensures FreeError(old(State()), ptr, size, errorCode)
    {
      hide RangesOk, ReservationsOk, MappingsOk, UnloadedSt, UnloadedFate, RangeUnmapped, AllThere;
      ghost var before := State();
      if !allocs[ptr].asleep { Unload(ptr); } else { AsleepUnloaded(before, ptr); }
      var status := driver.MemAddressFree(ptr, size);
      CudaCheck(status);
      if status == SUCCESS { fate := WithoutHome(fate, ptr); }
      allocs, fate := allocs - {ptr}, ErasedFate(fate, ptr);
      FreedRanges(before, ptr, size);
    }

    /**
     `python_unmap_and_release`. The range is given back, so that the driver reclaims the memory, and
     reserved again at once as a placeholder; `lost` says that the driver did not offer the same address.
     */
    method PythonUnmapAndRelease(ptr: nat) returns (ok: bool, ghost lost: bool)
      requires Valid() && ptr in allocs
      modifies `errorCode, `fate, driver
      ensures Valid() && (lost ==> MayLose(old(State()), ptr)) && State() == Unmapped(old(State()), ptr, lost)
      ensures ok == (MayLose(old(State()), ptr) && !lost)
    {
      hide RangesOk, ReservationsOk, MappingsOk, UnloadedSt, UnloadedFate, RangeUnmapped, RangeFree, AllThere;
      hide HintFits;
      ghost var before := State();
      lost := false;
      EntryShape(before, ptr);
      if !allocs[ptr].asleep { Unload(ptr); } else { AsleepUnloaded(before, ptr); }
      if errorCode == 0 {
        ghost var st1, fate1 := driver.st, fate;
        var status := driver.MemAddressFree(ptr, allocs[ptr].size);
        CudaCheck(status);
        if errorCode == 0 {
          OwnRangeFits(st1, ptr);
          lost, fate := true, WithoutHome(fate, ptr);
          ghost var st2 := driver.st;
          var reserved;
          status, reserved := ReserveRocmAddress(allocs[ptr].size, 0, ptr);
          CudaCheck(status);
          if errorCode == 0 && reserved != ptr {
            UnreservedIsUnmapped(st2, reserved, allocs[ptr].size);
            var _ := driver.MemAddressFree(reserved, allocs[ptr].size);
            assert st2.reserved[reserved := allocs[ptr].size] - {reserved} == st2.reserved;
            errorCode := INVALID_VALUE;
          } else if errorCode == 0 {
            lost, fate := false, WithHome(fate, ptr);
            BackHome(before, ptr, st1, fate1);
          }
        }
      }
      ok := errorCode == 0;
      errorCode := 0;
      UnmappedRanges(before, ptr, lost);
    }

    /** One entry of `sleep`: it is marked as asleep whether or not unloading it raised. */
    method FallAsleep(ptr: nat) returns (ok: bool)
      requires Valid() && ptr in allocs && !allocs[ptr].asleep
      modifies `errorCode, `allocs, `fate, driver
      ensures Valid() && exists lost ::
        Slept(old(State()), State(), ptr, lost) && ok == (MayLose(old(State()), ptr) && !lost)
    {
      hide RangesKnown, ReservationsOk, MappingsOk, Unmapped, MayLose;
      ghost var before := State();
      ghost var lost;
      ok, lost := PythonUnmapAndRelease(ptr);
      UnmappedRanges(before, ptr, lost);
      allocs, fate := allocs[ptr := allocs[ptr].(asleep := true)], WithoutDeath(fate, ptr);
      assert Slept(before, State(), ptr, lost);
    }

    /** One entry of `discard`: it is marked as asleep only if nothing was raised. */
    method DiscardOne(ptr: nat) returns (ok: bool)
      requires Valid() && ptr in allocs && !allocs[ptr].asleep
      modifies `errorCode, `allocs, `fate, driver
      ensures Valid() && exists lost ::
        Discarded(old(State()), State(), ptr, lost) && ok == (MayLose(old(State()), ptr) && !lost)
    {
      hide RangesKnown, ReservationsOk, MappingsOk, Unmapped, MayLose;
      ghost var before := State();
      ghost var lost;
      ok, lost := PythonUnmapAndRelease(ptr);
      UnmappedRanges(before, ptr, lost);
      if ok { allocs, fate := allocs[ptr := allocs[ptr].(asleep := true)], WithoutDeath(fate, ptr); }
      assert Discarded(before, State(), ptr, lost);
    }

    /** One unused allocation at the end of a memory pool: struck off the registry, then unmapped and released. */
    method TrimOne(ptr: nat) returns (ok: bool)
      requires Valid() && ptr in allocs
      modifies `errorCode, `allocs, `fate, driver
      ensures Valid() && exists lost ::
        CumemRuns.Trimmed(old(State()), State(), ptr, lost) && ok == (MayLose(old(State()), ptr) && !lost)
    {
      hide RangesKnown, ReservationsOk, MappingsOk, Unmapped, MayLose;
      ghost var before := State();
      ghost var lost;
      ok, lost := PythonUnmapAndRelease(ptr);
      UnmappedRanges(before, ptr, lost);
      allocs, fate := allocs - {ptr}, ErasedFate(fate, ptr);
      assert CumemRuns.Trimmed(before, State(), ptr, lost);
    }

    /**
     `python_create_and_map`: waking an entry up, also one whose reservation was lost. A failure leaves it
     asleep and the driver as it was, but a stale error code costs the handle of the first chunk, if created.
     */
    method PythonCreateAndMap(ptr: nat) returns (ok: bool)
      requires Valid() && ptr in allocs && allocs[ptr].asleep
      modifies `errorCode, `allocs, `fate, driver
      ensures Valid() && Woken(old(State()), State(), ptr)
      ensures ptr in allocs && ok == !allocs[ptr].asleep
    {
      hide RangesOk, HandlePart, MapPart, ReservationsOk, MappingsOk, NoRepeats, Vacant;
      var a := allocs[ptr];
      ghost var before := State();
      EntryShape(before, ptr);
      var cells := new nat[|a.chunks|];
      CreateAndMap(ptr, a.chunks, cells);
      if errorCode == 0 {
        allocs := allocs[ptr := a.(cells := cells[..], asleep := false)];
      } else if driver.st != before.st {
        fate := WithLeaks(fate, fate.leaked + {cells[0]});
        assert State().(errorCode := 0) == Leaking(before, cells[0], a.chunks[0]);
      }
      ok := errorCode == 0;
      errorCode := 0;
      WokenRanges(before, State(), ptr);
    }

    /** One operation, as the Python side issues it. */
    method Apply(op: Op)
      requires Valid()
      modifies `errorCode, `allocs, `fate, driver
      ensures Valid() && Follows(driver.granularity, old(State()), op, State())
    {
      hide RangesKnown, ReservationsOk, MappingsOk, Malloced, Freed, Slept, Discarded, CumemRuns.Trimmed, Woken;
      hide IsNew, FreeError;
      match op {
        case Malloc(size, setting) =>
          if RequestFits(size, setting, driver.granularity) {
            var ptr;
            ghost var d;
            ptr, d := MyMalloc(size, setting);
          }
        case Free(ptr, size) =>
          if ptr in allocs { MyFree(ptr, size); }
        case Sleep(ptr) =>
          if ptr in allocs && !allocs[ptr].asleep { var _ := FallAsleep(ptr); }
        case Discard(ptr) =>
          if ptr in allocs && !allocs[ptr].asleep { var _ := DiscardOne(ptr); }
        case Trim(ptr) =>
          if ptr in allocs { var _ := TrimOne(ptr); }
        case Wake(ptr) =>
          if ptr in allocs && allocs[ptr].asleep { var _ := PythonCreateAndMap(ptr); }
      }
    }

    /** Any run, whatever the driver refuses on the way, is a run of the state machine. */
    method Run(ops: seq<Op>) returns (ghost trace: seq<Moment>)
      requires Valid()
      modifies `errorCode, `allocs, `fate, driver
      ensures Valid() && IsRun(driver.granularity, trace, ops)
      ensures trace[0] == old(State()) && trace[|ops|] == State()
    {
      hide RangesKnown, ReservationsOk, MappingsOk, Follows;
      trace := [State()];
      for k := 0 to |ops|
        invariant Valid() && IsRun(driver.granularity, trace, ops[..k])
        invariant trace[0] == old(State()) && trace[k] == State()
      {
        Apply(ops[k]);
        RunStep(driver.granularity, trace, ops, k, State());
        trace := trace + [State()];
      }
      assert ops[..|ops|] == ops;
    }
  }

  lemma RunStep(g: nat, trace: seq<Moment>, ops: seq<Op>, done: nat, m: Moment)
    requires 0 < g && done < |ops| && IsRun(g, trace, ops[..done])
    requires Follows(g, trace[done], ops[done], m)
    ensures IsRun(g, trace + [m], ops[..done + 1])
  {
    hide Follows, Wild;
  }

  lemma MallocShape(size: nat, chunkSetting: Option<nat>, g: nat)
    requires 0 < g && RequestFits(size, chunkSetting, g)
    ensures 0 < AlignUp(MemCreateChunkSize(chunkSetting), g)
    ensures SplitShape(AlignUp(size, g), AlignUp(MemCreateChunkSize(chunkSetting), g))
  {
    var aligned, chunk := AlignUp(size, g), AlignUp(MemCreateChunkSize(chunkSetting), g);
    AlignUpExact(size, g);
    AlignUpExact(MemCreateChunkSize(chunkSetting), g);
    SplitIsExact(aligned, chunk, g, NumChunks(aligned, chunk));
  }

  ghost predicate SplitShape(aligned: nat, chunk: nat)
    requires 0 < chunk
  {
    var chunks := Split(aligned, chunk);
    Positive(chunks) && Offset(chunks, |chunks|) == aligned && (0 < aligned ==> 0 < |chunks|)
  }

  lemma NewChunks(aligned: nat, chunk: nat)
    requires 0 < chunk && 0 < aligned && SplitShape(aligned, chunk)
    ensures Positive(Split(aligned, chunk)) && 0 < |Split(aligned, chunk)|
  {
  }

  lemma NewEntry(a: Allocation, size: nat, chunkSetting: Option<nat>, g: nat)
    requires 0 < g && 0 < a.size == AlignUp(size, g) && 0 < AlignUp(MemCreateChunkSize(chunkSetting), g)
    requires SplitShape(a.size, AlignUp(MemCreateChunkSize(chunkSetting), g)) && !a.asleep
    requires a.chunks == Split(a.size, AlignUp(MemCreateChunkSize(chunkSetting), g)) && |a.cells| == |a.chunks|
    ensures ShapeOk(a) && IsNew(a, size, chunkSetting, g)
  {
    hide AlignUp, MemCreateChunkSize, Split, Offset, Positive;
  }

  lemma EntryShape(m: Moment, p: nat)
    requires RangesKnown(m) && p in m.allocs
    ensures ShapeOk(m.allocs[p]) && 0 < |m.allocs[p].chunks|
  {
    assert EntryOk(m.st.reserved, m.allocs, m.fate, p);
  }

  lemma AsleepUnloaded(m: Moment, p: nat)
    requires p in m.allocs && m.allocs[p].asleep
    ensures Unloaded(m, p) == m
  {
  }

  /** Giving a range back and getting the same one again changes nothing. */
  lemma BackHome(m: Moment, p: nat, st: DriverState, fate: Fate)
    requires Accounted(m) && p in m.allocs && st == UnloadedSt(m, p) && fate == UnloadedFate(m, p)
    requires p in st.reserved && st.reserved[p] == m.allocs[p].size
    ensures (st.reserved - {p})[p := m.allocs[p].size] == st.reserved
    ensures WithHome(WithoutHome(fate, p), p) == fate
  {
    hide UnloadedSt, UnloadedFate;
    UnloadedSame(m, p);
  }

  lemma OwnRangeFits(st: DriverState, p: nat)
    requires ReservationsOk(st.reserved) && p in st.reserved
    ensures HintFits(st.reserved - {p}, st.reserved[p], 0, p)
  {
  }

  lemma NothingToRelease(handles: map<nat, nat>, cells: seq<nat>)
    ensures Releasable(handles, cells[..0])
  {
  }

  /** One more cell can be released if it is live and none of those before it. */
  lemma NextRelease(handles: map<nat, nat>, chunks: seq<nat>, cells: seq<nat>, j: nat)
    requires j < |chunks| && j < |cells|
    ensures Releasable(handles, cells[..j + 1]) <==>
      Releasable(handles, cells[..j]) && cells[j] in handles - HandlePart(chunks, cells, j).Keys
  {
    hide HandlePart;
    HandlePartKeys(chunks, cells, j);
    var before, now := cells[..j], cells[..j + 1];
    assert now == before + [cells[j]];
    if Releasable(handles, now) {
      assert forall i, k | 0 <= i < k < j :: before[i] == now[i] && before[k] == now[k];
      assert now[j] in now && forall h | h in before :: h in now;
      assert forall k | 0 <= k < j :: before[k] == now[k] && now[k] != now[j];
    }
  }

  lemma {:induction false} NothingMapped(st: DriverState, base: nat, chunks: seq<nat>, cells: seq<nat>)
    requires |chunks| == |cells|
    ensures HandlePart(chunks, cells, 0) == map[] && MapPart(base, chunks, cells, 0) == map[]
    ensures st.handles - HandlePart(chunks, cells, 0).Keys == st.handles + HandlePart(chunks, cells, 0) == st.handles
    ensures st.mapped + MapPart(base, chunks, cells, 0) == st.mapped
    ensures VacantTo(st, base, chunks, 0) && Offset(chunks, 0) == 0
  {
  }

  lemma {:induction false} NothingUnmapped(mapped: map<nat, Mapping>, base: nat, chunks: seq<nat>)
    ensures UnmapAll(mapped, base, chunks, 0) == mapped && Offset(chunks, 0) == 0
  {
  }

  lemma OffsetStep(chunks: seq<nat>, j: nat)
    requires j < |chunks|
    ensures Offset(chunks, j + 1) == Offset(chunks, j) + chunks[j]
  {
  }

  lemma FirstOrNothing(st: DriverState, st': DriverState, chunks: seq<nat>, cells: seq<nat>, refused: bool)
    requires 0 < |chunks| == |cells|
    requires if refused then st' == st
             else cells[0] !in st.handles && st' == st.(handles := st.handles[cells[0] := chunks[0]])
    ensures NothingOrFirst(st, st', chunks, cells, refused)
  {
  }

  /** A chunk whose place was vacant at the start can be mapped, once the ones before it are. */
  lemma {:induction false} NextFits(st0: DriverState, st: DriverState, base: nat, chunks: seq<nat>, cells: seq<nat>,
                                    i: nat)
    requires i < |chunks| == |cells| && Positive(chunks) && NoRepeats(cells)
    requires Partition.Includes(st0.handles, HandlePart(chunks, cells, |chunks|))
    requires st == st0.(mapped := st0.mapped + MapPart(base, chunks, cells, i))
    ensures Vacant(st0, base, chunks) ==> MayMap(st, base + Offset(chunks, i), chunks[i], cells[i])
  {
    hide MapPart, Offset, RangeReserved, HandlePart;
    HandlePartKeys(chunks, cells, |chunks|);
    assert cells[i] in cells[..|chunks|];
    MapPartRange(base, chunks, cells, i);
  }

  lemma SameVacant(st: DriverState, st': DriverState, base: nat, chunks: seq<nat>)
    requires st'.reserved == st.reserved && st'.mapped == st.mapped
    ensures Vacant(st, base, chunks) <==> Vacant(st', base, chunks)
  {
  }

  /** A chunk that the driver has mapped was vacant before the first one was mapped. */
  lemma NextPlace(st0: DriverState, st: DriverState, base: nat, chunks: seq<nat>, cells: seq<nat>, i: nat)
    requires i < |chunks| == |cells| && VacantTo(st0, base, chunks, i)
    requires MapPart(base, chunks, cells, i).Keys !! st0.mapped.Keys
    requires st == st0.(mapped := st0.mapped + MapPart(base, chunks, cells, i)) && MappingsOk(st.reserved, st.mapped)
    requires MayMap(st, base + Offset(chunks, i), chunks[i], cells[i])
    ensures VacantTo(st0, base, chunks, i + 1) && base + Offset(chunks, i) !in st.mapped
  {
    hide MapPart, Offset, RangeReserved;
  }

  /** What a creation that was entered with a stale error code can do: nothing, or lose its first handle. */
  ghost predicate NothingOrFirst(st: DriverState, st': DriverState, chunks: seq<nat>, cells: seq<nat>, refused: bool) {
    if refused then st' == st
    else 0 < |chunks| && 0 < |cells| && cells[0] !in st.handles
         && st' == st.(handles := st.handles[cells[0] := chunks[0]])
  }

  lemma RoundedSize(size: nat, chunkSetting: Option<nat>, g: nat)
    requires 0 < g && RequestFits(size, chunkSetting, g) && 0 < size
    ensures 0 < AlignUp(size, g)
  {
    AlignUpExact(size, g);
  }

  /** A cell written with a handle that was not live extends the created part by one. */
  lemma NextCell(handles: map<nat, nat>, chunks: seq<nat>, before: seq<nat>, cells: seq<nat>, i: nat)
    requires i < |chunks| == |before| == |cells| && cells == before[i := cells[i]]
    requires NoRepeats(before[..i]) && HandlePart(chunks, before, i).Keys !! handles.Keys
    requires cells[i] !in handles + HandlePart(chunks, before, i)
    ensures HandlePart(chunks, cells, i) == HandlePart(chunks, before, i)
    ensures NoRepeats(cells[..i + 1]) && HandlePart(chunks, cells, i + 1).Keys !! handles.Keys
    ensures (handles + HandlePart(chunks, before, i))[cells[i] := chunks[i]]
         == handles + HandlePart(chunks, cells, i + 1)
  {
    hide HandlePart;
    assert cells[..i] == before[..i];
    HandlePartPrefix(chunks, before, cells, i);
    HandlePartKeys(chunks, cells, i);
    AddNext(handles, map[], 0, chunks, cells, i);
  }
}
