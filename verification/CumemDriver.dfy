/**
 The virtual-memory driver as the allocator sees it: reserved address ranges, live physical handles
 and mappings. Reserving, creating and mapping may fail at any time, and how often they do so without
 need is counted; giving something back fails exactly when the arguments do not name a live resource.
 A failed call changes nothing.
 */
module CumemDriver {

  datatype Mapping = Mapping(size: nat, handle: nat)

  datatype DriverState = DriverState(reserved: map<nat, nat>, handles: map<nat, nat>, mapped: map<nat, Mapping>)

  predicate RangeFree(reserved: map<nat, nat>, addr: nat, size: nat) {
    forall a | a in reserved :: a + reserved[a] <= addr || addr + size <= a
  }

  predicate RangeReserved(reserved: map<nat, nat>, addr: nat, size: nat) {
    exists a | a in reserved :: a <= addr && addr + size <= a + reserved[a]
  }

  predicate RangeUnmapped(mapped: map<nat, Mapping>, addr: nat, size: nat) {
    forall a | a in mapped :: a + mapped[a].size <= addr || addr + size <= a
  }

  ghost predicate ReservationsOk(reserved: map<nat, nat>) {
    && (forall a | a in reserved :: 0 < a && 0 < reserved[a])
    && forall a, b | a in reserved && b in reserved && a != b :: a + reserved[a] <= b || b + reserved[b] <= a
  }

  /** Mappings lie in reservations and do not overlap. */
  ghost predicate MappingsOk(reserved: map<nat, nat>, mapped: map<nat, Mapping>) {
    && (forall a | a in mapped :: 0 < mapped[a].size && RangeReserved(reserved, a, mapped[a].size))
    && forall a, b | a in mapped && b in mapped && a != b :: a + mapped[a].size <= b || b + mapped[b].size <= a
  }

  /** A live handle of the right size may be mapped into reserved addresses that are not mapped yet. */
  predicate MayMap(st: DriverState, addr: nat, size: nat, handle: nat) {
    && 0 < size && RangeReserved(st.reserved, addr, size) && RangeUnmapped(st.mapped, addr, size)
    && handle in st.handles && st.handles[handle] == size
  }

  lemma ReservingKeepsMappings(reserved: map<nat, nat>, mapped: map<nat, Mapping>, addr: nat, size: nat)
    requires MappingsOk(reserved, mapped) && addr !in reserved
    ensures MappingsOk(reserved[addr := size], mapped)
  {
    forall a | a in mapped
      ensures RangeReserved(reserved[addr := size], a, mapped[a].size)
    {
      var r :| r in reserved && r <= a && a + mapped[a].size <= r + reserved[r];
      assert r in reserved[addr := size];
    }
  }

  lemma FreeingKeepsMappings(reserved: map<nat, nat>, mapped: map<nat, Mapping>, addr: nat)
    requires MappingsOk(reserved, mapped) && addr in reserved && RangeUnmapped(mapped, addr, reserved[addr])
    ensures MappingsOk(reserved - {addr}, mapped)
  {
    forall a | a in mapped
      ensures RangeReserved(reserved - {addr}, a, mapped[a].size)
    {
      var r :| r in reserved && r <= a && a + mapped[a].size <= r + reserved[r];
      assert r in reserved - {addr};
    }
  }

  /** The range that the caller would like to have can be reserved. */
  predicate HintFits(reserved: map<nat, nat>, size: nat, alignment: nat, hint: nat) {
    0 < hint && 0 < size && RangeFree(reserved, hint, size) && (alignment != 0 ==> hint % alignment == 0)
  }

  function OneIf(b: bool): nat { if b then 1 else 0 }

  const SUCCESS: nat := 0
  const INVALID_VALUE: nat := 1
  const OUT_OF_MEMORY: nat := 2
  const NOT_SUPPORTED: nat := 801

  class Driver {
    const granularity: nat
    var st: DriverState
    /** How often it has declined, or passed over, a request that it could have granted. */
    ghost var refusals: nat
    /** The addresses that it has granted for reservations, in order. */
    ghost var offers: seq<nat>

    ghost predicate Valid()
      reads this
    {
      0 < granularity && ReservationsOk(st.reserved) && MappingsOk(st.reserved, st.mapped)
    }

    constructor (granularity: nat)
      requires 0 < granularity
      ensures Valid() && this.granularity == granularity && st == DriverState(map[], map[], map[])
      ensures refusals == 0 && offers == []
    {
      this.granularity := granularity;
      st := DriverState(map[], map[], map[]);
      refusals, offers := 0, [];
    }

    method MemGetAllocationGranularity() returns (status: nat, g: nat)
      modifies `refusals
      ensures status == SUCCESS ==> g == granularity
      ensures refusals == old(refusals) + OneIf(status != SUCCESS)
    {
      var fails: bool := *;
      if fails {
        refusals := refusals + 1;
        return INVALID_VALUE, 0;
      }
      return SUCCESS, granularity;
    }

    /** `hint` is only a wish: the driver may pick any free range, or none. There is always some range to pick. */
    method MemAddressReserve(size: nat, alignment: nat, hint: nat) returns (status: nat, addr: nat)
      requires Valid()
      modifies this
      ensures Valid()
      ensures status == SUCCESS ==> 0 < addr && 0 < size && addr !in old(st).reserved
      ensures status == SUCCESS ==> RangeFree(old(st).reserved, addr, size)
      ensures status == SUCCESS && alignment != 0 ==> addr % alignment == 0
      ensures status == SUCCESS ==> st == old(st).(reserved := old(st).reserved[addr := size])
      ensures status != SUCCESS ==> st == old(st)
      ensures status == SUCCESS ==>
        refusals == old(refusals) + OneIf(HintFits(old(st).reserved, size, alignment, hint) && addr != hint)
      ensures status != SUCCESS ==> refusals == old(refusals) + OneIf(0 < size)
      ensures offers == if status == SUCCESS then old(offers) + [addr] else old(offers)
    {
      hide MappingsOk, RangeReserved, RangeUnmapped;
      var where: nat :| true;
      var fails: bool := *;
      if fails || where == 0 || size == 0 || !RangeFree(st.reserved, where, size) ||
         (alignment != 0 && where % alignment != 0) {
        refusals := refusals + OneIf(0 < size);
        return OUT_OF_MEMORY, 0;
      }
      refusals := refusals + OneIf(HintFits(st.reserved, size, alignment, hint) && where != hint);
      offers := offers + [where];
      ReservingKeepsMappings(st.reserved, st.mapped, where, size);
      st := st.(reserved := st.reserved[where := size]);
      return SUCCESS, where;
    }

    method MemAddressFree(addr: nat, size: nat) returns (status: nat)
      requires Valid()
      modifies `st
      ensures Valid()
      ensures status == SUCCESS <==>
                addr in old(st).reserved && old(st).reserved[addr] == size && RangeUnmapped(old(st).mapped, addr, size)
      ensures st == if status == SUCCESS then old(st).(reserved := old(st).reserved - {addr}) else old(st)
    {
      if addr !in st.reserved || st.reserved[addr] != size || !RangeUnmapped(st.mapped, addr, size) {
        return INVALID_VALUE;
      }
      FreeingKeepsMappings(st.reserved, st.mapped, addr);
      st := st.(reserved := st.reserved - {addr});
      status := SUCCESS;
    }

    method MemCreate(size: nat) returns (status: nat, handle: nat)
      requires Valid()
      modifies `st, `refusals
      ensures Valid()
      ensures status == SUCCESS ==>
                handle !in old(st).handles && st == old(st).(handles := old(st).handles[handle := size])
      ensures status != SUCCESS ==> st == old(st)
      ensures refusals == old(refusals) + OneIf(status != SUCCESS)
    {
      var unused: nat :| true;
      var fails: bool := *;
      if fails || unused in st.handles {
        refusals := refusals + 1;
        return OUT_OF_MEMORY, 0;
      }
      st := st.(handles := st.handles[unused := size]);
      return SUCCESS, unused;
    }

    method MemRelease(handle: nat) returns (status: nat)
      requires Valid()
      modifies `st
      ensures Valid()
      ensures status == SUCCESS <==> handle in old(st).handles
      ensures st == if status == SUCCESS then old(st).(handles := old(st).handles - {handle}) else old(st)
    {
      if handle !in st.handles { return INVALID_VALUE; }
      st := st.(handles := st.handles - {handle});
      status := SUCCESS;
    }

    method MemMap(addr: nat, size: nat, handle: nat) returns (status: nat)
      requires Valid()
      modifies `st, `refusals
      ensures Valid()
      ensures status == SUCCESS ==>
        MayMap(old(st), addr, size, handle) && st == old(st).(mapped := old(st).mapped[addr := Mapping(size, handle)])
      ensures status != SUCCESS ==> st == old(st)
      ensures refusals == old(refusals) + OneIf(status != SUCCESS && MayMap(old(st), addr, size, handle))
    {
      var fails: bool := *;
      if fails || !MayMap(st, addr, size, handle) {
        refusals := refusals + OneIf(MayMap(st, addr, size, handle));
        return OUT_OF_MEMORY;
      }
      st := st.(mapped := st.mapped[addr := Mapping(size, handle)]);
      status := SUCCESS;
    }

    method MemUnmap(addr: nat, size: nat) returns (status: nat)
      requires Valid()
      modifies `st
      ensures Valid()
      ensures status == SUCCESS <==> addr in old(st).mapped && old(st).mapped[addr].size == size
      ensures st == if status == SUCCESS then old(st).(mapped := old(st).mapped - {addr}) else old(st)
    {
      if addr !in st.mapped || st.mapped[addr].size != size { return INVALID_VALUE; }
      st := st.(mapped := st.mapped - {addr});
      status := SUCCESS;
    }
  }
}
