/**
 What consistency means for memory: what is behind every byte of a live allocation, who may be found
 in whose addresses, and how many bytes are live.
 */
module CumemMeaning {
  import opened Arith
  import opened Chunks
  import opened CumemDriver
  import opened CumemState
  import opened Partition

  // ---------------------------------------------------------------- live allocations

  lemma {:induction false} ChunkAt(chunks: seq<nat>, n: nat, byte: nat) returns (k: nat)
    requires n <= |chunks| && byte < Offset(chunks, n)
    ensures k < n && Offset(chunks, k) <= byte < Offset(chunks, k) + chunks[k]
  {
    if byte < Offset(chunks, n - 1) { k := ChunkAt(chunks, n - 1, byte); } else { k := n - 1; }
  }

  lemma LiveHeld(st: DriverState, allocs: Table, fate: Fate, p: nat)
    requires Consistent(st, allocs, fate) && Live(allocs, fate, p)
    ensures ShapeOk(allocs[p]) && NoRepeats(allocs[p].cells)
    ensures Includes(st.mapped, Maps(p, allocs[p])) && Includes(st.handles, Handles(allocs[p]))
  {
    hide Partitions, Handles, Maps, ShapeOk, NoRepeats;
    PartHeld(st.mapped, MapParts(allocs, fate), {}, p);
    PartHeld(st.handles, HandleParts(allocs, fate), fate.leaked, p);
  }

  ghost predicate IsLive(st: DriverState, x: nat, chunk: nat, cell: nat) {
    x in st.mapped && st.mapped[x] == Mapping(chunk, cell) && cell in st.handles && st.handles[cell] == chunk
  }

  lemma ChunkHandle(a: Allocation, k: nat)
    requires ShapeOk(a) && NoRepeats(a.cells) && k < |a.chunks|
    ensures a.cells[k] in Handles(a) && Handles(a)[a.cells[k]] == a.chunks[k]
  {
    HandlePartKeys(a.chunks, a.cells, |a.chunks|);
    assert a.cells[k] in a.cells[..|a.chunks|];
  }

  lemma {:induction false} ChunkMapped(p: nat, a: Allocation, k: nat)
    requires ShapeOk(a) && k < |a.chunks|
    ensures p + Offset(a.chunks, k) in Maps(p, a)
    ensures Maps(p, a)[p + Offset(a.chunks, k)] == Mapping(a.chunks[k], a.cells[k])
  {
    MapPartAt(p, a.chunks, a.cells, |a.chunks|, k);
  }

  lemma {:induction false} ChunkIsLive(st: DriverState, allocs: Table, fate: Fate, p: nat, k: nat)
    requires Consistent(st, allocs, fate) && Live(allocs, fate, p) && k < |allocs[p].chunks|
    ensures ShapeOk(allocs[p]) && IsLive(st, p + Offset(allocs[p].chunks, k), allocs[p].chunks[k], allocs[p].cells[k])
  {
    hide Consistent, Handles, Maps, ShapeOk, NoRepeats, Offset;
    LiveHeld(st, allocs, fate, p);
    ChunkMapped(p, allocs[p], k);
    ChunkHandle(allocs[p], k);
  }

  ghost predicate Covers(st: DriverState, x: nat, byte: nat) {
    && x in st.mapped && x <= byte < x + st.mapped[x].size
    && st.mapped[x].handle in st.handles && st.handles[st.mapped[x].handle] == st.mapped[x].size
  }

  /** The chunks of a live allocation tile its range: every byte has exactly one live handle behind it. */
  lemma AwakeIsBacked(st: DriverState, allocs: Table, fate: Fate, p: nat, byte: nat) returns (k: nat)
    requires Consistent(st, allocs, fate) && MappingsOk(st.reserved, st.mapped)
    requires Live(allocs, fate, p) && p <= byte < p + allocs[p].size
    ensures k < |allocs[p].chunks| && Covers(st, p + Offset(allocs[p].chunks, k), byte)
    ensures forall x | Covers(st, x, byte) :: x == p + Offset(allocs[p].chunks, k)
  {
    hide Consistent, Handles, Maps;
    LiveHeld(st, allocs, fate, p);
    k := ChunkAt(allocs[p].chunks, |allocs[p].chunks|, byte - p);
    ChunkIsLive(st, allocs, fate, p, k);
  }

  // ---------------------------------------------------------------- owners

  /** Every mapping is a chunk of a live allocation, inside its range. */
  lemma OwnerOfMapping(st: DriverState, allocs: Table, fate: Fate, x: nat) returns (q: nat)
    requires Consistent(st, allocs, fate) && x in st.mapped
    ensures Live(allocs, fate, q) && x in Maps(q, allocs[q]) && Maps(q, allocs[q])[x] == st.mapped[x]
    ensures q <= x && x + st.mapped[x].size <= q + allocs[q].size
  {
    var owner: map<nat, nat> :| OwnedBy(st.mapped, MapParts(allocs, fate), owner, {});
    q := owner[x];
    assert x in MapParts(allocs, fate)[q];
    MapPartRange(q, allocs[q].chunks, allocs[q].cells, |allocs[q].chunks|);
  }

  /** Every handle that is not leaked is a cell of a live allocation. */
  lemma OwnerOfHandle(st: DriverState, allocs: Table, fate: Fate, h: nat) returns (q: nat)
    requires Consistent(st, allocs, fate) && h in st.handles && h !in fate.leaked
    ensures Live(allocs, fate, q) && h in Handles(allocs[q])
  {
    var owner: map<nat, nat> :| OwnedBy(st.handles, HandleParts(allocs, fate), owner, fate.leaked);
    q := owner[h];
    assert h in HandleParts(allocs, fate)[q];
  }

  /** A live allocation sits in reserved addresses, its own or another's. */
  lemma LiveIsReserved(st: DriverState, allocs: Table, fate: Fate, p: nat)
    requires Consistent(st, allocs, fate) && MappingsOk(st.reserved, st.mapped) && Live(allocs, fate, p)
    ensures p in st.mapped && forall size: nat | 0 < size :: !RangeFree(st.reserved, p, size)
  {
    hide Consistent, Handles, Maps;
    LiveHeld(st, allocs, fate, p);
    var k := ChunkAt(allocs[p].chunks, |allocs[p].chunks|, 0);
    ChunkIsLive(st, allocs, fate, p, k);
    assert Offset(allocs[p].chunks, k) == 0;
    var r :| r in st.reserved && r <= p && p + st.mapped[p].size <= r + st.reserved[r];
  }

  /** Nobody else is mapped where a live allocation is: once it is unloaded its range is unmapped. */
  lemma OwnRange(st: DriverState, allocs: Table, fate: Fate, p: nat)
    requires Consistent(st, allocs, fate) && MappingsOk(st.reserved, st.mapped) && Live(allocs, fate, p)
    ensures RangeUnmapped(st.mapped - Maps(p, allocs[p]).Keys, p, allocs[p].size)
  {
    hide Consistent, Handles, Maps;
    LiveHeld(st, allocs, fate, p);
    forall x | x in st.mapped && x !in Maps(p, allocs[p])
      ensures x + st.mapped[x].size <= p || p + allocs[p].size <= x
    {
      if p < x + st.mapped[x].size && x < p + allocs[p].size {
        var byte := if x < p then p else x;
        var k := ChunkAt(allocs[p].chunks, |allocs[p].chunks|, byte - p);
        ChunkIsLive(st, allocs, fate, p, k);
        ChunkMapped(p, allocs[p], k);
      }
    }
  }

  /** A range that is not reserved has nothing mapped in it. */
  lemma UnreservedIsUnmapped(st: DriverState, addr: nat, size: nat)
    requires MappingsOk(st.reserved, st.mapped) && RangeFree(st.reserved, addr, size)
    ensures RangeUnmapped(st.mapped, addr, size)
  {
    forall x | x in st.mapped
      ensures x + st.mapped[x].size <= addr || addr + size <= x
    {
      var r :| r in st.reserved && r <= x && x + st.mapped[x].size <= r + st.reserved[r];
    }
  }

  // ---------------------------------------------------------------- squatters

  /** A live allocation without a reservation of its own is mapped in the addresses of others. */
  predicate Squats(allocs: Table, fate: Fate, p: nat) { Live(allocs, fate, p) && p in fate.homeless }

  predicate NoSquatters(allocs: Table, fate: Fate) { forall p | p in fate.homeless :: !Live(allocs, fate, p) }

  predicate Meets(st: DriverState, x: nat, addr: nat, size: nat)
    requires x in st.mapped
  {
    addr < x + st.mapped[x].size && x < addr + size
  }

  /** Whatever is mapped in a reservation whose owner is not live belongs to a squatter. */
  lemma IntruderSquats(st: DriverState, allocs: Table, fate: Fate, r: nat, x: nat) returns (q: nat)
    requires Consistent(st, allocs, fate) && r in st.reserved && !Live(allocs, fate, r)
    requires x in st.mapped && Meets(st, x, r, st.reserved[r])
    ensures Squats(allocs, fate, q) && x in Maps(q, allocs[q])
  {
    hide Partitions, Handles, Maps, HandleParts, MapParts, ShapeOk, NoRepeats;
    q := OwnerOfMapping(st, allocs, fate, x);
    assert EntryOk(st.reserved, allocs, fate, q);
  }

  /** A sleeping allocation keeps its reservation, and without squatters nothing is mapped in it. */
  lemma AsleepIsUnmapped(st: DriverState, allocs: Table, fate: Fate, p: nat)
    requires Consistent(st, allocs, fate) && p in allocs && p !in fate.homeless && !Live(allocs, fate, p)
    ensures p in st.reserved && st.reserved[p] == allocs[p].size
    ensures NoSquatters(allocs, fate) ==> RangeUnmapped(st.mapped, p, allocs[p].size)
  {
    hide Partitions, Handles, Maps, HandleParts, MapParts, ShapeOk, NoRepeats;
    assert EntryOk(st.reserved, allocs, fate, p);
    if x :| x in st.mapped && Meets(st, x, p, allocs[p].size) {
      var q := IntruderSquats(st, allocs, fate, p, x);
    }
  }

  /** Each of the first chunks could be mapped at its place: it is reserved, and nothing is mapped there. */
  predicate VacantTo(st: DriverState, base: nat, chunks: seq<nat>, n: nat)
    requires n <= |chunks|
  {
    forall j | 0 <= j < n ::
      && RangeReserved(st.reserved, base + Offset(chunks, j), chunks[j])
      && RangeUnmapped(st.mapped, base + Offset(chunks, j), chunks[j])
  }

  predicate Vacant(st: DriverState, base: nat, chunks: seq<nat>) { VacantTo(st, base, chunks, |chunks|) }

  /** A reservation with nothing mapped in it has room for the chunks that make up its size. */
  lemma {:induction false} RangeIsVacant(st: DriverState, p: nat, chunks: seq<nat>)
    requires p in st.reserved && st.reserved[p] == Offset(chunks, |chunks|)
    requires RangeUnmapped(st.mapped, p, st.reserved[p])
    ensures Vacant(st, p, chunks)
  {
    hide Offset;
    forall j | 0 <= j < |chunks|
      ensures RangeReserved(st.reserved, p + Offset(chunks, j), chunks[j])
      ensures RangeUnmapped(st.mapped, p + Offset(chunks, j), chunks[j])
    {
      OffsetUpTo(chunks, j);
    }
  }

  lemma {:induction false} OffsetUpTo(chunks: seq<nat>, j: nat)
    requires j < |chunks|
    ensures Offset(chunks, j) + chunks[j] <= Offset(chunks, |chunks|)
  {
    OffsetGrows(chunks, j + 1, |chunks|);
  }

  lemma {:induction false} OffsetGrows(chunks: seq<nat>, i: nat, j: nat)
    requires i <= j <= |chunks|
    ensures Offset(chunks, i) <= Offset(chunks, j)
  {
    if i < j { OffsetGrows(chunks, i, j - 1); }
  }

  /** The reservation around a vacant chunk belongs to somebody who is asleep or dead, or is stranded. */
  lemma VacantIsSomebodys(st: DriverState, allocs: Table, fate: Fate, addr: nat, size: nat) returns (r: nat)
    requires Consistent(st, allocs, fate) && MappingsOk(st.reserved, st.mapped) && 0 < size
    requires RangeReserved(st.reserved, addr, size) && RangeUnmapped(st.mapped, addr, size)
    ensures r in st.reserved && r <= addr && addr + size <= r + st.reserved[r]
    ensures !Live(allocs, fate, r) && (r in fate.stranded || (r in allocs && r !in fate.homeless))
  {
    hide Partitions, Handles, Maps, HandleParts, MapParts, ShapeOk, NoRepeats;
    r :| r in st.reserved && r <= addr && addr + size <= r + st.reserved[r];
    if Live(allocs, fate, r) {
      assert EntryOk(st.reserved, allocs, fate, r);
      var k := AwakeIsBacked(st, allocs, fate, r, addr);
    }
  }

  // ---------------------------------------------------------------- conservation

  ghost function AwakeSizes(allocs: Table, fate: Fate): map<nat, nat> {
    map p | p in allocs :: if Live(allocs, fate, p) then allocs[p].size else 0
  }

  ghost function LeakedSizes(st: DriverState, leaked: set<nat>): map<nat, nat> {
    map h | h in st.handles && h in leaked :: st.handles[h]
  }

  lemma {:induction false} HandlePartSum(chunks: seq<nat>, cells: seq<nat>, n: nat)
    requires n <= |chunks| && n <= |cells| && NoRepeats(cells)
    ensures Sum(HandlePart(chunks, cells, n)) == Offset(chunks, n)
  {
    if n > 0 {
      HandlePartKeys(chunks, cells, n - 1);
      HandlePartSum(chunks, cells, n - 1);
      SumInsert(HandlePart(chunks, cells, n - 1), cells[n - 1], chunks[n - 1]);
    }
  }

  lemma AwakeTotals(st: DriverState, allocs: Table, fate: Fate)
    requires RangesOk(st.reserved, allocs, fate)
    ensures Total(HandleParts(allocs, fate)) == AwakeSizes(allocs, fate)
  {
    hide ReservationsOk;
    forall p | p in allocs
      ensures Sum(HandleParts(allocs, fate)[p]) == AwakeSizes(allocs, fate)[p]
    {
      assert EntryOk(st.reserved, allocs, fate, p);
      if Live(allocs, fate, p) { HandlePartSum(allocs[p].chunks, allocs[p].cells, |allocs[p].chunks|); }
    }
  }

  /** Conservation of physical memory: live bytes are those of the live allocations plus the leaked ones. */
  lemma PhysicalBytes(st: DriverState, allocs: Table, fate: Fate)
    requires Consistent(st, allocs, fate)
    ensures Sum(st.handles) == Sum(AwakeSizes(allocs, fate)) + Sum(LeakedSizes(st, fate.leaked))
  {
    hide Partitions, RangesOk, HandleParts, MapParts;
    Conservation(st.handles, HandleParts(allocs, fate), fate.leaked);
    AwakeTotals(st, allocs, fate);
  }
}
