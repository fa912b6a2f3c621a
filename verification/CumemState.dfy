/**
 What the driver state has to be for a given registry of allocations, and how the two move together
 when one allocation is reserved, woken up, unloaded, loses its address or is forgotten.
 */
module CumemState {
  import opened Arith
  import opened Chunks
  import opened CumemDriver
  import opened Partition

  /** A registry entry; `asleep` is what the registry believes, and `cells` holds the handle of each chunk. */
  datatype Allocation = Allocation(size: nat, chunks: seq<nat>, cells: seq<nat>, asleep: bool)

  type Table = map<nat, Allocation>

  /**
   What became of addresses and handles without being recorded anywhere. Registered addresses may be
   `homeless`, their reservation lost, or `dead`, registered as awake with the chunks gone. A `stranded`
   reservation has no registry entry any more, and nobody remembers a `leaked` handle.
   */
  datatype Fate = Fate(homeless: set<nat>, dead: set<nat>, stranded: set<nat>, leaked: set<nat>)

  /** The handles of the first `n` chunks, with their sizes. */
  ghost function HandlePart(chunks: seq<nat>, cells: seq<nat>, n: nat): map<nat, nat>
    requires n <= |chunks| && n <= |cells|
  {
    if n == 0 then map[] else HandlePart(chunks, cells, n - 1)[cells[n - 1] := chunks[n - 1]]
  }

  /** The mappings of the first `n` chunks, at their running offsets from `base`. */
  ghost function MapPart(base: nat, chunks: seq<nat>, cells: seq<nat>, n: nat): map<nat, Mapping>
    requires n <= |chunks| && n <= |cells|
  {
    if n == 0 then map[]
    else MapPart(base, chunks, cells, n - 1)[base + Offset(chunks, n - 1) := Mapping(chunks[n - 1], cells[n - 1])]
  }

  lemma {:induction false} HandlePartPrefix(chunks: seq<nat>, cells: seq<nat>, cells': seq<nat>, n: nat)
    requires n <= |chunks| && n <= |cells| && n <= |cells'| && cells[..n] == cells'[..n]
    ensures HandlePart(chunks, cells, n) == HandlePart(chunks, cells', n)
  {
    if n > 0 {
      assert cells[..n - 1] == cells[..n][..n - 1] && cells'[..n - 1] == cells'[..n][..n - 1];
      assert cells[n - 1] == cells[..n][n - 1] && cells'[n - 1] == cells'[..n][n - 1];
      HandlePartPrefix(chunks, cells, cells', n - 1);
    }
  }

  /** Taking back one more cell, or one more chunk's mapping. */
  lemma RemoveNext(handles: map<nat, nat>, mapped: map<nat, Mapping>, base: nat, chunks: seq<nat>, cells: seq<nat>,
                   n: nat)
    requires n < |chunks| && n < |cells|
    ensures handles - HandlePart(chunks, cells, n).Keys - {cells[n]} == handles - HandlePart(chunks, cells, n + 1).Keys
    ensures mapped - MapPart(base, chunks, cells, n).Keys - {base + Offset(chunks, n)} ==
      mapped - MapPart(base, chunks, cells, n + 1).Keys
  {
    assert HandlePart(chunks, cells, n + 1).Keys == HandlePart(chunks, cells, n).Keys + {cells[n]};
    assert MapPart(base, chunks, cells, n + 1).Keys ==
      MapPart(base, chunks, cells, n).Keys + {base + Offset(chunks, n)};
  }

  /** Adding one more fresh cell, or one more chunk's mapping. */
  lemma AddNext(handles: map<nat, nat>, mapped: map<nat, Mapping>, base: nat, chunks: seq<nat>, cells: seq<nat>, n: nat)
    requires n < |chunks| && n < |cells|
    ensures (handles + HandlePart(chunks, cells, n))[cells[n] := chunks[n]] ==
      handles + HandlePart(chunks, cells, n + 1)
    ensures (mapped + MapPart(base, chunks, cells, n))[base + Offset(chunks, n) := Mapping(chunks[n], cells[n])] ==
            mapped + MapPart(base, chunks, cells, n + 1)
    ensures HandlePart(chunks, cells, n + 1).Keys == HandlePart(chunks, cells, n).Keys + {cells[n]}
    ensures MapPart(base, chunks, cells, n + 1).Keys ==
      MapPart(base, chunks, cells, n).Keys + {base + Offset(chunks, n)}
  {
    PutLast(handles, HandlePart(chunks, cells, n), cells[n], chunks[n]);
    PutLast(mapped, MapPart(base, chunks, cells, n), base + Offset(chunks, n), Mapping(chunks[n], cells[n]));
  }

  lemma PutLast<K, V>(m: map<K, V>, part: map<K, V>, k: K, v: V)
    ensures (m + part)[k := v] == m + part[k := v] && part[k := v].Keys == part.Keys + {k}
  {
  }

  ghost predicate Positive(chunks: seq<nat>) { forall k | 0 <= k < |chunks| :: 0 < chunks[k] }

  lemma {:induction false} HandlePartKeys(chunks: seq<nat>, cells: seq<nat>, n: nat)
    requires n <= |chunks| && n <= |cells|
    ensures forall h :: h in HandlePart(chunks, cells, n) <==> h in cells[..n]
    ensures NoRepeats(cells) ==> forall k | 0 <= k < n :: HandlePart(chunks, cells, n)[cells[k]] == chunks[k]
  {
    if n > 0 {
      HandlePartKeys(chunks, cells, n - 1);
      assert cells[..n] == cells[..n - 1] + [cells[n - 1]];
    }
  }

  /** Chunk `k` is mapped at its offset to its own cell, inside the range of the first `n` chunks. */
  lemma {:induction false} MapPartAt(base: nat, chunks: seq<nat>, cells: seq<nat>, n: nat, k: nat)
    requires k < n <= |chunks| && n <= |cells| && Positive(chunks)
    ensures base + Offset(chunks, k) in MapPart(base, chunks, cells, n)
    ensures MapPart(base, chunks, cells, n)[base + Offset(chunks, k)] == Mapping(chunks[k], cells[k])
  {
    if k < n - 1 {
      MapPartAt(base, chunks, cells, n - 1, k);
      OffsetIncreases(chunks, k, n - 1);
    }
  }

  lemma {:induction false} MapPartRange(base: nat, chunks: seq<nat>, cells: seq<nat>, n: nat)
    requires n <= |chunks| && n <= |cells| && Positive(chunks)
    ensures forall a | a in MapPart(base, chunks, cells, n) ::
              && base <= a < base + Offset(chunks, n) && MapPart(base, chunks, cells, n)[a].handle in cells[..n]
              && a + MapPart(base, chunks, cells, n)[a].size <= base + Offset(chunks, n)
  {
    if n > 0 {
      MapPartRange(base, chunks, cells, n - 1);
      assert cells[..n] == cells[..n - 1] + [cells[n - 1]];
    }
  }

  // ---------------------------------------------------------------- the registry and the driver

  ghost predicate ShapeOk(a: Allocation) {
    0 < a.size == Offset(a.chunks, |a.chunks|) && Positive(a.chunks) && |a.cells| == |a.chunks|
  }

  /** Registered as awake, and truly so. */
  predicate Live(allocs: Table, fate: Fate, p: nat) { p in allocs && !allocs[p].asleep && p !in fate.dead }

  ghost function Handles(a: Allocation): map<nat, nat> {
    if |a.cells| != |a.chunks| then map[] else HandlePart(a.chunks, a.cells, |a.chunks|)
  }

  ghost function Maps(p: nat, a: Allocation): map<nat, Mapping> {
    if |a.cells| != |a.chunks| then map[] else MapPart(p, a.chunks, a.cells, |a.chunks|)
  }

  ghost function HandleParts(allocs: Table, fate: Fate): map<nat, map<nat, nat>> {
    map p | p in allocs :: if Live(allocs, fate, p) then Handles(allocs[p]) else map[]
  }

  ghost function MapParts(allocs: Table, fate: Fate): map<nat, map<nat, Mapping>> {
    map p | p in allocs :: if Live(allocs, fate, p) then Maps(p, allocs[p]) else map[]
  }

  ghost predicate EntryOk(reserved: map<nat, nat>, allocs: Table, fate: Fate, p: nat)
    requires p in allocs
  {
    && ShapeOk(allocs[p]) && (Live(allocs, fate, p) ==> NoRepeats(allocs[p].cells))
    && (p in fate.dead ==> !allocs[p].asleep)
    && (p !in fate.homeless ==> p in reserved && reserved[p] == allocs[p].size)
  }

  /** Every reservation belongs to a registered address that is not homeless, or is stranded. */
  ghost predicate RangesOk(reserved: map<nat, nat>, allocs: Table, fate: Fate) {
    && ReservationsOk(reserved) && fate.homeless <= allocs.Keys && fate.dead <= allocs.Keys
    && allocs.Keys !! fate.stranded && fate.homeless !! reserved.Keys
    && reserved.Keys == allocs.Keys - fate.homeless + fate.stranded
    && forall p | p in allocs :: EntryOk(reserved, allocs, fate, p)
  }

  /** The driver holds exactly the handles and mappings of the live allocations, and the leaked handles. */
  ghost predicate Consistent(st: DriverState, allocs: Table, fate: Fate) {
    && RangesOk(st.reserved, allocs, fate)
    && Partitions(st.handles, HandleParts(allocs, fate), fate.leaked)
    && Partitions(st.mapped, MapParts(allocs, fate), {})
  }

  lemma NoPart<K, V>(m: map<K, V>, none: map<K, V>)
    requires none == map[]
    ensures m + none == m && m - none.Keys == m
  {
  }

  /** Nothing but the entry at `p` and what became of it may differ. */
  ghost predicate DifferAt(allocs: Table, fate: Fate, allocs': Table, fate': Fate, p: nat) {
    && (forall q | q != p :: q in allocs <==> q in allocs')
    && (forall q | q in allocs && q != p :: allocs'[q] == allocs[q])
    && (forall q | q != p :: q in fate.dead <==> q in fate'.dead)
  }

  lemma PartsDiffer(allocs: Table, fate: Fate, allocs': Table, fate': Fate, p: nat)
    requires DifferAt(allocs, fate, allocs', fate', p) && p in allocs'
    ensures HandleParts(allocs', fate') == HandleParts(allocs, fate)[p := HandleParts(allocs', fate')[p]]
    ensures MapParts(allocs', fate') == MapParts(allocs, fate)[p := MapParts(allocs', fate')[p]]
  {
    hide Handles, Maps;
  }

  /** The record of an address that is not live, before or after, may change as the reservations do. */
  lemma Rerecord(st: DriverState, allocs: Table, fate: Fate, st': DriverState, allocs': Table, fate': Fate, p: nat)
    requires Consistent(st, allocs, fate) && RangesOk(st'.reserved, allocs', fate')
    requires DifferAt(allocs, fate, allocs', fate', p) && p in allocs' && fate'.leaked == fate.leaked
    requires !Live(allocs, fate, p) && !Live(allocs', fate', p) && st' == st.(reserved := st'.reserved)
    ensures Consistent(st', allocs', fate')
  {
    hide Partitions, RangesOk, Handles, Maps, DifferAt;
    PartsDiffer(allocs, fate, allocs', fate', p);
    AddPart(st.handles, HandleParts(allocs, fate), fate.leaked, p, map[]);
    AddPart(st.mapped, MapParts(allocs, fate), {}, p, map[]);
    NoPart(st.handles, map[]);
    NoPart(st.mapped, map[]);
  }

  lemma PartsErased(allocs: Table, fate: Fate, fate': Fate, p: nat)
    requires DifferAt(allocs, fate, allocs - {p}, fate', p)
    ensures HandleParts(allocs - {p}, fate') == HandleParts(allocs, fate) - {p}
    ensures MapParts(allocs - {p}, fate') == MapParts(allocs, fate) - {p}
  {
    hide Handles, Maps;
  }

  /** An address that is not live may be struck off the registry. */
  lemma Erase(st: DriverState, allocs: Table, fate: Fate, st': DriverState, fate': Fate, p: nat)
    requires Consistent(st, allocs, fate) && RangesOk(st'.reserved, allocs - {p}, fate') && p in allocs
    requires DifferAt(allocs, fate, allocs - {p}, fate', p) && fate'.leaked == fate.leaked
    requires !Live(allocs, fate, p) && st' == st.(reserved := st'.reserved)
    ensures Consistent(st', allocs - {p}, fate')
  {
    hide Partitions, RangesOk, Handles, Maps, DifferAt;
    PartsErased(allocs, fate, fate', p);
    RemovePart(st.handles, HandleParts(allocs, fate), fate.leaked, p);
    RemovePart(st.mapped, MapParts(allocs, fate), {}, p);
    NoPart(st.handles, HandleParts(allocs, fate)[p]);
    NoPart(st.mapped, MapParts(allocs, fate)[p]);
  }

  // ---------------------------------------------------------------- the changes, one by one

  function WithHome(fate: Fate, p: nat): Fate { fate.(homeless := fate.homeless - {p}) }

  function WithoutHome(fate: Fate, p: nat): Fate { fate.(homeless := fate.homeless + {p}) }

  function WithDeath(fate: Fate, p: nat): Fate { fate.(dead := fate.dead + {p}) }

  function WithoutDeath(fate: Fate, p: nat): Fate { fate.(dead := fate.dead - {p}) }

  function WithStranded(fate: Fate, p: nat): Fate { fate.(stranded := fate.stranded + {p}) }

  /** A new range is reserved for an address that is not live; an older entry for it is overwritten. */
  lemma Enter(st: DriverState, allocs: Table, fate: Fate, p: nat, a: Allocation)
    requires Consistent(st, allocs, fate) && ShapeOk(a) && a.asleep && !Live(allocs, fate, p)
    requires p !in st.reserved && ReservationsOk(st.reserved[p := a.size])
    ensures Consistent(st.(reserved := st.reserved[p := a.size]), allocs[p := a], WithoutDeath(WithHome(fate, p), p))
  {
    hide Partitions, HandleParts, MapParts, ShapeOk, ReservationsOk;
    var st' := st.(reserved := st.reserved[p := a.size]);
    Rerecord(st, allocs, fate, st', allocs[p := a], WithoutDeath(WithHome(fate, p), p), p);
  }

  /** The entry of a failed allocation: registered as awake, without chunks and without a reservation. */
  lemma EnterFailed(st: DriverState, allocs: Table, fate: Fate, p: nat, a: Allocation)
    requires Consistent(st, allocs, fate) && ShapeOk(a) && !a.asleep && !Live(allocs, fate, p) && p !in st.reserved
    ensures Consistent(st, allocs[p := a], WithDeath(WithoutHome(fate, p), p))
  {
    hide Partitions, HandleParts, MapParts, ShapeOk, ReservationsOk;
    Rerecord(st, allocs, fate, st, allocs[p := a], WithDeath(WithoutHome(fate, p), p), p);
  }

  /** An address that is not live loses its reservation. */
  lemma LoseHome(st: DriverState, allocs: Table, fate: Fate, p: nat)
    requires Consistent(st, allocs, fate) && p in allocs && !Live(allocs, fate, p)
    ensures Consistent(st.(reserved := st.reserved - {p}), allocs, WithoutHome(fate, p))
  {
    hide Partitions, HandleParts, MapParts, ShapeOk;
    Rerecord(st, allocs, fate, st.(reserved := st.reserved - {p}), allocs, WithoutHome(fate, p), p);
  }

  /** A dead entry is marked as asleep. */
  lemma MarkAsleep(st: DriverState, allocs: Table, fate: Fate, p: nat)
    requires Consistent(st, allocs, fate) && p in fate.dead
    ensures p in allocs && Consistent(st, allocs[p := allocs[p].(asleep := true)], WithoutDeath(fate, p))
  {
    hide Partitions, HandleParts, MapParts, ReservationsOk;
    Rerecord(st, allocs, fate, st, allocs[p := allocs[p].(asleep := true)], WithoutDeath(fate, p), p);
  }

  /** A homeless entry leaves no trace; any other one leaves its reservation behind. */
  lemma Forget(st: DriverState, allocs: Table, fate: Fate, p: nat)
    requires Consistent(st, allocs, fate) && p in allocs && !Live(allocs, fate, p)
    ensures p in fate.homeless ==> Consistent(st, allocs - {p}, WithoutDeath(WithHome(fate, p), p))
    ensures p !in fate.homeless ==> Consistent(st, allocs - {p}, WithoutDeath(WithStranded(fate, p), p))
  {
    hide Partitions, HandleParts, MapParts, ShapeOk, ReservationsOk;
    if p in fate.homeless {
      Erase(st, allocs, fate, st, WithoutDeath(WithHome(fate, p), p), p);
    } else {
      Erase(st, allocs, fate, st, WithoutDeath(WithStranded(fate, p), p), p);
    }
  }

  lemma AwakeParts(allocs: Table, fate: Fate, p: nat, a: Allocation)
    requires p in allocs && allocs[p].asleep && p !in fate.dead && !a.asleep
    ensures HandleParts(allocs[p := a], fate) == HandleParts(allocs, fate)[p := Handles(a)]
    ensures MapParts(allocs[p := a], fate) == MapParts(allocs, fate)[p := Maps(p, a)]
  {
    hide Handles, Maps;
  }

  /** New handles mapped at the address of a sleeping entry wake it up, wherever the mappings came to lie. */
  lemma Wake(st: DriverState, allocs: Table, fate: Fate, p: nat, a: Allocation)
    requires Consistent(st, allocs, fate) && p in allocs && allocs[p].asleep
    requires ShapeOk(a) && !a.asleep && NoRepeats(a.cells) && a.size == allocs[p].size
    requires Handles(a).Keys !! st.handles.Keys && Maps(p, a).Keys !! st.mapped.Keys
    ensures Consistent(st.(handles := st.handles + Handles(a), mapped := st.mapped + Maps(p, a)), allocs[p := a], fate)
  {
    hide Partitions, Handles, Maps, ShapeOk, NoRepeats, ReservationsOk;
    AwakeParts(allocs, fate, p, a);
    AddPart(st.handles, HandleParts(allocs, fate), fate.leaked, p, Handles(a));
    AddPart(st.mapped, MapParts(allocs, fate), {}, p, Maps(p, a));
  }

  /** Taking back a live entry's handles and mappings touches no other entry. */
  lemma Unload(st: DriverState, allocs: Table, fate: Fate, p: nat)
    requires Consistent(st, allocs, fate) && Live(allocs, fate, p)
    ensures var a := allocs[p];
      && Consistent(st.(handles := st.handles - Handles(a).Keys, mapped := st.mapped - Maps(p, a).Keys),
                    allocs, WithDeath(fate, p))
      && st.handles == st.handles - Handles(a).Keys + Handles(a)
      && st.mapped == st.mapped - Maps(p, a).Keys + Maps(p, a)
  {
    hide Partitions, Handles, Maps, ReservationsOk;
    RemovePart(st.handles, HandleParts(allocs, fate), fate.leaked, p);
    RemovePart(st.mapped, MapParts(allocs, fate), {}, p);
    PartsDiffer(allocs, fate, allocs, WithDeath(fate, p), p);
  }

  function WithLeaks(fate: Fate, leaked: set<nat>): Fate { fate.(leaked := leaked) }

  lemma SameParts(allocs: Table, fate: Fate, leaked: set<nat>)
    ensures HandleParts(allocs, WithLeaks(fate, leaked)) == HandleParts(allocs, fate)
    ensures MapParts(allocs, WithLeaks(fate, leaked)) == MapParts(allocs, fate)
  {
    hide Handles, Maps;
  }

  /** A created handle that nobody remembers is leaked. */
  lemma Leak(st: DriverState, allocs: Table, fate: Fate, h: nat, size: nat)
    requires Consistent(st, allocs, fate) && h !in st.handles
    ensures Consistent(st.(handles := st.handles[h := size]), allocs, WithLeaks(fate, fate.leaked + {h}))
  {
    hide Partitions, HandleParts, MapParts, ReservationsOk;
    AddExtra(st.handles, HandleParts(allocs, fate), fate.leaked, h, size);
    SameParts(allocs, fate, fate.leaked + {h});
  }

  /** Leaked handles that are released after all are leaked no longer. */
  lemma Unleak(st: DriverState, allocs: Table, fate: Fate, gone: set<nat>)
    requires Consistent(st, allocs, fate) && forall h | h in gone && h in st.handles :: h in fate.leaked
    ensures Consistent(st.(handles := st.handles - gone), allocs, WithLeaks(fate, fate.leaked - gone))
  {
    hide Partitions, HandleParts, MapParts, ReservationsOk;
    RemoveExtra(st.handles, HandleParts(allocs, fate), fate.leaked, gone);
    SameParts(allocs, fate, fate.leaked - gone);
  }
}
