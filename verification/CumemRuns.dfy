/**
 The allocator as a state machine: what each operation that the Python side issues does to the driver,
 the error code and the registry, for every behaviour of the driver, and what every run of them keeps.
 */
module CumemRuns {
  import opened Arith
  import opened Chunks
  import opened CumemDriver
  import opened CumemState
  import opened CumemMeaning
  import opened Partition
  import opened Wrappers

  /** Besides malloc and free: putting to sleep, waking up, discarding, and trimming an unused allocation. */
  datatype Op =
    | Malloc(size: nat, chunkSetting: Option<nat>)
    | Free(ptr: nat, size: nat)
    | Sleep(ptr: nat)
    | Discard(ptr: nat)
    | Trim(ptr: nat)
    | Wake(ptr: nat)

  /** What the driver and the registry hold, and how often the driver has refused so far. */
  datatype Moment = Moment(st: DriverState, errorCode: nat, allocs: Table, fate: Fate, refusals: nat)

  ghost predicate DriverOk(st: DriverState) { ReservationsOk(st.reserved) && MappingsOk(st.reserved, st.mapped) }

  ghost predicate Sound(m: Moment) { DriverOk(m.st) && Consistent(m.st, m.allocs, m.fate) }

  /** The part of it that no operation disturbs: every reservation has an entry or is stranded. */
  ghost predicate Accounted(m: Moment) { DriverOk(m.st) && RangesKnown(m) }

  ghost predicate RangesKnown(m: Moment) { RangesOk(m.st.reserved, m.allocs, m.fate) }

  // ---------------------------------------------------------------- taking chunks back

  /** Whether the driver finds chunk `j` mapped where it is supposed to be. */
  predicate Found(mapped: map<nat, Mapping>, base: nat, chunks: seq<nat>, j: nat)
    requires j < |chunks|
  {
    var x := base + Offset(chunks, j);
    x in mapped && mapped[x].size == chunks[j]
  }

  /** Unmapping the first `n` chunks removes those that are found, whoever they belong to. */
  ghost function UnmapAll(mapped: map<nat, Mapping>, base: nat, chunks: seq<nat>, n: nat): map<nat, Mapping>
    requires n <= |chunks|
  {
    if n == 0 then mapped
    else
      var rest := UnmapAll(mapped, base, chunks, n - 1);
      if Found(mapped, base, chunks, n - 1) then rest - {base + Offset(chunks, n - 1)} else rest
  }

  /** The driver after `unmap_and_release` for the given entry. */
  ghost function Stripped(st: DriverState, p: nat, a: Allocation): DriverState {
    st.(handles := st.handles - Elements(a.cells), mapped := UnmapAll(st.mapped, p, a.chunks, |a.chunks|))
  }

  lemma {:induction false} UnmapAllOfOthers(mapped: map<nat, Mapping>, base: nat, chunks: seq<nat>, n: nat, x: nat)
    requires n <= |chunks|
    ensures x in UnmapAll(mapped, base, chunks, n) ==> x in mapped && UnmapAll(mapped, base, chunks, n)[x] == mapped[x]
    ensures x in mapped && x !in UnmapAll(mapped, base, chunks, n) ==>
      exists j :: 0 <= j < n && Found(mapped, base, chunks, j) && x == base + Offset(chunks, j)
    ensures forall j | 0 <= j < n && Found(mapped, base, chunks, j) ::
      base + Offset(chunks, j) !in UnmapAll(mapped, base, chunks, n)
  {
    if n > 0 { UnmapAllOfOthers(mapped, base, chunks, n - 1, x); }
  }

  /** If the first chunks are mapped to their cells, exactly these mappings go. */
  lemma {:induction false} UnmapAllOfPart(mapped: map<nat, Mapping>, base: nat, chunks: seq<nat>, cells: seq<nat>,
                                          n: nat)
    requires Positive(chunks) && n <= |chunks| == |cells| && Includes(mapped, MapPart(base, chunks, cells, n))
    ensures UnmapAll(mapped, base, chunks, n) == mapped - MapPart(base, chunks, cells, n).Keys
    ensures forall j | 0 <= j < n :: Found(mapped, base, chunks, j)
  {
    hide MapPart, UnmapAll, Positive;
    forall j | 0 <= j < n
      ensures Found(mapped, base, chunks, j) && base + Offset(chunks, j) in MapPart(base, chunks, cells, n)
    {
      MapPartAt(base, chunks, cells, n, j);
    }
    forall x
      ensures x in UnmapAll(mapped, base, chunks, n) <==> x in mapped - MapPart(base, chunks, cells, n).Keys
      ensures x in UnmapAll(mapped, base, chunks, n) ==> UnmapAll(mapped, base, chunks, n)[x] == mapped[x]
    {
      UnmapAllOfOthers(mapped, base, chunks, n, x);
      if x in MapPart(base, chunks, cells, n) { var j := KeyOfPart(base, chunks, cells, n, x); }
    }
  }

  lemma {:induction false} UnmapAllOfOwn(mapped: map<nat, Mapping>, p: nat, a: Allocation)
    requires ShapeOk(a) && Includes(mapped, Maps(p, a))
    ensures UnmapAll(mapped, p, a.chunks, |a.chunks|) == mapped - Maps(p, a).Keys
    ensures forall j | 0 <= j < |a.chunks| :: Found(mapped, p, a.chunks, j)
  {
    UnmapAllOfPart(mapped, p, a.chunks, a.cells, |a.chunks|);
  }

  /** Unmapping earlier chunks does not touch a later one. */
  lemma StillFound(mapped: map<nat, Mapping>, base: nat, chunks: seq<nat>, j: nat)
    requires Positive(chunks) && j < |chunks|
    ensures var x := base + Offset(chunks, j);
      (x in UnmapAll(mapped, base, chunks, j) && UnmapAll(mapped, base, chunks, j)[x].size == chunks[j]) <==>
        Found(mapped, base, chunks, j)
    ensures UnmapAll(mapped, base, chunks, j + 1) ==
      if Found(mapped, base, chunks, j) then UnmapAll(mapped, base, chunks, j) - {base + Offset(chunks, j)}
      else UnmapAll(mapped, base, chunks, j)
  {
    var x := base + Offset(chunks, j);
    UnmapAllOfOthers(mapped, base, chunks, j, x);
    forall i | 0 <= i < j
      ensures Offset(chunks, i) < Offset(chunks, j)
    {
      OffsetIncreases(chunks, i, j);
    }
  }

  lemma ChunkOfKey(p: nat, a: Allocation, x: nat) returns (j: nat)
    requires ShapeOk(a) && x in Maps(p, a)
    ensures j < |a.chunks| && x == p + Offset(a.chunks, j)
  {
    j := KeyOfPart(p, a.chunks, a.cells, |a.chunks|, x);
  }

  lemma {:induction false} KeyOfPart(base: nat, chunks: seq<nat>, cells: seq<nat>, n: nat, x: nat) returns (j: nat)
    requires n <= |chunks| && n <= |cells| && x in MapPart(base, chunks, cells, n)
    ensures j < n && x == base + Offset(chunks, j)
  {
    if x == base + Offset(chunks, n - 1) { j := n - 1; } else { j := KeyOfPart(base, chunks, cells, n - 1, x); }
  }

  lemma {:induction false} NothingFound(mapped: map<nat, Mapping>, base: nat, chunks: seq<nat>, n: nat)
    requires n <= |chunks| && forall j | 0 <= j < n :: !Found(mapped, base, chunks, j)
    ensures UnmapAll(mapped, base, chunks, n) == mapped
  {
    if n > 0 { NothingFound(mapped, base, chunks, n - 1); }
  }

  lemma HandleKeys(a: Allocation)
    requires ShapeOk(a)
    ensures Handles(a).Keys == Elements(a.cells)
  {
    HandlePartKeys(a.chunks, a.cells, |a.chunks|);
    assert a.cells[..|a.chunks|] == a.cells;
  }

  // ---------------------------------------------------------------- dead entries

  /** Taking back the chunks of a dead entry hits no mapping, and no handle but leaked ones. */
  predicate Harmless(st: DriverState, fate: Fate, p: nat, a: Allocation) {
    && (forall j | 0 <= j < |a.chunks| :: !Found(st.mapped, p, a.chunks, j))
    && (forall h | h in a.cells :: h in st.handles ==> h in fate.leaked)
  }

  predicate IsDead(m: Moment, p: nat) { p in m.allocs && !m.allocs[p].asleep && p in m.fate.dead }

  predicate Tame(m: Moment, p: nat)
    requires p in m.allocs
  {
    IsDead(m, p) ==> Harmless(m.st, m.fate, p, m.allocs[p])
  }

  /** An operation that takes back the chunks of a dead entry and hits those of others. */
  predicate Wild(m: Moment, op: Op) {
    match op
    case Malloc(_, _) => false
    case Wake(_) => false
    case Free(p, _) => p in m.allocs && !Tame(m, p)
    case Sleep(p) => p in m.allocs && !Tame(m, p)
    case Discard(p) => p in m.allocs && !Tame(m, p)
    case Trim(p) => p in m.allocs && !Tame(m, p)
  }

  ghost predicate Survives(m: Moment, p: nat)
    requires p in m.allocs
  {
    exists fate: Fate :: DifferAt(m.allocs, m.fate, m.allocs, fate, p) && p in fate.dead
                      && Consistent(Stripped(m.st, p, m.allocs[p]), m.allocs, fate)
  }

  /** Consistency survives the unloading of a dead entry exactly when it hits nothing that is alive. */
  lemma DeadUnloading(m: Moment, p: nat)
    requires Sound(m) && IsDead(m, p)
    ensures Survives(m, p) <==> Harmless(m.st, m.fate, p, m.allocs[p])
    ensures Harmless(m.st, m.fate, p, m.allocs[p]) ==>
      var gone := Elements(m.allocs[p].cells);
      && Stripped(m.st, p, m.allocs[p]) == m.st.(handles := m.st.handles - gone)
      && Consistent(Stripped(m.st, p, m.allocs[p]), m.allocs, WithLeaks(m.fate, m.fate.leaked - gone))
  {
    hide Consistent, UnmapAll, Robbed;
    var a := m.allocs[p];
    if Harmless(m.st, m.fate, p, a) {
      var fate := WithLeaks(m.fate, m.fate.leaked - Elements(a.cells));
      NothingFound(m.st.mapped, p, a.chunks, |a.chunks|);
      Unleak(m.st, m.allocs, m.fate, Elements(a.cells));
      assert DifferAt(m.allocs, m.fate, m.allocs, fate, p);
    } else {
      var q := WildHits(m, p);
      forall fate: Fate | DifferAt(m.allocs, m.fate, m.allocs, fate, p) && p in fate.dead
        ensures !Consistent(Stripped(m.st, p, a), m.allocs, fate)
      {
        RobbedIsInconsistent(Stripped(m.st, p, a), m.allocs, fate, q);
      }
    }
  }

  /** The driver misses a mapping or a handle of the entry. */
  ghost predicate Robbed(st: DriverState, q: nat, a: Allocation) {
    !Includes(st.mapped, Maps(q, a)) || !Includes(st.handles, Handles(a))
  }

  lemma RobbedIsInconsistent(st: DriverState, allocs: Table, fate: Fate, q: nat)
    requires Live(allocs, fate, q) && Robbed(st, q, allocs[q])
    ensures !Consistent(st, allocs, fate)
  {
    hide Consistent, Handles, Maps, Includes;
    if Consistent(st, allocs, fate) { LiveHeld(st, allocs, fate, q); }
  }

  lemma WildUnmapping(m: Moment, p: nat, j: nat) returns (q: nat)
    requires Sound(m) && IsDead(m, p) && j < |m.allocs[p].chunks| && Found(m.st.mapped, p, m.allocs[p].chunks, j)
    ensures q != p && Live(m.allocs, m.fate, q) && Robbed(Stripped(m.st, p, m.allocs[p]), q, m.allocs[q])
  {
    hide Consistent, UnmapAll, Handles, Maps, NoRepeats, ShapeOk;
    var a, x := m.allocs[p], p + Offset(m.allocs[p].chunks, j);
    UnmapAllOfOthers(m.st.mapped, p, a.chunks, |a.chunks|, x);
    q := OwnerOfMapping(m.st, m.allocs, m.fate, x);
  }

  /** Whoever owned what was hit is live in the registry and misses it. */
  lemma WildHits(m: Moment, p: nat) returns (q: nat)
    requires Sound(m) && IsDead(m, p) && !Harmless(m.st, m.fate, p, m.allocs[p])
    ensures q != p && Live(m.allocs, m.fate, q) && Robbed(Stripped(m.st, p, m.allocs[p]), q, m.allocs[q])
  {
    hide Consistent, UnmapAll, Handles, Maps, NoRepeats, ShapeOk;
    var a := m.allocs[p];
    if j :| 0 <= j < |a.chunks| && Found(m.st.mapped, p, a.chunks, j) {
      q := WildUnmapping(m, p, j);
    } else {
      var h :| h in a.cells && h in m.st.handles && h !in m.fate.leaked;
      q := OwnerOfHandle(m.st, m.allocs, m.fate, h);
    }
  }

  // ---------------------------------------------------------------- the operations

  /** None of the allocator's 64-bit roundings wraps for this request. */
  predicate RequestFits(size: nat, chunkSetting: Option<nat>, g: nat)
    requires 0 < g
  {
    && size + g - 1 < U64 && MemCreateChunkSize(chunkSetting) + g - 1 < U64
    && AlignUp(size, g) + AlignUp(MemCreateChunkSize(chunkSetting), g) - 1 < U64
  }

  /** They do not exactly if both sizes are rounded up rightly and together leave 64 bits, as all sizes in use do. */
  lemma FitsMeans(size: nat, chunkSetting: Option<nat>, g: nat)
    requires 0 < g < U64 && size < U64
    ensures var chunk := MemCreateChunkSize(chunkSetting);
      && (RequestFits(size, chunkSetting, g) <==>
            && IsRoundedUp(AlignUp(size, g), size, g) && IsRoundedUp(AlignUp(chunk, g), chunk, g)
            && AlignUp(size, g) + AlignUp(chunk, g) <= U64)
      && (size + chunk + 2 * g <= U64 ==> RequestFits(size, chunkSetting, g))
  {
    hide AlignUp, IsRoundedUp, MemCreateChunkSize;
    AlignUpExact(size, g);
    AlignUpExact(MemCreateChunkSize(chunkSetting), g);
  }

  /** The rounded size, cut into chunks of the rounded configured size. */
  predicate IsNew(a: Allocation, size: nat, chunkSetting: Option<nat>, g: nat)
    requires 0 < g
  {
    var chunk := AlignUp(MemCreateChunkSize(chunkSetting), g);
    !a.asleep && a.size == AlignUp(size, g) && 0 < chunk && a.chunks == Split(a.size, chunk)
  }

  /** `my_malloc`, given up before it had an address, for cause: nothing changes but the error code. */
  ghost predicate Refused(m: Moment, m': Moment, size: nat) {
    && m'.errorCode != 0 && m' == m.(errorCode := m'.errorCode, refusals := m'.refusals)
    && m.refusals <= m'.refusals && (m.errorCode != 0 || size == 0 || m.refusals < m'.refusals)
  }

  /** `my_malloc` at an address that was free: a new allocation, or the entry that the callback has written. */
  ghost predicate Malloced(g: nat, m: Moment, m': Moment, size: nat, chunkSetting: Option<nat>, d: nat)
    requires 0 < g
  {
    && m.errorCode == 0 && d % g == 0 && d in m'.allocs && m'.allocs == m.allocs[d := m'.allocs[d]]
    && d !in m.st.reserved && RangeFree(m.st.reserved, d, m'.allocs[d].size)
    && IsNew(m'.allocs[d], size, chunkSetting, g) && ShapeOk(m'.allocs[d])
    && m.refusals <= m'.refusals && (m'.errorCode != 0 ==> m.refusals < m'.refusals)
    && (m'.errorCode != 0 ==> m'.st == m.st && m'.fate == WithDeath(WithoutHome(m.fate, d), d))
    && (m'.errorCode == 0 ==>
          && m'.st.reserved == m.st.reserved[d := m'.allocs[d].size]
          && Loaded(m.st, m'.st, d, m'.allocs[d]) && m'.fate == WithoutDeath(WithHome(m.fate, d), d))
  }

  /** New distinct handles, mapped chunk after chunk. */
  ghost predicate Loaded(st: DriverState, st': DriverState, p: nat, a: Allocation) {
    && NoRepeats(a.cells) && Handles(a).Keys !! st.handles.Keys && Maps(p, a).Keys !! st.mapped.Keys
    && st'.handles == st.handles + Handles(a) && st'.mapped == st.mapped + Maps(p, a)
  }

  /** The driver and what became of the address, once its chunks have been taken back. */
  ghost function UnloadedSt(m: Moment, p: nat): DriverState
    requires p in m.allocs
  {
    if m.allocs[p].asleep then m.st else Stripped(m.st, p, m.allocs[p])
  }

  function UnloadedFate(m: Moment, p: nat): Fate
    requires p in m.allocs
  {
    if m.allocs[p].asleep then m.fate
    else if p in m.fate.dead then WithLeaks(m.fate, m.fate.leaked - Elements(m.allocs[p].cells))
    else WithDeath(m.fate, p)
  }

  function ErasedFate(fate: Fate, p: nat): Fate {
    WithoutDeath(if p in fate.homeless then WithHome(fate, p) else WithStranded(fate, p), p)
  }

  /** The entry is struck off; a reservation that was not given back is stranded. */
  function Erased(m: Moment, p: nat): Moment { m.(allocs := m.allocs - {p}, fate := ErasedFate(m.fate, p)) }

  /** The driver takes a reservation back if it is one, has that size and nothing is mapped in it. */
  ghost predicate GivesBack(st: DriverState, p: nat, size: nat) {
    p in st.reserved && st.reserved[p] == size && RangeUnmapped(st.mapped, p, size)
  }

  ghost function Unreserved(m: Moment, p: nat): Moment {
    m.(st := m.st.(reserved := m.st.reserved - {p}), fate := WithoutHome(m.fate, p))
  }

  ghost function Unloaded(m: Moment, p: nat): Moment
    requires p in m.allocs
  {
    m.(st := UnloadedSt(m, p), fate := UnloadedFate(m, p))
  }

  /** `my_free`, up to the error code. */
  ghost function Freed(m: Moment, p: nat, size: nat): Moment
    requires p in m.allocs
  {
    var u := Unloaded(m, p);
    Erased(if GivesBack(u.st, p, size) then Unreserved(u, p) else u, p)
  }

  /** All of the entry's chunks are mapped where they should be, and all of its handles are live. */
  ghost predicate AllThere(st: DriverState, p: nat, a: Allocation) {
    (forall j | 0 <= j < |a.chunks| :: Found(st.mapped, p, a.chunks, j)) && Releasable(st.handles, a.cells)
  }

  /** The handles can be released one after the other. */
  ghost predicate Releasable(handles: map<nat, nat>, cells: seq<nat>) {
    NoRepeats(cells) && forall h | h in cells :: h in handles
  }

  /** Unloading reports no error, or is not attempted. */
  ghost predicate Unloadable(m: Moment, p: nat)
    requires p in m.allocs
  {
    m.allocs[p].asleep || AllThere(m.st, p, m.allocs[p])
  }

  /** An error is left behind by missing chunks and by a range that is not given back. */
  ghost predicate FreeError(m: Moment, p: nat, size: nat, errorCode: nat)
    requires p in m.allocs
  {
    if GivesBack(UnloadedSt(m, p), p, size) && Unloadable(m, p) then errorCode == m.errorCode else errorCode != 0
  }

  /** The swap for a placeholder is attempted without a pending error, and works up to the reservation. */
  ghost predicate MayLose(m: Moment, p: nat)
    requires p in m.allocs
  {
    m.errorCode == 0 && Unloadable(m, p) && GivesBack(UnloadedSt(m, p), p, m.allocs[p].size)
  }

  /** `python_unmap_and_release`; the driver decides whether the same address can be reserved again. */
  ghost function Unmapped(m: Moment, p: nat, lost: bool): Moment
    requires p in m.allocs
  {
    var u := Unloaded(m, p).(errorCode := 0, refusals := m.refusals + OneIf(lost));
    if lost then Unreserved(u, p) else u
  }

  function MarkedAsleep(m: Moment, p: nat): Moment
    requires p in m.allocs
  {
    m.(allocs := m.allocs[p := m.allocs[p].(asleep := true)], fate := WithoutDeath(m.fate, p))
  }

  /**
   `python_create_and_map`. If the driver refuses nothing, the entry wakes up exactly when no error is
   pending and its places are vacant; with an error pending a first handle is created and leaked.
   */
  ghost predicate Woken(m: Moment, m': Moment, p: nat)
    requires p in m.allocs
  {
    && m'.errorCode == 0 && m.refusals <= m'.refusals <= m.refusals + 1
    && if m'.refusals == m.refusals && m.errorCode != 0 then Leaked(m, m', m.allocs[p])
       else if m'.refusals == m.refusals && Vacant(m.st, p, m.allocs[p].chunks) then AwakeAgain(m, m', p)
       else m' == m.(errorCode := 0, refusals := m'.refusals)
  }

  /** New chunks in place of the old ones. */
  ghost predicate AwakeAgain(m: Moment, m': Moment, p: nat)
    requires p in m.allocs
  {
    && p in m'.allocs && m'.fate == m.fate && m'.st.reserved == m.st.reserved
    && m'.allocs == m.allocs[p := m.allocs[p].(cells := m'.allocs[p].cells, asleep := false)]
    && |m'.allocs[p].cells| == |m.allocs[p].chunks| && Loaded(m.st, m'.st, p, m'.allocs[p])
  }

  ghost predicate Leaked(m: Moment, m': Moment, a: Allocation) {
    0 < |a.chunks| && exists h :: h !in m.st.handles && m' == Leaking(m, h, a.chunks[0])
  }

  function Leaking(m: Moment, h: nat, size: nat): Moment {
    m.(st := m.st.(handles := m.st.handles[h := size]), errorCode := 0, fate := WithLeaks(m.fate, m.fate.leaked + {h}))
  }

  ghost predicate Slept(m: Moment, m': Moment, p: nat, lost: bool)
    requires p in m.allocs
  {
    (lost ==> MayLose(m, p)) && m' == MarkedAsleep(Unmapped(m, p, lost), p)
  }

  /** Unlike sleeping, discarding marks the entry only if nothing went wrong. */
  ghost predicate Discarded(m: Moment, m': Moment, p: nat, lost: bool)
    requires p in m.allocs
  {
    && (lost ==> MayLose(m, p))
    && m' == if MayLose(m, p) && !lost then MarkedAsleep(Unmapped(m, p, lost), p) else Unmapped(m, p, lost)
  }

  ghost predicate Trimmed(m: Moment, m': Moment, p: nat, lost: bool)
    requires p in m.allocs
  {
    (lost ==> MayLose(m, p)) && m' == Erased(Unmapped(m, p, lost), p)
  }

  /**
   One operation. The registry is asked first: unknown addresses are not freed, and entries that are
   asleep already, or awake already, are passed over.
   */
  ghost predicate Follows(g: nat, m: Moment, op: Op, m': Moment)
    requires 0 < g
  {
    && DriverOk(m'.st)
    && match op
       case Malloc(size, setting) =>
         if RequestFits(size, setting, g)
         then Refused(m, m', size) || exists d: nat :: Malloced(g, m, m', size, setting, d)
         else m' == m
       case Free(p, size) =>
         if p !in m.allocs then m' == m
         else m' == Freed(m, p, size).(errorCode := m'.errorCode) && FreeError(m, p, size, m'.errorCode)
       case Sleep(p) =>
         if p !in m.allocs || m.allocs[p].asleep then m' == m else exists lost: bool :: Slept(m, m', p, lost)
       case Discard(p) =>
         if p !in m.allocs || m.allocs[p].asleep then m' == m else exists lost: bool :: Discarded(m, m', p, lost)
       case Trim(p) =>
         if p !in m.allocs then m' == m else exists lost: bool :: Trimmed(m, m', p, lost)
       case Wake(p) =>
         if p !in m.allocs || !m.allocs[p].asleep then m' == m else Woken(m, m', p)
  }
}
