/**
 Two launches that follow each other on every rank, perhaps with other codecs and so with other tile
 sizes: ranks may be one launch apart, and the same bytes may belong to different blocks. What a rank of
 the later launch writes must not hit what a rank of the earlier one has still to read.
 */
module LaunchBoundary {
  import Arith
  import opened Launches
  import opened TwoShot

  // ---------------------------------------------------------------- how far ranks can be apart

  /** The rank has begun with the tile after the first `n` of a block. */
  ghost predicate Begun<V>(me: Rank<V>, n: nat) { me.round > n || (me.round == n && me.phase != Send0(0)) }

  /**
   Launches go in order on a rank: one that has begun with tile `n` of a block, the first of the later
   launch, has finished all `n'` tiles that another block handles up to the end of the earlier launch.
   */
  ghost predicate InLaunchOrder<V>(ranks: seq<Rank<V>>, ranks': seq<Rank<V>>, n: nat, n': nat) {
    |ranks| == |ranks'| && forall r | 0 <= r < |ranks| && Begun(ranks[r], n) :: ranks'[r].round >= n'
  }

  /** A rank in the later launch, whose blocks are all past the earlier one, and one that is not yet there. */
  ghost predicate Ahead<V>(job: Job<V>, job': Job<V>, st: State<V>, st': State<V>, n: nat, n': nat, a: nat, d: nat) {
    && Inv(job, st) && Inv(job', st') && job.world == job'.world && InLaunchOrder(st.ranks, st'.ranks, n, n')
    && a < job.world && d < job.world
    && st.ranks[a].round >= n && st'.ranks[a].round >= n' && st'.ranks[d].round < n'
  }

  /**
   Then the one behind is in its last tile and has everything of the first phase; the one ahead is in the
   first tile of the later launch and has not seen the other's first flag.
   */
  lemma RanksStayClose<V>(job: Job<V>, job': Job<V>, st: State<V>, st': State<V>, n: nat, n': nat, a: nat, d: nat)
    requires Ahead(job, job', st, st', n, n', a, d)
    ensures st'.ranks[d].round == n' - 1 && (st'.ranks[d].phase.Flag1? || st'.ranks[d].phase.Recv1?)
    ensures st.ranks[a].round == n
    ensures st.ranks[a].phase.Send0? || st.ranks[a].phase.Flag0? || st.ranks[a].phase.Recv0?
  {
    assert PairOk(job', st', a, d) && PairOk(job, st, a, d);
    assert !Begun(st.ranks[d], n);
    assert RankOk(job, a, st.ranks[a]);
  }

  // ---------------------------------------------------------------- what is written and what is still to be read

  /** The slot that a step of a rank writes into a peer's buffer. */
  ghost predicate Writes<V>(phase: Phase<V>, block: nat, rank: nat, s: Slot) {
    match phase
    case Send0(_) => s == Data(false, block, rank)
    case Flag0(_) => s == Flag(false, block, rank)
    case Recv0(_, _) => false
    case Send1(_, _) => s == Data(true, block, rank)
    case Flag1(_) => s == Flag(true, block, rank)
    case Recv1(_, _) => false
  }

  /** The slots of its own buffer that a rank reads before the end of the tile it is at. */
  ghost predicate ToRead<V>(me: Rank<V>, world: nat, block: nat, s: Slot) {
    s.block == block && s.rank < world && if s.second then !Got1(me, s.rank) else !Got0(me, s.rank)
  }

  /** Slots of two launches with transmitted tiles of different size share a byte. */
  ghost predicate Collide(s: Slot, tile: nat, s': Slot, tile': nat, world: nat, phaseSize: nat) {
    var i, i' := SlotOffset(s, world, tile, phaseSize), SlotOffset(s', world, tile', phaseSize);
    i < i' + SlotSize(s', tile') && i' < i + SlotSize(s, tile)
  }

  /** A row of earlier tiles keeps clear of the first-phase flags and tiles of the later launch. */
  predicate RowClear(start: nat, size: nat, world: nat, tile: nat, grid: nat) {
    && RowStart(grid, world, 4) <= start
    && (start + size <= FlagBytes(world) || FlagBytes(world) + RowStart(grid, world, tile) <= start)
  }

  predicate BoundaryClear(world: nat, tile: nat, grid: nat, tile': nat, grid': nat, phaseSize: nat) {
    forall b | 0 <= b < grid' ::
      RowClear(RowOffset(true, b, world, tile', phaseSize), RowSize(world, tile'), world, tile, grid)
  }

  /** First-phase slots of the later launch, and second-phase slots of the earlier one. */
  ghost predicate BoundaryApart(world: nat, tile: nat, grid: nat, tile': nat, grid': nat, phaseSize: nat) {
    forall s, s' | SlotOf(s, world, grid) && !s.second && SlotOf(s', world, grid') && s'.second ::
      !Collide(s, tile, s', tile', world, phaseSize)
  }

  /** They share no byte exactly if every earlier second-phase row keeps clear of the later first phase. */
  lemma ApartWhenClear(world: nat, tile: nat, grid: nat, tile': nat, grid': nat, phaseSize: nat)
    requires Wired(world, tile, grid) && Wired(world, tile', grid')
    ensures BoundaryApart(world, tile, grid, tile', grid', phaseSize) <==>
      BoundaryClear(world, tile, grid, tile', grid', phaseSize)
  {
    hide RowOffset, RowClear, Wired, Collide;
    if BoundaryClear(world, tile, grid, tile', grid', phaseSize) {
      forall s, s' | SlotOf(s, world, grid) && !s.second && SlotOf(s', world, grid') && s'.second
        ensures !Collide(s, tile, s', tile', world, phaseSize)
      {
        ClearSlots(s, tile, grid, s', tile', grid', world, phaseSize);
      }
    } else {
      var b: nat :| b < grid' &&
        !RowClear(RowOffset(true, b, world, tile', phaseSize), RowSize(world, tile'), world, tile, grid);
      var s, s' := CollisionIn(world, tile, grid, tile', grid', phaseSize, b);
    }
  }

  lemma ClearSlots(s: Slot, tile: nat, grid: nat, s': Slot, tile': nat, grid': nat, world: nat, phaseSize: nat)
    requires Wired(world, tile, grid) && Wired(world, tile', grid')
    requires SlotOf(s, world, grid) && !s.second && SlotOf(s', world, grid') && s'.second
    requires BoundaryClear(world, tile, grid, tile', grid', phaseSize)
    ensures !Collide(s, tile, s', tile', world, phaseSize)
  {
    hide RowStart, RowSize, CellStart, RowOffset, Wired;
    SlotInTable(s, world, tile, phaseSize, grid);
    FirstRow(0, world, tile, phaseSize, grid);
    FirstRow(0, world, tile', phaseSize, grid');
    if s'.Flag? {
      SlotInTable(s', world, tile', phaseSize, grid');
    } else {
      CellEnds(s'.rank, world, world, tile');
      assert RowClear(RowOffset(true, s'.block, world, tile', phaseSize), RowSize(world, tile'), world, tile, grid);
    }
  }

  /** A row that does not keep clear has a tile that collides. */
  lemma CollisionIn(world: nat, tile: nat, grid: nat, tile': nat, grid': nat, phaseSize: nat, b: nat)
    returns (s: Slot, s': Slot)
    requires Wired(world, tile, grid) && Wired(world, tile', grid') && b < grid'
    requires !RowClear(RowOffset(true, b, world, tile', phaseSize), RowSize(world, tile'), world, tile, grid)
    ensures SlotOf(s, world, grid) && !s.second && SlotOf(s', world, grid') && s'.second
    ensures Collide(s, tile, s', tile', world, phaseSize)
  {
    hide RowStart, RowSize, CellStart, RowOffset, Wired;
    WiredGrid(world, tile, grid);
    WiredGrid(world, tile', grid');
    FirstRow(0, world, tile, phaseSize, grid);
    var start := RowOffset(true, b, world, tile', phaseSize);
    var isFlag := start < RowStart(grid, world, 4);
    var byte := if isFlag || FlagBytes(world) <= start then start else FlagBytes(world);
    var table := if isFlag then Flag(false, 0, 0) else Data(false, 0, 0);
    TableNotEmpty(world, tile, grid);
    s := SlotOfByte(byte, table, world, tile, phaseSize, grid);
    var rank := RankOfByte(byte - start, world, tile');
    s' := Data(true, b, rank);
  }

  lemma TableNotEmpty(world: nat, tile: nat, grid: nat)
    requires Wired(world, tile, grid)
    ensures 0 < RowStart(grid, world, tile)
  {
    WiredGrid(world, tile, grid);
    Arith.MulAtLeast(grid, RowSize(world, tile));
  }

  // ---------------------------------------------------------------- the theorem

  /**
   Nothing that a rank writes in the later launch, in whichever block, hits a byte that a rank in the
   earlier one has still to read, in whichever block of its own buffer.
   */
  lemma NextLaunchIsSafe<V>(job: Job<V>, job': Job<V>, st: State<V>, st': State<V>, n: nat, n': nat, a: nat, d: nat,
                            tile: nat, grid: nat, block: nat, tile': nat, grid': nat, block': nat, phaseSize: nat)
    requires Ahead(job, job', st, st', n, n', a, d) && block < grid && block' < grid'
    requires Wired(job.world, tile, grid) && Wired(job.world, tile', grid')
    requires BoundaryClear(job.world, tile, grid, tile', grid', phaseSize)
    ensures forall s, s' | Writes(st.ranks[a].phase, block, a, s) && ToRead(st'.ranks[d], job.world, block', s') ::
      !Collide(s, tile, s', tile', job.world, phaseSize)
  {
    hide PairOk, RankOk, InLaunchOrder, Wired, BoundaryClear, Collide;
    RanksStayClose(job, job', st, st', n, n', a, d);
    ApartWhenClear(job.world, tile, grid, tile', grid', phaseSize);
    forall s, s' | Writes(st.ranks[a].phase, block, a, s) && ToRead(st'.ranks[d], job.world, block', s')
      ensures !Collide(s, tile, s', tile', job.world, phaseSize)
    {
      assert SlotOf(s, job.world, grid) && !s.second && SlotOf(s', job.world, grid') && s'.second;
    }
  }

  /** Without truncation the boundary is clear exactly if the later launch's tiles fit in the phase size. */
  lemma ClearWithoutTruncation(world: nat, tile: nat, grid: nat, tile': nat, grid': nat, phaseSize: nat)
    requires Wired(world, tile, grid) && Wired(world, tile', grid')
    requires FlagBytes(world) + phaseSize + RowStart(grid', world, tile') <= U32
    ensures BoundaryClear(world, tile, grid, tile', grid', phaseSize) <==> RowStart(grid, world, tile) <= phaseSize
  {
    hide RowStart, RowSize, CellStart, RowOffset, Wired, FlagBytes;
    WiredGrid(world, tile, grid);
    WiredGrid(world, tile', grid');
    FirstRow(0, world, tile, phaseSize, grid);
    forall b | 0 <= b < grid'
      ensures RowOffset(true, b, world, tile', phaseSize) >= FlagBytes(world) + phaseSize
    {
      SecondRow(b, world, tile', phaseSize, grid');
    }
    SecondRow(0, world, tile', phaseSize, grid');
    NoRows(world, tile');
    assert BoundaryClear(world, tile, grid, tile', grid', phaseSize) ==>
      RowClear(RowOffset(true, 0, world, tile', phaseSize), RowSize(world, tile'), world, tile, grid);
  }

  /** With the default phase size every two launches may follow each other. */
  lemma DefaultBoundaryIsClear(world: nat, tile: nat, grid: nat, tile': nat, grid': nat)
    requires Wired(world, tile, grid) && Wired(world, tile', grid')
    ensures BoundaryClear(world, tile, grid, tile', grid', 0x8000_0000)
  {
    hide RowStart, Wired, BoundaryClear;
    HeadIsSmall(world, tile, grid);
    HeadIsSmall(world, tile', grid');
    ClearWithoutTruncation(world, tile, grid, tile', grid', 0x8000_0000);
  }
}
