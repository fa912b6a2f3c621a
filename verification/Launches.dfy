/**
 How an all-reduce is cut into tiles, spread over thread blocks and coloured: the grid-stride loop
 of the kernel, and the per-block counters in device memory that survive from launch to launch.
 */
module Launches {
  import Arith
  import TwoShot
  import opened Wrappers

  const TILE: nat := 256 * 8 * 16        // bytes handled by one workgroup iteration
  const MAX_BLOCKS: nat := 304 * 4
  const U32: nat := 0x1_0000_0000

  datatype Error = UnsupportedWorldSize | UnsupportedQuantLevel | EmptyLaunch

  function DivCeil(x: nat, y: nat): nat
    requires y > 0
  {
    (x + y - 1) / y
  }

  /** The message size is held in 32 bits. */
  function NumBlocks(n: nat, elementSize: nat): nat { DivCeil(n * elementSize % U32, TILE) }

  function Grid(numBlocks: nat): nat { if MAX_BLOCKS < numBlocks then MAX_BLOCKS else numBlocks }

  /** The tiles cover the message exactly when its size fits in 32 bits; no tile is superfluous. */
  lemma TilesCoverMessage(n: nat, elementSize: nat)
    ensures n * elementSize <= NumBlocks(n, elementSize) * TILE <==> n * elementSize < U32
    ensures n * elementSize < U32 && n * elementSize > 0 ==> (NumBlocks(n, elementSize) - 1) * TILE < n * elementSize
    ensures n * elementSize % U32 <= NumBlocks(n, elementSize) * TILE < n * elementSize % U32 + TILE
  {
    var bytes := n * elementSize;
    assert bytes % U32 <= NumBlocks(n, elementSize) * TILE < bytes % U32 + TILE;
  }

  /** Iterations of block `b`: the tiles b, b + grid, b + 2 * grid, ... below `numBlocks`. */
  function TileCount(b: nat, grid: nat, numBlocks: nat): nat
    requires grid > 0
  {
    if b < numBlocks then (numBlocks - 1 - b) / grid + 1 else 0
  }

  lemma TileCountStep(b: nat, grid: nat, numBlocks: nat)
    requires grid > 0 && b < numBlocks
    ensures TileCount(b, grid, numBlocks) == TileCount(b + grid, grid, numBlocks) + 1
  {
    var x := numBlocks - 1 - b;
    Arith.DivUnique(x, x / grid, x % grid, grid);
    if b + grid < numBlocks {
      assert x - grid == (x / grid - 1) * grid + x % grid;
      Arith.DivUnique(x - grid, x / grid - 1, x % grid, grid);
    } else {
      Arith.DivUnique(x, 0, x, grid);
    }
  }

  /** A block has a tile of its own, and a second one only if there are more tiles than blocks. */
  lemma FewTiles(b: nat, grid: nat, numBlocks: nat)
    requires b < grid <= numBlocks
    ensures 0 < TileCount(b, grid, numBlocks) && (1 < TileCount(b, grid, numBlocks) ==> grid < numBlocks)
  {
    var x := numBlocks - 1 - b;
    if x < grid { Arith.DivUnique(x, 0, x, grid); }
  }

  /** The tile that block `b` handles in its iteration `i`. */
  function Tile(b: nat, i: nat, grid: nat): nat { b + i * grid }

  lemma TileNext(b: nat, i: nat, grid: nat)
    ensures Tile(b, i + 1, grid) == Tile(b, i, grid) + grid
  {
  }

  /** Every tile is handled by exactly one block, in exactly one of its iterations. */
  lemma EachTileOnce(t: nat, grid: nat, numBlocks: nat)
    requires grid > 0 && t < numBlocks
    ensures t % grid < grid && t / grid < TileCount(t % grid, grid, numBlocks) && Tile(t % grid, t / grid, grid) == t
    ensures forall b, i | 0 <= b < grid && 0 <= i && Tile(b, i, grid) == t :: b == t % grid && i == t / grid
  {
    var x := numBlocks - 1 - t % grid;
    assert t == t / grid * grid + t % grid;
    if x / grid + 1 <= t / grid { Arith.MulMonotone(grid, x / grid + 1, t / grid); }
    forall b, i | 0 <= b < grid && 0 <= i && Tile(b, i, grid) == t ensures b == t % grid && i == t / grid {
      Arith.DivUnique(t, i, b, grid);
    }
  }

  lemma {:induction false} TilesInRange(b: nat, i: nat, grid: nat, numBlocks: nat)
    requires grid > 0 && i < TileCount(b, grid, numBlocks)
    ensures Tile(b, i, grid) < numBlocks
  {
    Arith.MulMonotone(grid, i, (numBlocks - 1 - b) / grid);
  }

  /** What one call of the all-reduce is given. */
  datatype Launch = Launch(n: nat, elementSize: nat, quantLevel: nat)

  /** The launches that are not rejected: a supported world, level 4 only for two ranks, something to send. */
  predicate Accepted(worldSize: nat, l: Launch) {
    worldSize in {2, 4, 8} && (l.quantLevel == 4 ==> worldSize == 2) && NumBlocks(l.n, l.elementSize) > 0
  }

  /** Tiles that slot `b` handles in one launch. */
  function LaunchTiles(worldSize: nat, l: Launch, b: nat): nat {
    if !Accepted(worldSize, l) then 0
    else
      var numBlocks := NumBlocks(l.n, l.elementSize);
      if b < Grid(numBlocks) then TileCount(b, Grid(numBlocks), numBlocks) else 0
  }

  /** Tiles that slot `b` has handled after the launches. */
  function SlotTiles(worldSize: nat, launches: seq<Launch>, b: nat): nat {
    if launches == [] then 0
    else
      var last := |launches| - 1;
      SlotTiles(worldSize, launches[..last], b) + LaunchTiles(worldSize, launches[last], b)
  }

  lemma AddMod(a: nat, k: nat)
    ensures (a % U32 + k) % U32 == (a + k) % U32
  {
  }

  class DeviceComms {
    const worldSize: nat
    const flagCounters: array<nat>

    ghost predicate Valid()
      reads this, flagCounters
    {
      flagCounters.Length == MAX_BLOCKS && forall b | 0 <= b < MAX_BLOCKS :: flagCounters[b] < U32
    }

    constructor (worldSize: nat)
      ensures Valid() && this.worldSize == worldSize && fresh(flagCounters)
      ensures forall b | 0 <= b < MAX_BLOCKS :: flagCounters[b] == 1
    {
      this.worldSize := worldSize;
      flagCounters := new nat[MAX_BLOCKS](_ => 1);
    }

    /** One thread block of the kernel; `tiles` and `colours` record what it ran, in order. */
    method KernelBlock(blockIdx: nat, grid: nat, numBlocks: nat) returns (tiles: seq<nat>, colours: seq<nat>)
      requires Valid() && blockIdx < grid <= MAX_BLOCKS
      modifies flagCounters
      ensures Valid()
      ensures |tiles| == |colours| == TileCount(blockIdx, grid, numBlocks)
      ensures forall i | 0 <= i < |tiles| ::
        tiles[i] == Tile(blockIdx, i, grid) && colours[i] == (old(flagCounters[blockIdx]) + i) % U32
      ensures flagCounters[blockIdx] == (old(flagCounters[blockIdx]) + |tiles|) % U32
      ensures forall b | 0 <= b < MAX_BLOCKS && b != blockIdx :: flagCounters[b] == old(flagCounters[b])
    {
      var block, flagColor := blockIdx, flagCounters[blockIdx];
      tiles, colours := [], [];
      while block < numBlocks
        invariant |tiles| == |colours| && block == Tile(blockIdx, |tiles|, grid)
        invariant |tiles| + TileCount(block, grid, numBlocks) == TileCount(blockIdx, grid, numBlocks)
        invariant forall i | 0 <= i < |tiles| ::
          tiles[i] == Tile(blockIdx, i, grid) && colours[i] == (old(flagCounters[blockIdx]) + i) % U32
        invariant flagColor == (old(flagCounters[blockIdx]) + |tiles|) % U32
        invariant flagCounters[..] == old(flagCounters[..])
        decreases numBlocks - block
      {
        TileCountStep(block, grid, numBlocks);
        TileNext(blockIdx, |tiles|, grid);
        AddMod(old(flagCounters[blockIdx]) + |tiles|, 1);
        tiles, colours := tiles + [block], colours + [flagColor];
        block := block + grid;
        flagColor := (flagColor + 1) % U32;
      }
      flagCounters[blockIdx] := flagColor;
    }

    /** A launch, or the exception it raises. Blocks touch only their own counter, so their order is irrelevant. */
    method AllReduce(l: Launch) returns (r: Result<seq<seq<nat>>, Error>)
      requires Valid()
      modifies flagCounters
      ensures Valid()
      ensures r.Ok? <==> Accepted(worldSize, l)
      ensures r == Err(UnsupportedWorldSize) <==> worldSize !in {2, 4, 8}
      ensures r == Err(UnsupportedQuantLevel) <==> worldSize in {4, 8} && l.quantLevel == 4
      ensures r.Ok? ==>
        && 0 < |r.value| <= MAX_BLOCKS && (forall b | 0 <= b < |r.value| :: 0 < |r.value[b]|)
        && ((exists b :: 0 <= b < |r.value| && 1 < |r.value[b]|) ==> |r.value| == MAX_BLOCKS)
      ensures r.Err? ==> flagCounters[..] == old(flagCounters[..])
      ensures r.Ok? ==>
        var numBlocks := NumBlocks(l.n, l.elementSize);
        var grid := Grid(numBlocks);
        && |r.value| == grid
        && (forall b | 0 <= b < grid :: |r.value[b]| == TileCount(b, grid, numBlocks))
        && (forall b, i | 0 <= b < grid && 0 <= i < |r.value[b]| :: r.value[b][i] == Tile(b, i, grid))
      ensures forall b | 0 <= b < MAX_BLOCKS ::
        flagCounters[b] == (old(flagCounters[b]) + LaunchTiles(worldSize, l, b)) % U32
    {
      hide NumBlocks, TileCount, Tile;
      if worldSize != 2 && worldSize != 4 && worldSize != 8 { return Err(UnsupportedWorldSize); }
      var numBlocks := NumBlocks(l.n, l.elementSize);
      var grid := Grid(numBlocks);
      if l.quantLevel == 4 && worldSize != 2 { return Err(UnsupportedQuantLevel); }
      if grid == 0 { return Err(EmptyLaunch); }
      var perBlock: seq<seq<nat>> := [];
      for b := 0 to grid
        invariant Valid() && |perBlock| == b
        invariant forall c | 0 <= c < b :: |perBlock[c]| == TileCount(c, grid, numBlocks)
        invariant forall c, i | 0 <= c < b && 0 <= i < |perBlock[c]| :: perBlock[c][i] == Tile(c, i, grid)
        invariant forall c | 0 <= c < MAX_BLOCKS ::
          flagCounters[c] == (old(flagCounters[c]) + if c < b then TileCount(c, grid, numBlocks) else 0) % U32
      {
        var tiles, _ := KernelBlock(b, grid, numBlocks);
        perBlock := perBlock + [tiles];
      }
      r := Ok(perBlock);
      forall b | 0 <= b < grid
        ensures 0 < TileCount(b, grid, numBlocks) && (1 < TileCount(b, grid, numBlocks) ==> grid < numBlocks)
      {
        FewTiles(b, grid, numBlocks);
      }
    }

    /**
     Any run of launches, rejected ones included. The counters depend on nothing but the launches, so
     all ranks that ran the same ones agree; slot b is at the colour of the tile it will handle next.
     */
    method Replay(launches: seq<Launch>)
      requires Valid() && forall b | 0 <= b < MAX_BLOCKS :: flagCounters[b] == 1
      modifies flagCounters
      ensures Valid()
      ensures forall b | 0 <= b < MAX_BLOCKS ::
        flagCounters[b] == TwoShot.Colour(SlotTiles(worldSize, launches, b))
    {
      hide LaunchTiles;
      for k := 0 to |launches|
        invariant Valid()
        invariant forall b | 0 <= b < MAX_BLOCKS ::
          flagCounters[b] == TwoShot.Colour(SlotTiles(worldSize, launches[..k], b))
      {
        ghost var before := flagCounters[..];
        var _ := AllReduce(launches[k]);
        forall b | 0 <= b < MAX_BLOCKS
          ensures flagCounters[b] == TwoShot.Colour(SlotTiles(worldSize, launches[..k + 1], b))
        {
          assert before[b] == TwoShot.Colour(SlotTiles(worldSize, launches[..k], b));
          NextLaunch(worldSize, launches, k, b);
        }
      }
      assert launches[..|launches|] == launches;
    }
  }

  lemma {:induction false} NextLaunch(worldSize: nat, launches: seq<Launch>, k: nat, b: nat)
    requires k < |launches|
    ensures TwoShot.Colour(SlotTiles(worldSize, launches[..k + 1], b)) ==
      (TwoShot.Colour(SlotTiles(worldSize, launches[..k], b)) + LaunchTiles(worldSize, launches[k], b)) % U32
  {
    hide LaunchTiles;
    assert launches[..k + 1][..k] == launches[..k];
    AddMod(1 + SlotTiles(worldSize, launches[..k], b), LaunchTiles(worldSize, launches[k], b));
  }

  /** Within 2^32 consecutive tiles of a slot no colour repeats; the reset value 0 is first met after 2^32 - 1. */
  lemma ColoursStayFresh(k: nat, m: nat)
    requires k < m < k + U32
    ensures TwoShot.Colour(k) != TwoShot.Colour(m)
    ensures TwoShot.Colour(k) == 0 <==> k % U32 == U32 - 1
  {
  }

  // ---------------------------------------------------------------- the communication buffer

  datatype Slot = Flag(second: bool, block: nat, rank: nat) | Data(second: bool, block: nat, rank: nat)

  /** Bytes of flags at the head of the buffer: two phases, one 32-bit flag per block and rank. */
  function FlagBytes(world: nat): nat { 2 * world * MAX_BLOCKS * 4 }

  function SlotSize(s: Slot, rankTile: nat): nat { if s.Flag? then 4 else rankTile }

  /** At most eight ranks, and no codec transmits more than the tile it is given. */
  predicate Wired(world: nat, rankTile: nat, grid: nat) {
    0 < world <= 8 && 0 < rankTile && rankTile * world <= TILE && 0 < grid <= MAX_BLOCKS
  }

  /** Tables are row-major: one row per block, one cell per rank. */
  function RowSize(world: nat, size: nat): nat { size * world }

  function RowStart(block: nat, world: nat, size: nat): nat { block * RowSize(world, size) }

  function CellStart(rank: nat, size: nat): nat { rank * size }

  /** Where the tiles that a block transmits start: both phases' offsets are 32-bit numbers. */
  function RowOffset(second: bool, block: nat, world: nat, rankTile: nat, phaseSize: nat): nat {
    var first := (FlagBytes(world) + RowStart(block, world, rankTile)) % U32;
    if second then (phaseSize + first) % U32 else first
  }

  /** Offset of a slot for transmitted tiles of `rankTile` bytes per rank and the given phase size. */
  function SlotOffset(s: Slot, world: nat, rankTile: nat, phaseSize: nat): nat {
    match s
    case Flag(second, block, rank) =>
      (if second then FlagBytes(world) / 2 else 0) + RowStart(block, world, 4) + CellStart(rank, 4)
    case Data(second, block, rank) =>
      RowOffset(second, block, world, rankTile, phaseSize) + CellStart(rank, rankTile)
  }

  ghost predicate Holds(s: Slot, byte: nat, world: nat, rankTile: nat, phaseSize: nat) {
    var start := SlotOffset(s, world, rankTile, phaseSize);
    start <= byte < start + SlotSize(s, rankTile)
  }

  ghost predicate Overlap(a: Slot, b: Slot, world: nat, rankTile: nat, phaseSize: nat) {
    var i, j := SlotOffset(a, world, rankTile, phaseSize), SlotOffset(b, world, rankTile, phaseSize);
    i < j + SlotSize(b, rankTile) && j < i + SlotSize(a, rankTile)
  }

  ghost predicate SlotOf(s: Slot, world: nat, grid: nat) { s.block < grid && s.rank < world }

  ghost predicate AllDisjoint(world: nat, rankTile: nat, phaseSize: nat, grid: nat) {
    forall a, b | SlotOf(a, world, grid) && SlotOf(b, world, grid) && a != b ::
      !Overlap(a, b, world, rankTile, phaseSize)
  }

  /** A row ends where the next one starts. */
  lemma RowEnds(block: nat, world: nat, size: nat, grid: nat)
    requires block < grid
    ensures RowStart(block, world, size) + RowSize(world, size) == RowStart(block + 1, world, size)
    ensures RowStart(block + 1, world, size) <= RowStart(grid, world, size)
  {
    Arith.MulMonotone(RowSize(world, size), block + 1, grid);
  }

  lemma RowsHaveSize(world: nat)
    requires 0 < world
    ensures 0 < RowSize(world, 4)
  {
  }

  /** A cell ends within its row, and before the next one of the row. */
  lemma CellEnds(rank: nat, rank': nat, world: nat, size: nat)
    requires rank < rank' <= world
    ensures CellStart(rank, size) + size <= CellStart(rank', size) <= RowSize(world, size)
  {
    Arith.MulMonotone(size, rank + 1, rank');
    Arith.MulMonotone(size, rank', world);
  }

  lemma RankOfByte(byte: nat, world: nat, size: nat) returns (rank: nat)
    requires size > 0 && byte < RowSize(world, size)
    ensures rank < world && CellStart(rank, size) <= byte < CellStart(rank, size) + size
  {
    Arith.MulCommutes(size, world);
    Arith.DivRows(byte, size, world);
    rank := byte / size;
  }

  /** Every byte of a table belongs to one of its cells. */
  lemma CellOfByte(byte: nat, world: nat, grid: nat, size: nat) returns (block: nat, rank: nat)
    requires world > 0 && size > 0 && byte < RowStart(grid, world, size)
    ensures block < grid && rank < world
    ensures var start := RowStart(block, world, size) + CellStart(rank, size); start <= byte < start + size
  {
    hide RowSize, CellStart;
    var row := RowSize(world, size);
    Arith.DivRows(byte, row, grid);
    block := byte / row;
    rank := RankOfByte(byte - block * row, world, size);
  }

  /** The first phase is far from the 32-bit limit. */
  lemma FirstRow(block: nat, world: nat, rankTile: nat, phaseSize: nat, grid: nat)
    requires Wired(world, rankTile, grid) && block < grid
    ensures RowOffset(false, block, world, rankTile, phaseSize) == FlagBytes(world) + RowStart(block, world, rankTile)
    ensures FlagBytes(world) + RowStart(grid, world, rankTile) < U32 - 0x8000_0000
    ensures RowStart(grid, world, 4) <= FlagBytes(world) / 2
  {
    var row := RowSize(world, rankTile);
    Arith.MulMonotone(row, block, grid);
    Arith.MulMonotone(grid, row, TILE);
    Arith.MulMonotone(TILE, grid, MAX_BLOCKS);
    Arith.MulMonotone(4 * world, grid, MAX_BLOCKS);
    var first := FlagBytes(world) + RowStart(block, world, rankTile);
    Arith.DivUnique(first, 0, first, U32);
  }

  /** Rows of the second phase stay apart, also where their 32-bit offsets wrap around. */
  lemma SecondRowsApart(b: nat, b': nat, world: nat, rankTile: nat, phaseSize: nat, grid: nat)
    requires Wired(world, rankTile, grid) && b < b' < grid
    ensures var x := RowOffset(true, b, world, rankTile, phaseSize);
      var y := RowOffset(true, b', world, rankTile, phaseSize);
      x + RowSize(world, rankTile) <= y || y + RowSize(world, rankTile) <= x
  {
    hide RowStart, RowSize, CellStart, Wired;
    FirstRow(b, world, rankTile, phaseSize, grid);
    FirstRow(b', world, rankTile, phaseSize, grid);
    RowEnds(b, world, rankTile, b');
    RowEnds(b', world, rankTile, grid);
    var x := phaseSize + FlagBytes(world) + RowStart(b, world, rankTile);
    TwoResidues(x, RowStart(b', world, rankTile) - RowStart(b, world, rankTile), RowSize(world, rankTile));
  }

  lemma TwoResidues(x: nat, d: nat, row: nat)
    requires row <= d && d + row <= U32
    ensures x % U32 + row <= (x + d) % U32 || (x + d) % U32 + row <= x % U32
  {
    AddMod(x, d);
  }

  /** A row that starts there lies behind the first phase, or in one of the gaps that unused flags leave. */
  predicate RowApart(start: nat, world: nat, rankTile: nat, grid: nat) {
    var end, flags, used := start + RowSize(world, rankTile), FlagBytes(world), RowStart(grid, world, 4);
    || flags + RowStart(grid, world, rankTile) <= start
    || (end <= flags && flags / 2 + used <= start)
    || (end <= flags / 2 && used <= start)
  }

  /** Each row of the second phase, at its 32-bit offset, keeps clear of the flags and of the first phase. */
  predicate SecondPhaseApart(world: nat, rankTile: nat, phaseSize: nat, grid: nat) {
    forall b | 0 <= b < grid :: RowApart(RowOffset(true, b, world, rankTile, phaseSize), world, rankTile, grid)
  }

  /** Slots in use never share a byte exactly when every second-phase row keeps clear of the other tables. */
  lemma SlotsAreDisjoint(world: nat, rankTile: nat, phaseSize: nat, grid: nat)
    requires Wired(world, rankTile, grid)
    ensures AllDisjoint(world, rankTile, phaseSize, grid) <==> SecondPhaseApart(world, rankTile, phaseSize, grid)
  {
    hide Overlap, RowApart, RowOffset, Wired;
    if SecondPhaseApart(world, rankTile, phaseSize, grid) {
      forall a, b | SlotOf(a, world, grid) && SlotOf(b, world, grid) && a != b
        ensures !Overlap(a, b, world, rankTile, phaseSize)
      {
        PairDisjoint(a, b, world, rankTile, phaseSize, grid);
      }
    } else {
      var b: nat :| b < grid && !RowApart(RowOffset(true, b, world, rankTile, phaseSize), world, rankTile, grid);
      var a, c := OverlapWitness(world, rankTile, phaseSize, grid, b);
    }
  }

  /** The three tables at the head of the buffer: the flags of both phases and the first-phase tiles. */
  predicate AtHead(s: Slot) { s.Flag? || !s.second }

  function TableStart(s: Slot, world: nat): nat {
    if s.Data? then FlagBytes(world) else if s.second then FlagBytes(world) / 2 else 0
  }

  function TableEnd(s: Slot, world: nat, rankTile: nat, grid: nat): nat {
    TableStart(s, world) + RowStart(grid, world, SlotSize(s, rankTile))
  }

  /** Every flag and every first-phase tile lies in its own table. */
  lemma SlotInTable(s: Slot, world: nat, rankTile: nat, phaseSize: nat, grid: nat)
    requires Wired(world, rankTile, grid) && SlotOf(s, world, grid) && AtHead(s)
    ensures SlotOffset(s, world, rankTile, phaseSize) ==
      TableStart(s, world) + RowStart(s.block, world, SlotSize(s, rankTile)) + CellStart(s.rank, SlotSize(s, rankTile))
    ensures TableStart(s, world) <= SlotOffset(s, world, rankTile, phaseSize)
    ensures SlotOffset(s, world, rankTile, phaseSize) + SlotSize(s, rankTile) <= TableEnd(s, world, rankTile, grid)
  {
    hide RowStart, RowSize, CellStart, RowOffset, Wired;
    FirstRow(s.block, world, rankTile, phaseSize, grid);
    RowEnds(s.block, world, SlotSize(s, rankTile), grid);
    CellEnds(s.rank, world, world, SlotSize(s, rankTile));
  }

  lemma TablesApart(s: Slot, t: Slot, world: nat, rankTile: nat, grid: nat)
    requires Wired(world, rankTile, grid) && (s.Flag? != t.Flag? || s.second != t.second) && AtHead(s) && AtHead(t)
    ensures TableEnd(s, world, rankTile, grid) <= TableStart(t, world)
         || TableEnd(t, world, rankTile, grid) <= TableStart(s, world)
  {
    hide RowStart, Wired;
    WiredGrid(world, rankTile, grid);
    FirstRow(0, world, rankTile, 0, grid);
  }

  lemma WiredGrid(world: nat, rankTile: nat, grid: nat)
    requires Wired(world, rankTile, grid)
    ensures 0 < grid && 0 < world && 0 < rankTile && rankTile <= RowSize(world, rankTile)
  {
    Arith.MulAtLeast(world, rankTile);
  }

  lemma RowAndTable(start: nat, s: Slot, world: nat, rankTile: nat, grid: nat)
    requires Wired(world, rankTile, grid) && RowApart(start, world, rankTile, grid) && AtHead(s)
    ensures start + RowSize(world, rankTile) <= TableStart(s, world) || TableEnd(s, world, rankTile, grid) <= start
  {
    hide RowStart, RowSize, CellStart, Wired;
    WiredGrid(world, rankTile, grid);
    FirstRow(0, world, rankTile, 0, grid);
  }

  /** A second-phase tile lies in its block's row. */
  lemma SecondSlot(s: Slot, world: nat, rankTile: nat, phaseSize: nat)
    requires s.Data? && s.second && s.rank < world
    ensures var start := RowOffset(true, s.block, world, rankTile, phaseSize);
      start + CellStart(s.rank, rankTile) + rankTile <= start + RowSize(world, rankTile)
  {
    CellEnds(s.rank, world, world, rankTile);
  }

  lemma PairDisjoint(a: Slot, b: Slot, world: nat, rankTile: nat, phaseSize: nat, grid: nat)
    requires Wired(world, rankTile, grid) && SlotOf(a, world, grid) && SlotOf(b, world, grid) && a != b
    requires SecondPhaseApart(world, rankTile, phaseSize, grid)
    ensures !Overlap(a, b, world, rankTile, phaseSize)
  {
    hide SlotOffset, RowOffset, Wired, RowApart, TableStart, TableEnd, RowStart, RowSize, CellStart;
    if !AtHead(a) && !AtHead(b) {
      TwoSecondSlots(a, b, world, rankTile, phaseSize, grid);
    } else if !AtHead(a) {
      HeadAndSecond(b, a, world, rankTile, phaseSize, grid);
    } else if !AtHead(b) {
      HeadAndSecond(a, b, world, rankTile, phaseSize, grid);
    } else if a.Flag? == b.Flag? && a.second == b.second {
      SameTable(a, b, world, rankTile, phaseSize, grid);
    } else {
      SlotInTable(a, world, rankTile, phaseSize, grid);
      SlotInTable(b, world, rankTile, phaseSize, grid);
      TablesApart(a, b, world, rankTile, grid);
    }
  }

  lemma TwoSecondSlots(a: Slot, b: Slot, world: nat, rankTile: nat, phaseSize: nat, grid: nat)
    requires Wired(world, rankTile, grid) && SlotOf(a, world, grid) && SlotOf(b, world, grid) && a != b
    requires !AtHead(a) && !AtHead(b)
    ensures !Overlap(a, b, world, rankTile, phaseSize)
  {
    hide RowOffset, Wired, RowSize, CellStart;
    SecondSlot(a, world, rankTile, phaseSize);
    SecondSlot(b, world, rankTile, phaseSize);
    if a.block < b.block { SecondRowsApart(a.block, b.block, world, rankTile, phaseSize, grid); }
    if b.block < a.block { SecondRowsApart(b.block, a.block, world, rankTile, phaseSize, grid); }
    if a.rank < b.rank { CellEnds(a.rank, b.rank, world, rankTile); }
    if b.rank < a.rank { CellEnds(b.rank, a.rank, world, rankTile); }
  }

  lemma HeadAndSecond(a: Slot, b: Slot, world: nat, rankTile: nat, phaseSize: nat, grid: nat)
    requires Wired(world, rankTile, grid) && SlotOf(a, world, grid) && SlotOf(b, world, grid)
    requires AtHead(a) && !AtHead(b) && SecondPhaseApart(world, rankTile, phaseSize, grid)
    ensures !Overlap(a, b, world, rankTile, phaseSize) && !Overlap(b, a, world, rankTile, phaseSize)
  {
    hide RowOffset, Wired, TableStart, TableEnd, RowApart, RowStart, RowSize, CellStart;
    SlotInTable(a, world, rankTile, phaseSize, grid);
    SecondSlot(b, world, rankTile, phaseSize);
    RowAndTable(RowOffset(true, b.block, world, rankTile, phaseSize), a, world, rankTile, grid);
  }

  lemma SameTable(a: Slot, b: Slot, world: nat, rankTile: nat, phaseSize: nat, grid: nat)
    requires Wired(world, rankTile, grid) && SlotOf(a, world, grid) && SlotOf(b, world, grid) && a != b
    requires AtHead(a) && a.Flag? == b.Flag? && a.second == b.second
    ensures !Overlap(a, b, world, rankTile, phaseSize)
  {
    hide SlotOffset, TableEnd, RowStart, RowSize, CellStart, Wired;
    var size := SlotSize(a, rankTile);
    SlotInTable(a, world, rankTile, phaseSize, grid);
    SlotInTable(b, world, rankTile, phaseSize, grid);
    CellEnds(a.rank, world, world, size);
    CellEnds(b.rank, world, world, size);
    if a.block < b.block { RowEnds(a.block, world, size, b.block); }
    if b.block < a.block { RowEnds(b.block, world, size, a.block); }
    if a.rank < b.rank { CellEnds(a.rank, b.rank, world, size); }
    if b.rank < a.rank { CellEnds(b.rank, a.rank, world, size); }
  }

  // ---------------------------------------------------------------- when the phases collide

  /** The slot that holds a given byte of a table. */
  lemma SlotOfByte(byte: nat, table: Slot, world: nat, rankTile: nat, phaseSize: nat, grid: nat) returns (s: Slot)
    requires Wired(world, rankTile, grid) && AtHead(table)
    requires TableStart(table, world) <= byte < TableEnd(table, world, rankTile, grid)
    ensures SlotOf(s, world, grid) && s.Flag? == table.Flag? && s.second == table.second
    ensures Holds(s, byte, world, rankTile, phaseSize)
  {
    hide RowOffset, RowStart, RowSize, CellStart, SlotOffset;
    var block, rank := CellOfByte(byte - TableStart(table, world), world, grid, SlotSize(table, rankTile));
    s := if table.Data? then Data(false, block, rank) else Flag(table.second, block, rank);
    SlotInTable(s, world, rankTile, phaseSize, grid);
  }

  /** A row that does not keep clear shares a byte with a flag in use or with a first-phase tile. */
  lemma OverlapWitness(world: nat, rankTile: nat, phaseSize: nat, grid: nat, b: nat) returns (a: Slot, c: Slot)
    requires Wired(world, rankTile, grid) && b < grid
    requires !RowApart(RowOffset(true, b, world, rankTile, phaseSize), world, rankTile, grid)
    ensures SlotOf(a, world, grid) && SlotOf(c, world, grid) && a != c && Overlap(a, c, world, rankTile, phaseSize)
  {
    hide RowOffset, Wired, RowStart, RowSize, CellStart, FlagBytes;
    WiredGrid(world, rankTile, grid);
    RowEnds(0, world, rankTile, grid);
    RowEnds(0, world, 4, grid);
    RowsHaveSize(world);
    var start := RowOffset(true, b, world, rankTile, phaseSize);
    var end := start + RowSize(world, rankTile);
    var flags := FlagBytes(world);
    var table: Slot := if end > flags then Data(false, 0, 0) else Flag(end > flags / 2, 0, 0);
    var byte := if start < TableStart(table, world) then TableStart(table, world) else start;
    a := SlotOfByte(byte, table, world, rankTile, phaseSize, grid);
    var rank := RankOfByte(byte - start, world, rankTile);
    c := Data(true, b, rank);
  }

  /** While the second phase ends below 2^32, fitting into the phase size is all that is needed. */
  lemma WithoutTruncation(world: nat, rankTile: nat, phaseSize: nat, grid: nat)
    requires Wired(world, rankTile, grid) && FlagBytes(world) + phaseSize + RowStart(grid, world, rankTile) <= U32
    ensures SecondPhaseApart(world, rankTile, phaseSize, grid) <==> RowStart(grid, world, rankTile) <= phaseSize
  {
    hide RowOffset, RowApart, FlagBytes, RowStart, RowSize, CellStart, Wired;
    WiredGrid(world, rankTile, grid);
    forall b | 0 <= b < grid
      ensures RowApart(RowOffset(true, b, world, rankTile, phaseSize), world, rankTile, grid) <==>
        RowStart(grid, world, rankTile) <= phaseSize + RowStart(b, world, rankTile)
    {
      SecondRow(b, world, rankTile, phaseSize, grid);
      RowPastFlags(phaseSize + RowStart(b, world, rankTile), world, rankTile, grid);
    }
    assert RowStart(0, world, rankTile) == 0 by { NoRows(world, rankTile); }
    assert SecondPhaseApart(world, rankTile, phaseSize, grid) ==>
      RowApart(RowOffset(true, 0, world, rankTile, phaseSize), world, rankTile, grid);
  }

  lemma NoRows(world: nat, size: nat)
    ensures RowStart(0, world, size) == 0
  {
  }

  lemma RowPastFlags(past: nat, world: nat, rankTile: nat, grid: nat)
    requires Wired(world, rankTile, grid)
    ensures RowApart(FlagBytes(world) + past, world, rankTile, grid) <==> RowStart(grid, world, rankTile) <= past
  {
    hide RowStart, RowSize, CellStart, Wired, FlagBytes;
    WiredGrid(world, rankTile, grid);
  }

  lemma SecondRow(b: nat, world: nat, rankTile: nat, phaseSize: nat, grid: nat)
    requires Wired(world, rankTile, grid) && b < grid
    requires FlagBytes(world) + phaseSize + RowStart(grid, world, rankTile) <= U32
    ensures RowOffset(true, b, world, rankTile, phaseSize)
         == FlagBytes(world) + (phaseSize + RowStart(b, world, rankTile))
  {
    hide RowStart, RowSize, CellStart, Wired, FlagBytes;
    WiredGrid(world, rankTile, grid);
    FirstRow(b, world, rankTile, phaseSize, grid);
    RowEnds(b, world, rankTile, grid);
    var offset := phaseSize + FlagBytes(world) + RowStart(b, world, rankTile);
    Arith.DivUnique(offset, 0, offset, U32);
  }

  /** The default phase size of 2 GiB serves every launch. */
  lemma DefaultPhaseIsSafe(world: nat, rankTile: nat, grid: nat)
    requires Wired(world, rankTile, grid)
    ensures AllDisjoint(world, rankTile, 0x8000_0000, grid)
  {
    hide AllDisjoint, SecondPhaseApart, RowStart, Wired;
    WiredGrid(world, rankTile, grid);
    FirstRow(0, world, rankTile, 0x8000_0000, grid);
    WithoutTruncation(world, rankTile, 0x8000_0000, grid);
    SlotsAreDisjoint(world, rankTile, 0x8000_0000, grid);
  }

  /** A phase size that is a multiple of 2^32 puts every second-phase tile onto its first-phase twin. */
  lemma PhasesCoincide(world: nat, rankTile: nat, phaseSize: nat, grid: nat, block: nat, rank: nat)
    requires Wired(world, rankTile, grid) && phaseSize % U32 == 0 && block < grid && rank < world
    ensures SlotOffset(Data(true, block, rank), world, rankTile, phaseSize)
         == SlotOffset(Data(false, block, rank), world, rankTile, phaseSize)
    ensures !AllDisjoint(world, rankTile, phaseSize, grid)
  {
    hide RowStart, Wired;
    WiredGrid(world, rankTile, grid);
    var first := RowOffset(false, block, world, rankTile, phaseSize);
    Arith.DivUnique(phaseSize + first, phaseSize / U32, first, U32);
    var a, b := Data(true, block, rank), Data(false, block, rank);
    assert SlotOf(a, world, grid) && SlotOf(b, world, grid) && a != b && Overlap(a, b, world, rankTile, phaseSize);
  }

  /** And one that falls short of 2^32 by the flags puts it onto the flags. */
  lemma SecondPhaseOnFlags(world: nat, rankTile: nat, grid: nat)
    requires Wired(world, rankTile, grid)
    ensures var phaseSize := U32 - FlagBytes(world);
      phaseSize > 0 && Overlap(Flag(false, 0, 0), Data(true, 0, 0), world, rankTile, phaseSize)
      && !AllDisjoint(world, rankTile, phaseSize, grid)
  {
    hide RowStart, Wired;
    WiredGrid(world, rankTile, grid);
    FirstRow(0, world, rankTile, 0, grid);
    var phaseSize := U32 - FlagBytes(world);
    FirstRow(0, world, rankTile, phaseSize, grid);
    NoRows(world, rankTile);
    NoRows(world, 4);
    Arith.DivUnique(U32, 1, 0, U32);
    var a, b := Flag(false, 0, 0), Data(true, 0, 0);
    assert SlotOf(a, world, grid) && SlotOf(b, world, grid) && Overlap(a, b, world, rankTile, phaseSize);
  }

  // ---------------------------------------------------------------- the size of the buffer

  /**
   The buffer holds the flags and two phases. The size of the phases is fixed when a process initialises
   a communicator for the first time; later initialisations allocate the same size again.
   */
  function BufferBytes(world: nat, firstPhaseSize: nat): nat { FlagBytes(world) + 2 * firstPhaseSize }

  ghost predicate AllInside(world: nat, rankTile: nat, phaseSize: nat, grid: nat, bytes: nat) {
    forall s | SlotOf(s, world, grid) :: SlotOffset(s, world, rankTile, phaseSize) + SlotSize(s, rankTile) <= bytes
  }

  /** The first phase and every row of the second one end within the buffer. */
  predicate RowsInside(world: nat, rankTile: nat, phaseSize: nat, grid: nat, bytes: nat) {
    && FlagBytes(world) + RowStart(grid, world, rankTile) <= bytes
    && forall b | 0 <= b < grid :: RowOffset(true, b, world, rankTile, phaseSize) + RowSize(world, rankTile) <= bytes
  }

  /** The cell of the last rank ends its row. */
  lemma LastCell(world: nat, size: nat)
    requires 0 < world
    ensures CellStart(world - 1, size) + size == RowSize(world, size)
  {
  }

  lemma SlotInside(s: Slot, world: nat, rankTile: nat, phaseSize: nat, grid: nat, bytes: nat)
    requires Wired(world, rankTile, grid) && SlotOf(s, world, grid)
    requires RowsInside(world, rankTile, phaseSize, grid, bytes)
    ensures SlotOffset(s, world, rankTile, phaseSize) + SlotSize(s, rankTile) <= bytes
  {
    hide RowStart, RowSize, CellStart, RowOffset, Wired;
    WiredGrid(world, rankTile, grid);
    FirstRow(0, world, rankTile, phaseSize, grid);
    if AtHead(s) {
      SlotInTable(s, world, rankTile, phaseSize, grid);
    } else {
      CellEnds(s.rank, world, world, rankTile);
    }
  }

  /** Every slot of a launch lies in the buffer exactly if the rows of tiles do. */
  lemma SlotsInBuffer(world: nat, rankTile: nat, phaseSize: nat, grid: nat, bytes: nat)
    requires Wired(world, rankTile, grid)
    ensures AllInside(world, rankTile, phaseSize, grid, bytes) <==> RowsInside(world, rankTile, phaseSize, grid, bytes)
  {
    hide RowStart, RowSize, CellStart, RowOffset, Wired;
    WiredGrid(world, rankTile, grid);
    LastCell(world, rankTile);
    if RowsInside(world, rankTile, phaseSize, grid, bytes) {
      forall s | SlotOf(s, world, grid)
        ensures SlotOffset(s, world, rankTile, phaseSize) + SlotSize(s, rankTile) <= bytes
      {
        SlotInside(s, world, rankTile, phaseSize, grid, bytes);
      }
    }
    if AllInside(world, rankTile, phaseSize, grid, bytes) {
      FirstRow(grid - 1, world, rankTile, phaseSize, grid);
      RowEnds(grid - 1, world, rankTile, grid);
      assert SlotOf(Data(false, grid - 1, world - 1), world, grid);
      forall b | 0 <= b < grid
        ensures RowOffset(true, b, world, rankTile, phaseSize) + RowSize(world, rankTile) <= bytes
      {
        assert SlotOf(Data(true, b, world - 1), world, grid);
      }
    }
  }

  /** While the second phase ends below 2^32, twice the first phase size has to hold both phases. */
  lemma BufferIsLargeEnough(world: nat, rankTile: nat, phaseSize: nat, grid: nat, firstPhaseSize: nat)
    requires Wired(world, rankTile, grid) && FlagBytes(world) + phaseSize + RowStart(grid, world, rankTile) <= U32
    ensures AllInside(world, rankTile, phaseSize, grid, BufferBytes(world, firstPhaseSize)) <==>
      phaseSize + RowStart(grid, world, rankTile) <= 2 * firstPhaseSize
  {
    hide RowStart, RowSize, CellStart, RowOffset, Wired, FlagBytes, AllInside;
    var bytes := BufferBytes(world, firstPhaseSize);
    WiredGrid(world, rankTile, grid);
    SlotsInBuffer(world, rankTile, phaseSize, grid, bytes);
    SecondRow(grid - 1, world, rankTile, phaseSize, grid);
    RowEnds(grid - 1, world, rankTile, grid);
    forall b | 0 <= b < grid
      ensures RowOffset(true, b, world, rankTile, phaseSize) + RowSize(world, rankTile)
           <= FlagBytes(world) + phaseSize + RowStart(grid, world, rankTile)
    {
      SecondRow(b, world, rankTile, phaseSize, grid);
      RowEnds(b, world, rankTile, grid);
    }
  }

  lemma HeadIsSmall(world: nat, rankTile: nat, grid: nat)
    requires Wired(world, rankTile, grid)
    ensures FlagBytes(world) + RowStart(grid, world, rankTile) <= 0x400_0000
  {
    Arith.MulMonotone(grid, RowSize(world, rankTile), TILE);
    Arith.MulMonotone(TILE, grid, MAX_BLOCKS);
  }

  /** A buffer allocated for this very phase size holds every slot exactly if one phase of tiles fits. */
  lemma OwnBufferFits(world: nat, rankTile: nat, phaseSize: nat, grid: nat)
    requires Wired(world, rankTile, grid)
    ensures AllInside(world, rankTile, phaseSize, grid, BufferBytes(world, phaseSize)) <==>
      RowStart(grid, world, rankTile) <= phaseSize
  {
    hide RowStart, RowSize, CellStart, RowOffset, Wired, AllInside;
    WiredGrid(world, rankTile, grid);
    HeadIsSmall(world, rankTile, grid);
    if FlagBytes(world) + phaseSize + RowStart(grid, world, rankTile) <= U32 {
      BufferIsLargeEnough(world, rankTile, phaseSize, grid, phaseSize);
    } else {
      SlotsInBuffer(world, rankTile, phaseSize, grid, BufferBytes(world, phaseSize));
      RowEnds(grid - 1, world, rankTile, grid);
      forall b | 0 <= b < grid
        ensures RowOffset(true, b, world, rankTile, phaseSize) < U32
      {
        OffsetIsShort(b, world, rankTile, phaseSize);
      }
    }
  }

  lemma OffsetIsShort(b: nat, world: nat, rankTile: nat, phaseSize: nat)
    ensures RowOffset(true, b, world, rankTile, phaseSize) < U32
  {
    hide RowStart, FlagBytes;
  }

  /** After a first initialisation with 1 GiB per phase, one with the default 2 GiB lets every launch overrun it. */
  lemma LaterInitOverruns(world: nat, rankTile: nat, grid: nat)
    requires Wired(world, rankTile, grid)
    ensures !AllInside(world, rankTile, 0x8000_0000, grid, BufferBytes(world, 0x4000_0000))
  {
    hide RowStart, RowSize, CellStart, Wired, AllInside;
    WiredGrid(world, rankTile, grid);
    HeadIsSmall(world, rankTile, grid);
    RowEnds(grid - 1, world, rankTile, grid);
    BufferIsLargeEnough(world, rankTile, 0x8000_0000, grid, 0x4000_0000);
  }
}
