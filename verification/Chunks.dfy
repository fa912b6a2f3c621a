/** How an allocation is rounded up to the driver's granularity and cut into chunks. */
module Chunks {
  import Arith
  import opened Wrappers

  const MB: nat := 1024 * 1024
  const DEFAULT_CHUNK: nat := 256 * MB
  const U64: nat := 0x1_0000_0000_0000_0000

  /** The configured chunk size: `setting` is the parsed environment value in MB, if it parsed. */
  function MemCreateChunkSize(setting: Option<nat>): (bytes: nat)
    ensures 0 < bytes < U64 && bytes % MB == 0
    ensures setting.Some? && 0 < setting.value * MB < U64 ==> bytes == setting.value * MB
    ensures setting.None? || setting.value == 0 || setting.value * MB >= U64 ==> bytes == DEFAULT_CHUNK
  {
    match setting
    case None => DEFAULT_CHUNK
    case Some(mb) => if mb == 0 || mb > (U64 - 1) / MB then DEFAULT_CHUNK else mb * MB
  }

  /** Granules of size `g` needed for `x` bytes, computed in 64-bit unsigned arithmetic. */
  function Granules(x: nat, g: nat): nat
    requires 0 < g
  {
    (x + g - 1) % U64 / g
  }

  /** The allocator's rounding expression. */
  function AlignUp(x: nat, g: nat): nat
    requires 0 < g
  {
    Granules(x, g) * g
  }

  ghost predicate IsRoundedUp(y: nat, x: nat, g: nat)
    requires 0 < g
  {
    y % g == 0 && x <= y && forall z: nat | z % g == 0 && x <= z :: y <= z
  }

  lemma MultipleOf(k: int, g: int)
    requires 0 < g
    ensures (k * g) % g == 0
  {
    Arith.DivUnique(k * g, k, 0, g);
  }

  /** The rounding is right exactly when its intermediate sum does not wrap. */
  lemma AlignUpExact(x: nat, g: nat)
    requires x < U64 && 0 < g < U64
    ensures IsRoundedUp(AlignUp(x, g), x, g) <==> x + g - 1 < U64
    ensures x + g - 1 < U64 ==> AlignUp(x, g) < x + g
  {
    var sum, q := (x + g - 1) % U64, Granules(x, g);
    assert sum == q * g + sum % g;
    MultipleOf(q, g);
    if x + g - 1 < U64 {
      forall z: nat | z % g == 0 && x <= z ensures q * g <= z {
        Multiple(z, g, q, x);
      }
    }
  }

  lemma Multiple(z: nat, g: nat, q: nat, x: nat)
    requires 0 < g && z % g == 0 && x <= z && q * g < x + g
    ensures q * g <= z
  {
    var k := z / g;
    assert z == k * g && (k + 1) * g == k * g + g;
    if k < q { Arith.MulMonotone(g, k + 1, q); } else { Arith.MulMonotone(g, q, k); }
  }

  /** A multiple of the granularity is its own rounding. */
  lemma AlignUpFixed(x: nat, g: nat)
    requires 0 < g && x % g == 0 && x + g - 1 < U64
    ensures AlignUp(x, g) == x
  {
    Arith.DivUnique(x + g - 1, x / g, g - 1, g);
  }

  /** Running offset of chunk `i`: where the allocator maps and unmaps it. */
  function Offset(sizes: seq<nat>, i: nat): nat
    requires i <= |sizes|
  {
    if i == 0 then 0 else Offset(sizes, i - 1) + sizes[i - 1]
  }

  function NumChunks(size: nat, chunk: nat): nat
    requires 0 < chunk
  {
    Granules(size, chunk)
  }

  function ChunkSize(size: nat, chunk: nat, i: nat): nat {
    if (size - i * chunk) % U64 < chunk then (size - i * chunk) % U64 else chunk
  }

  function Split(size: nat, chunk: nat): seq<nat>
    requires 0 < chunk
  {
    seq(NumChunks(size, chunk), i requires 0 <= i => ChunkSize(size, chunk, i))
  }

  lemma Remainder(size: nat, chunk: nat, i: nat)
    requires 0 < chunk && size + chunk - 1 < U64 && i < NumChunks(size, chunk)
    ensures 0 < size - i * chunk
    ensures if i + 1 < NumChunks(size, chunk) then chunk <= size - i * chunk else size - i * chunk <= chunk
  {
    var n, r := NumChunks(size, chunk), (size + chunk - 1) % chunk;
    assert size + chunk - 1 == n * chunk + r;
    assert n * chunk == (n - 1) * chunk + chunk;
    Arith.MulMonotone(chunk, i, n - 1);
    if i + 1 < n {
      Arith.MulMonotone(chunk, i + 1, n - 1);
      assert (i + 1) * chunk == i * chunk + chunk;
    }
  }

  lemma RemainderMultiple(size: nat, chunk: nat, g: nat, i: nat)
    requires 0 < g && size % g == 0 && chunk % g == 0
    ensures (size - i * chunk) % g == 0
  {
    var a, b := size / g, chunk / g;
    assert size == a * g && chunk == b * g;
    assert i * (b * g) == (i * b) * g;
    assert a * g - (i * b) * g == (a - i * b) * g;
    MultipleOf(a - i * b, g);
  }

  lemma SplitChunk(size: nat, chunk: nat, g: nat, i: nat)
    requires 0 < g && 0 < chunk && size % g == 0 && chunk % g == 0 && size + chunk - 1 < U64
    requires i < NumChunks(size, chunk)
    ensures var sizes := Split(size, chunk);
            && 0 < sizes[i] && sizes[i] % g == 0
            && (i + 1 < |sizes| ==> sizes[i] == chunk)
            && i * chunk + sizes[i] == if i + 1 == |sizes| then size else (i + 1) * chunk
  {
    hide NumChunks;
    Remainder(size, chunk, i);
    Arith.MulMonotone(i, 0, chunk);
    Arith.DivUnique(size - i * chunk, 0, size - i * chunk, U64);
    assert Split(size, chunk)[i] == if size - i * chunk < chunk then size - i * chunk else chunk;
    assert (i + 1) * chunk == i * chunk + chunk;
    RemainderMultiple(size, chunk, g, i);
  }

  /** The split is exact: full chunks at multiples of the chunk size, a positive last one, nothing over. */
  lemma {:induction false} SplitIsExact(size: nat, chunk: nat, g: nat, k: nat)
    requires 0 < g && 0 < chunk && size % g == 0 && chunk % g == 0 && size + chunk - 1 < U64
    requires k <= NumChunks(size, chunk)
    ensures var sizes := Split(size, chunk);
            && (forall i | 0 <= i < |sizes| ::
                 0 < sizes[i] && sizes[i] % g == 0 && (i + 1 < |sizes| ==> sizes[i] == chunk))
            && Offset(sizes, k) == if k == |sizes| then size else k * chunk
  {
    forall i | 0 <= i < NumChunks(size, chunk) { SplitChunk(size, chunk, g, i); }
    if k > 0 {
      SplitIsExact(size, chunk, g, k - 1);
      SplitChunk(size, chunk, g, k - 1);
    } else if NumChunks(size, chunk) == 0 {
      Arith.DivUnique(size + chunk - 1, 0, size + chunk - 1, chunk);
    }
  }

  /** Offsets of positive chunks increase strictly, so no two chunks start at the same address. */
  lemma {:induction false} OffsetIncreases(sizes: seq<nat>, i: nat, j: nat)
    requires i < j <= |sizes| && forall k | 0 <= k < |sizes| :: 0 < sizes[k]
    ensures Offset(sizes, i) + sizes[i] <= Offset(sizes, j)
  {
    if i + 1 < j { OffsetIncreases(sizes, i, j - 1); }
  }
}
