/** The CPU ids in a device's affinity mask, an array of 64-bit words. */
module CpuAffinity {
  import opened Arith

  const WORD_BITS: nat := 64

  predicate BitSet(mask: nat, bit: nat) { mask / Pow2(bit) % 2 == 1 }

  /** The meaning of the mask: bit `b` of word `w` stands for the CPU `64 * w + b`. */
  predicate InMask(masks: seq<nat>, id: nat) {
    id / WORD_BITS < |masks| && BitSet(masks[id / WORD_BITS], id % WORD_BITS)
  }

  /** The ids below a bound that are in the mask, and nothing else. */
  ghost predicate Collected(ids: seq<nat>, masks: seq<nat>, bound: nat) {
    Ascending(ids) && forall id: nat :: id in ids <==> id < bound && InMask(masks, id)
  }

  lemma Collect(ids: seq<nat>, masks: seq<nat>, bound: nat)
    requires Collected(ids, masks, bound)
    ensures InMask(masks, bound) ==> Collected(ids + [bound], masks, bound + 1)
    ensures !InMask(masks, bound) ==> Collected(ids, masks, bound + 1)
  {
    hide InMask;
    forall i | 0 <= i < |ids|
      ensures ids[i] < bound
    {
      assert ids[i] in ids;
    }
  }

  lemma CollectedAll(ids: seq<nat>, masks: seq<nat>, bound: nat, count: nat)
    requires Collected(ids, masks, bound) && bound <= count
    requires forall id: nat | bound <= id < count :: !InMask(masks, id)
    ensures Collected(ids, masks, count)
  {
    hide InMask;
  }

  /** For every CPU count and mask, exactly the CPUs below the count whose bit is set, in order. */
  method GetDeviceCpuAffinity(cpuCount: nat, masks: seq<nat>) returns (cpuIds: seq<nat>)
    ensures Collected(cpuIds, masks, cpuCount)
  {
    hide InMask, BitSet, Collected;
    cpuIds := [];
    NothingCollected(masks);
    ghost var bound: nat := 0;
    for i := 0 to |masks|
      invariant Collected(cpuIds, masks, bound)
      invariant bound == if i * WORD_BITS <= cpuCount then i * WORD_BITS else cpuCount
    {
      for bit := 0 to WORD_BITS
        invariant Collected(cpuIds, masks, bound)
        invariant bound == if i * WORD_BITS + bit <= cpuCount then i * WORD_BITS + bit else cpuCount
      {
        var cpuId := i * WORD_BITS + bit;
        if cpuId >= cpuCount { break; }
        BitOfWord(masks, i, bit);
        Collect(cpuIds, masks, cpuId);
        if BitSet(masks[i], bit) { cpuIds := cpuIds + [cpuId]; }
        bound := cpuId + 1;
      }
    }
    NothingPastTheWords(cpuIds, masks, bound, cpuCount);
  }

  lemma NothingCollected(masks: seq<nat>)
    ensures Collected([], masks, 0)
  {
  }

  lemma BitOfWord(masks: seq<nat>, i: nat, bit: nat)
    requires i < |masks| && bit < WORD_BITS
    ensures InMask(masks, i * WORD_BITS + bit) <==> BitSet(masks[i], bit)
  {
    hide BitSet;
    DivUnique(i * WORD_BITS + bit, i, bit, WORD_BITS);
  }

  lemma NothingPastTheWords(ids: seq<nat>, masks: seq<nat>, bound: nat, count: nat)
    requires Collected(ids, masks, bound) && bound <= count && (bound == count || bound == |masks| * WORD_BITS)
    ensures Collected(ids, masks, count)
  {
    hide BitSet, Collected;
    CollectedAll(ids, masks, bound, count);
  }

  /** The list determines the mask up to the count, so decoding loses nothing. */
  lemma SameListSameMask(ids: seq<nat>, masks: seq<nat>, masks': seq<nat>, count: nat)
    requires Collected(ids, masks, count)
    ensures Collected(ids, masks', count) <==> forall id: nat | id < count :: InMask(masks, id) <==> InMask(masks', id)
  {
    hide InMask;
  }

  /** The number of words asked of the driver is the least that has a bit for every CPU. */
  lemma WordsSuffice(cpuCount: nat, words: nat)
    ensures (forall id: nat | id < cpuCount :: id / WORD_BITS < words) <==> (cpuCount + 63) / 64 <= words
  {
    if cpuCount > 0 { assert (cpuCount - 1) / WORD_BITS < words <==> (cpuCount + 63) / 64 <= words; }
  }

  /** The number that the lowest `n` bits make up. */
  function BitsUpTo(mask: nat, n: nat): nat {
    if n == 0 then 0 else BitsUpTo(mask, n - 1) + if BitSet(mask, n - 1) then Pow2(n - 1) else 0
  }

  /** The bits are those of the binary number: together they are the word. */
  lemma {:induction false} BitsMakeTheWord(mask: nat, n: nat)
    ensures BitsUpTo(mask, n) == mask % Pow2(n)
    ensures mask < Pow2(n) ==> BitsUpTo(mask, n) == mask
  {
    hide Pow2;
    PowersOfNone();
    if n > 0 {
      BitsMakeTheWord(mask, n - 1);
      NextPower(n - 1);
      OneMoreBit(mask, Pow2(n - 1));
    }
    if mask < Pow2(n) { DivUnique(mask, 0, mask, Pow2(n)); }
  }

  lemma PowersOfNone()
    ensures Pow2(0) == 1
  {
  }

  lemma NextPower(n: nat)
    ensures Pow2(n + 1) == 2 * Pow2(n)
  {
  }

  lemma OneMoreBit(x: nat, p: nat)
    requires 0 < p
    ensures x % (2 * p) == x % p + if x / p % 2 == 1 then p else 0
  {
    var q, r := x / p, x % p;
    assert x == q * p + r && q == q / 2 * 2 + q % 2;
    var low := r + if q % 2 == 1 then p else 0;
    assert q / 2 * 2 * p == q / 2 * (2 * p);
    DivUnique(x, q / 2, low, 2 * p);
  }
}
