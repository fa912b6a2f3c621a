/** Facts about lists and sets of numbers, division, powers of two and bitwise-or that several components share. */
module Arith {

  ghost predicate Ascending(ids: seq<nat>) { forall i, j | 0 <= i < j < |ids| :: ids[i] < ids[j] }

  ghost predicate NoRepeats(ids: seq<nat>) { forall i, j | 0 <= i < j < |ids| :: ids[i] != ids[j] }

  function Elements(ids: seq<nat>): set<nat> { set d | d in ids }

  lemma SubsetSize(a: set<nat>, b: set<nat>)
    requires a <= b
    ensures |a| <= |b|
  {
    assert b == a + (b - a);
  }

  lemma SplitSize(a: set<nat>, b: set<nat>)
    ensures |a - b| + |a * b| == |a|
  {
    assert a == (a - b) + (a * b);
  }

  /** Some number lies above all those of a finite set. */
  lemma {:induction false} AboveAll(s: set<nat>) returns (bound: nat)
    ensures forall h | h in s :: h < bound
    decreases |s|
  {
    if s == {} {
      bound := 0;
    } else {
      var h :| h in s;
      var rest := AboveAll(s - {h});
      assert s == s - {h} + {h};
      bound := if rest <= h then h + 1 else rest;
    }
  }

  lemma DivUnique(x: int, q: int, r: int, g: int)
    requires 0 <= r < g && x == q * g + r
    ensures x / g == q && x % g == r
  {
    var q', r' := x / g, x % g;
    assert x == q' * g + r' && 0 <= r' < g;
    assert (q' - q) * g == r - r' && (q - q') * g == r' - r;
    if q' > q { MulAtLeast(q' - q, g); }
    if q' < q { MulAtLeast(q - q', g); }
  }

  lemma MulAtLeast(k: int, g: int)
    requires k >= 1 && g > 0
    ensures k * g >= g
  {
  }

  lemma MulMonotone(a: nat, b: nat, c: nat)
    requires b <= c
    ensures a * b <= a * c && b * a <= c * a
  {
  }

  lemma MulCommutes(a: int, b: int)
    ensures a * b == b * a
  {
  }

  function Pow2(n: nat): (p: nat)
    ensures p > 0
  {
    if n == 0 then 1 else 2 * Pow2(n - 1)
  }

  lemma {:induction false} Pow2Add(a: nat, b: nat)
    ensures Pow2(a + b) == Pow2(a) * Pow2(b)
  {
    if a > 0 { Pow2Add(a - 1, b); }
  }

  lemma {:induction false} Pow2Monotone(a: nat, b: nat)
    requires a <= b
    ensures Pow2(a) <= Pow2(b)
  {
    if a < b { Pow2Monotone(a, b - 1); }
  }

  /** Bitwise or of two non-negative numbers. */
  function BitOr(a: nat, b: nat): nat {
    if a == 0 then b
    else if b == 0 then a
    else 2 * BitOr(a / 2, b / 2) + if a % 2 == 1 || b % 2 == 1 then 1 else 0
  }

  /** Disjoint bits: or-ing something shifted past the low bits is adding it. */
  lemma {:induction false} BitOrDisjoint(low: nat, high: nat, k: nat)
    requires low < Pow2(k)
    ensures BitOr(low, high * Pow2(k)) == low + high * Pow2(k)
  {
    if low > 0 && high > 0 {
      var half := high * Pow2(k - 1);
      assert high * Pow2(k) == 2 * half;
      BitOrDisjoint(low / 2, high, k - 1);
      assert half > 0;
    }
  }

  /** Dividing twice is dividing by the product. */
  lemma DivDiv(x: int, a: int, b: int)
    requires a > 0 && b > 0
    ensures a * b > 0 && x / a / b == x / (a * b)
  {
    var q, r := x / a, x % a;
    var q', r' := q / b, q % b;
    assert x == q * a + r && q == q' * b + r';
    assert x == q' * (a * b) + (r' * a + r);
    MulBound(r', a, b, r);
    DivUnique(x, q', r' * a + r, a * b);
  }

  lemma MulBound(d: int, a: int, b: int, r: int)
    requires 0 <= d < b && 0 <= r < a
    ensures 0 <= d * a + r < a * b
  {
    assert (d + 1) * a <= b * a;
  }

  /** Whole rows below `x`, and the rest. */
  lemma DivRows(x: nat, row: nat, rows: nat)
    requires x < rows * row
    ensures row > 0 && x / row < rows && x / row * row <= x < x / row * row + row && x - x / row * row == x % row
  {
    if x / row >= rows { MulMonotone(row, rows, x / row); }
  }
}
