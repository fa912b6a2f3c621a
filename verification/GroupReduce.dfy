/**
 The thread-group reduction of the quantising codecs: every lane of a wavefront folds its own atom,
 a doubling shuffle-down loop folds the lanes of each group into the group's leader, and the leader
 shares the packed value of greatest magnitude. Half-precision numbers are modelled as reals.
 */
module GroupReduce {
  import Arith

  /** A 32-bit lane register holding two half-precision values. */
  datatype Packed = Packed(x: real, y: real)

  /** One thread's 16-byte atom: four packed registers. */
  datatype Atom = Atom(a0: Packed, a1: Packed, a2: Packed, a3: Packed)

  function Max(a: real, b: real): real { if a < b then b else a }
  function Min(a: real, b: real): real { if b < a then b else a }
  function Abs(a: real): real { if a < 0.0 then -a else a }

  function PackedMax(a: Packed, b: Packed): Packed { Packed(Max(a.x, b.x), Max(a.y, b.y)) }
  function PackedMin(a: Packed, b: Packed): Packed { Packed(Min(a.x, b.x), Min(a.y, b.y)) }

  /** Picks the second operand on a tie, as the comparison in the kernel is strict. */
  function PackedAbsMax(a: Packed, b: Packed): Packed {
    Packed(if Abs(a.x) > Abs(b.x) then a.x else b.x, if Abs(a.y) > Abs(b.y) then a.y else b.y)
  }

  /** Lane `l` reads lane `l + delta`; past the end of the wavefront it reads its own value. */
  function ShflDown(v: seq<Packed>, l: nat, delta: nat): Packed
    requires l < |v|
  {
    if l + delta < |v| then v[l + delta] else v[l]
  }

  ghost predicate PowerOfTwo(n: nat)
    decreases n
  {
    n == 1 || (n > 1 && n % 2 == 0 && PowerOfTwo(n / 2))
  }

  /** `i` is reached from 1 by doubling, and doubling it reaches `n` exactly. */
  ghost predicate Doubles(i: nat, n: nat)
    decreases n - i
  {
    i == n || (0 < i < n && Doubles(2 * i, n))
  }

  lemma {:induction false} DoublesHalf(i: nat, n: nat)
    requires n % 2 == 0 && n > 0 && Doubles(i, n / 2)
    ensures Doubles(2 * i, n)
    decreases n / 2 - i
  {
    if i != n / 2 { DoublesHalf(2 * i, n); }
  }

  lemma {:induction false} PowerDoubles(n: nat)
    requires PowerOfTwo(n)
    ensures Doubles(1, n)
  {
    if n > 1 {
      PowerDoubles(n / 2);
      DoublesHalf(1, n);
    }
  }

  ghost function Half(p: Packed, first: bool): real { if first then p.x else p.y }

  ghost predicate InAtom(v: real, a: Atom, first: bool) {
    v == Half(a.a0, first) || v == Half(a.a1, first) || v == Half(a.a2, first) || v == Half(a.a3, first)
  }

  ghost predicate Occurs(v: real, atoms: seq<Atom>, lo: nat, hi: nat, first: bool)
    requires lo <= hi <= |atoms|
  {
    exists l | lo <= l < hi :: InAtom(v, atoms[l], first)
  }

  ghost predicate IsMax(v: real, atoms: seq<Atom>, lo: nat, hi: nat, first: bool)
    requires lo <= hi <= |atoms|
  {
    Occurs(v, atoms, lo, hi, first) && forall l, w | lo <= l < hi && InAtom(w, atoms[l], first) :: w <= v
  }

  ghost predicate IsMin(v: real, atoms: seq<Atom>, lo: nat, hi: nat, first: bool)
    requires lo <= hi <= |atoms|
  {
    Occurs(v, atoms, lo, hi, first) && forall l, w | lo <= l < hi && InAtom(w, atoms[l], first) :: v <= w
  }

  ghost predicate IsAbsMax(v: real, atoms: seq<Atom>, lo: nat, hi: nat, first: bool)
    requires lo <= hi <= |atoms|
  {
    && Occurs(v, atoms, lo, hi, first)
    && forall l, w | lo <= l < hi && InAtom(w, atoms[l], first) ::
         Abs(w) <= Abs(v) && (Abs(w) == Abs(v) ==> v <= w)
  }

  lemma JoinMax(v: real, w: real, atoms: seq<Atom>, lo: nat, mid: nat, hi: nat, first: bool)
    requires lo <= mid <= hi <= |atoms| && IsMax(v, atoms, lo, mid, first) && IsMax(w, atoms, mid, hi, first)
    ensures IsMax(Max(v, w), atoms, lo, hi, first)
  {
    var l :| lo <= l < mid && InAtom(v, atoms[l], first);
    var k :| mid <= k < hi && InAtom(w, atoms[k], first);
    assert InAtom(Max(v, w), atoms[if v < w then k else l], first);
  }

  lemma JoinMin(v: real, w: real, atoms: seq<Atom>, lo: nat, mid: nat, hi: nat, first: bool)
    requires lo <= mid <= hi <= |atoms| && IsMin(v, atoms, lo, mid, first) && IsMin(w, atoms, mid, hi, first)
    ensures IsMin(Min(v, w), atoms, lo, hi, first)
  {
    var l :| lo <= l < mid && InAtom(v, atoms[l], first);
    var k :| mid <= k < hi && InAtom(w, atoms[k], first);
    assert InAtom(Min(v, w), atoms[if w < v then k else l], first);
  }

  /** The extreme of greatest magnitude is the element of greatest magnitude. */
  lemma ExtremesGiveAbsMax(v: real, w: real, atoms: seq<Atom>, lo: nat, hi: nat, first: bool)
    requires lo <= hi <= |atoms| && IsMax(v, atoms, lo, hi, first) && IsMin(w, atoms, lo, hi, first)
    ensures IsAbsMax(if Abs(v) > Abs(w) then v else w, atoms, lo, hi, first)
  {
  }

  ghost predicate LaneReduced(wmax: Packed, wmin: Packed, atoms: seq<Atom>, lo: nat, hi: nat)
    requires lo <= hi <= |atoms|
  {
    forall first :: IsMax(Half(wmax, first), atoms, lo, hi, first) && IsMin(Half(wmin, first), atoms, lo, hi, first)
  }

  lemma LaneStep(atoms: seq<Atom>, wmax: Packed, wmin: Packed, x: Packed, y: Packed, l: nat, i: nat)
    requires l + 2 * i <= |atoms|
    requires LaneReduced(wmax, wmin, atoms, l, l + i) && LaneReduced(x, y, atoms, l + i, l + 2 * i)
    ensures LaneReduced(PackedMax(wmax, x), PackedMin(wmin, y), atoms, l, l + 2 * i)
  {
    forall first
      ensures IsMax(Half(PackedMax(wmax, x), first), atoms, l, l + 2 * i, first)
      ensures IsMin(Half(PackedMin(wmin, y), first), atoms, l, l + 2 * i, first)
    {
      JoinMax(Half(wmax, first), Half(x, first), atoms, l, l + i, l + 2 * i, first);
      JoinMin(Half(wmin, first), Half(y, first), atoms, l, l + i, l + 2 * i, first);
    }
  }

  function AtomMax(a: Atom): Packed { PackedMax(PackedMax(a.a0, a.a1), PackedMax(a.a2, a.a3)) }
  function AtomMin(a: Atom): Packed { PackedMin(PackedMin(a.a0, a.a1), PackedMin(a.a2, a.a3)) }

  lemma OwnMax(atoms: seq<Atom>, l: nat, first: bool)
    requires l < |atoms|
    ensures IsMax(Half(AtomMax(atoms[l]), first), atoms, l, l + 1, first)
  {
    assert InAtom(Half(AtomMax(atoms[l]), first), atoms[l], first);
  }

  lemma OwnMin(atoms: seq<Atom>, l: nat, first: bool)
    requires l < |atoms|
    ensures IsMin(Half(AtomMin(atoms[l]), first), atoms, l, l + 1, first)
  {
    assert InAtom(Half(AtomMin(atoms[l]), first), atoms[l], first);
  }

  /** A lane's own fold covers exactly its own atom. */
  lemma AtomReduced(atoms: seq<Atom>, l: nat)
    requires l < |atoms|
    ensures LaneReduced(AtomMax(atoms[l]), AtomMin(atoms[l]), atoms, l, l + 1)
  {
    hide AtomMax, AtomMin, IsMax, IsMin;
    forall first
      ensures IsMax(Half(AtomMax(atoms[l]), first), atoms, l, l + 1, first)
      ensures IsMin(Half(AtomMin(atoms[l]), first), atoms, l, l + 1, first)
    {
      OwnMax(atoms, l, first);
      OwnMin(atoms, l, first);
    }
  }

  /** The first lane of a lane's group. */
  function Leader(l: nat, groupSize: nat): nat
    requires groupSize > 0
  {
    l / groupSize * groupSize
  }

  lemma LeaderInRange(l: nat, n: nat, groupSize: nat)
    requires 0 < groupSize && l < n && n % groupSize == 0
    ensures Leader(l, groupSize) <= l < Leader(l, groupSize) + groupSize <= n
    ensures Leader(Leader(l, groupSize), groupSize) == Leader(l, groupSize)
  {
    var q, k := l / groupSize, n / groupSize;
    assert n == k * groupSize && l == q * groupSize + l % groupSize;
    if q + 1 <= k { Arith.MulMonotone(groupSize, q + 1, k); } else { Arith.MulMonotone(groupSize, k, q); }
    Arith.DivUnique(q * groupSize, q, 0, groupSize);
  }

  /** What lane `l` must end up with: an element of greatest magnitude of its group, in each half. */
  ghost predicate IsGroupAbsMax(v: Packed, atoms: seq<Atom>, leader: nat, groupSize: nat)
    requires leader + groupSize <= |atoms|
  {
    forall first :: IsAbsMax(Half(v, first), atoms, leader, leader + groupSize, first)
  }

  lemma LeaderValue(wmax: Packed, wmin: Packed, atoms: seq<Atom>, leader: nat, groupSize: nat)
    requires leader + groupSize <= |atoms| && LaneReduced(wmax, wmin, atoms, leader, leader + groupSize)
    ensures IsGroupAbsMax(PackedAbsMax(wmax, wmin), atoms, leader, groupSize)
  {
    forall first
      ensures IsAbsMax(Half(PackedAbsMax(wmax, wmin), first), atoms, leader, leader + groupSize, first)
    {
      ExtremesGiveAbsMax(Half(wmax, first), Half(wmin, first), atoms, leader, leader + groupSize, first);
    }
  }

  /** One lockstep iteration of the shuffle loop, for every lane with a full window ahead of it. */
  ghost predicate Windows(atoms: seq<Atom>, wmax: seq<Packed>, wmin: seq<Packed>, i: nat) {
    && |wmax| == |wmin| == |atoms|
    && forall l | 0 <= l && l + i <= |atoms| :: l < |atoms| ==> LaneReduced(wmax[l], wmin[l], atoms, l, l + i)
  }

  /** One iteration doubles every window: lane by lane the maximum with the lane `i` further on. */
  function ShuffledMax(v: seq<Packed>, i: nat): seq<Packed> {
    seq(|v|, l requires 0 <= l < |v| => PackedMax(v[l], ShflDown(v, l, i)))
  }

  function ShuffledMin(v: seq<Packed>, i: nat): seq<Packed> {
    seq(|v|, l requires 0 <= l < |v| => PackedMin(v[l], ShflDown(v, l, i)))
  }

  lemma WindowsStep(atoms: seq<Atom>, wmax: seq<Packed>, wmin: seq<Packed>, i: nat)
    requires 0 < i && Windows(atoms, wmax, wmin, i)
    ensures Windows(atoms, ShuffledMax(wmax, i), ShuffledMin(wmin, i), 2 * i)
  {
    hide LaneReduced, PackedMax, PackedMin;
    forall l | 0 <= l && l + 2 * i <= |atoms| && l < |atoms|
      ensures LaneReduced(ShuffledMax(wmax, i)[l], ShuffledMin(wmin, i)[l], atoms, l, l + 2 * i)
    {
      LaneStep(atoms, wmax[l], wmin[l], wmax[l + i], wmin[l + i], l, i);
    }
  }

  lemma WindowsStart(atoms: seq<Atom>, wmax: seq<Packed>, wmin: seq<Packed>)
    requires |wmax| == |wmin| == |atoms|
    requires forall l | 0 <= l < |atoms| :: wmax[l] == AtomMax(atoms[l]) && wmin[l] == AtomMin(atoms[l])
    ensures Windows(atoms, wmax, wmin, 1)
  {
    hide LaneReduced, AtomMax, AtomMin;
    forall l | 0 <= l < |atoms|
      ensures LaneReduced(wmax[l], wmin[l], atoms, l, l + 1)
    {
      AtomReduced(atoms, l);
    }
  }

  ghost predicate SharedOk(atoms: seq<Atom>, shared: seq<Packed>, groupSize: nat, l: nat)
    requires 0 < groupSize && l < |atoms| == |shared|
  {
    var leader := Leader(l, groupSize);
    && leader <= l < leader + groupSize <= |atoms|
    && shared[l] == shared[leader] && IsGroupAbsMax(shared[l], atoms, leader, groupSize)
  }

  /** What the leaders hold after the last iteration is what every lane of their groups is to have. */
  lemma WindowsEnd(atoms: seq<Atom>, wmax: seq<Packed>, wmin: seq<Packed>, groupSize: nat, shared: seq<Packed>, l: nat)
    requires 0 < groupSize && Windows(atoms, wmax, wmin, groupSize) && |atoms| % groupSize == 0
    requires l < |atoms| == |shared|
    requires forall k | 0 <= k < |atoms| && Leader(k, groupSize) < |atoms| ::
      shared[k] == PackedAbsMax(wmax[Leader(k, groupSize)], wmin[Leader(k, groupSize)])
    ensures SharedOk(atoms, shared, groupSize, l)
  {
    hide LaneReduced, PackedAbsMax, Leader, IsGroupAbsMax;
    LeaderInRange(l, |atoms|, groupSize);
    var leader := Leader(l, groupSize);
    LeaderValue(wmax[leader], wmin[leader], atoms, leader, groupSize);
  }

  /**
   All lanes run in lockstep, so one loop iteration rewrites every lane's registers at once. Every
   lane of a group receives the same value: in each half, an element of greatest magnitude.
   */
  method GroupAbsMax(atoms: seq<Atom>, groupSize: nat) returns (shared: seq<Packed>)
    requires PowerOfTwo(groupSize) && |atoms| % groupSize == 0
    ensures |shared| == |atoms|
    ensures forall l | 0 <= l < |atoms| :: SharedOk(atoms, shared, groupSize, l)
  {
    hide AtomMax, AtomMin, Windows, ShuffledMax, ShuffledMin, PackedAbsMax, SharedOk, Leader;
    var n := |atoms|;
    var wmax := seq(n, l requires 0 <= l < n => AtomMax(atoms[l]));
    var wmin := seq(n, l requires 0 <= l < n => AtomMin(atoms[l]));
    WindowsStart(atoms, wmax, wmin);
    PowerDoubles(groupSize);
    var i := 1;
    while i < groupSize
      invariant 0 < i <= groupSize && Doubles(i, groupSize) && |wmax| == |wmin| == n
      invariant Windows(atoms, wmax, wmin, i)
      decreases groupSize - i
    {
      WindowsStep(atoms, wmax, wmin, i);
      ShuffledLength(wmax, wmin, i);
      wmax, wmin, i := ShuffledMax(wmax, i), ShuffledMin(wmin, i), 2 * i;
    }
    var wblockmax := seq(n, l requires 0 <= l < n => PackedAbsMax(wmax[l], wmin[l]));
    shared := seq(n, l requires 0 <= l < n =>
      if Leader(l, groupSize) < n then wblockmax[Leader(l, groupSize)] else wblockmax[l]);
    forall l | 0 <= l < n
      ensures SharedOk(atoms, shared, groupSize, l)
    {
      WindowsEnd(atoms, wmax, wmin, groupSize, shared, l);
    }
  }

  lemma ShuffledLength(v: seq<Packed>, w: seq<Packed>, i: nat)
    ensures |ShuffledMax(v, i)| == |v| && |ShuffledMin(w, i)| == |w|
  {
  }
}
