/**
 The largest finite value of a small float format, computed by building the bits of a double.

 A format has `exponent` and `mantissa` bits, the standard exponent bias, and one of three ways to
 spend the patterns whose exponent is all ones: infinities and NaNs as in IEEE 754, one NaN pattern
 and otherwise finite numbers, or finite numbers only.
 */
module ScalarTypeMax {
  import opened Arith
  import opened Wrappers

  datatype NanRepr = NanNone | NanIeee754 | NanExtdRangeMaxMin

  const TWO_52: nat := 0x10_0000_0000_0000
  const TWO_63: nat := 0x8000_0000_0000_0000
  const TWO_64: nat := 0x1_0000_0000_0000_0000

  datatype Format = Format(exponent: nat, mantissa: nat, nanRepr: NanRepr)

  // ---------------------------------------------------------------- what patterns mean

  function Exp2(k: int): (r: real)
    ensures r > 0.0
    decreases if k < 0 then -k else k
  {
    if k == 0 then 1.0 else if k > 0 then 2.0 * Exp2(k - 1) else Exp2(k + 1) / 2.0
  }

  function Bias(exponent: nat): nat
    requires exponent >= 1
  {
    Pow2(exponent - 1) - 1
  }

  /** An exponent field of zero drops the implicit leading one and counts as exponent one. */
  function Significand(mantissa: nat, e: nat, m: nat): nat { if e == 0 then m else Pow2(mantissa) + m }

  function Scale(exponent: nat, mantissa: nat, e: nat): int
    requires exponent >= 1
  {
    (if e == 0 then 1 else e) - Bias(exponent) - mantissa
  }

  function Magnitude(exponent: nat, mantissa: nat, e: nat, m: nat): real
    requires exponent >= 1
  {
    Significand(mantissa, e, m) as real * Exp2(Scale(exponent, mantissa, e))
  }

  ghost predicate Finite(f: Format, e: nat, m: nat) {
    && e < Pow2(f.exponent) && m < Pow2(f.mantissa)
    && match f.nanRepr
       case NanNone => true
       case NanIeee754 => e != Pow2(f.exponent) - 1
       case NanExtdRangeMaxMin => !(e == Pow2(f.exponent) - 1 && m == Pow2(f.mantissa) - 1)
  }

  function DoubleExponent(bits: nat): nat { bits / TWO_52 % 0x800 }

  function DoubleMantissa(bits: nat): nat { bits % TWO_52 }

  function DoubleNegative(bits: nat): bool { bits / TWO_63 == 1 }

  function DoubleValue(bits: nat): real {
    var magnitude := Magnitude(11, 52, DoubleExponent(bits), DoubleMantissa(bits));
    if DoubleNegative(bits) then -magnitude else magnitude
  }

  ghost predicate NormalDouble(bits: nat) { bits < TWO_64 && 1 <= DoubleExponent(bits) <= 0x7FE }

  // ---------------------------------------------------------------- the code

  /** Unsigned 64-bit arithmetic. */
  function Wrap64(x: int): nat { x % TWO_64 }

  function MaxMantissa(f: Format): nat {
    var full := Wrap64(Pow2(f.mantissa)) - 1;
    if f.nanRepr == NanExtdRangeMaxMin then Wrap64(Wrap64(full) - 1) else Wrap64(full)
  }

  function MaxExponent(f: Format): nat {
    var allButTop := Wrap64(Wrap64(Pow2(f.exponent)) - 2);
    if f.nanRepr.NanIeee754? then allButTop else Wrap64(allButTop + 1)
  }

  function FloatingPointMax(f: Format): Option<nat>
    requires f.exponent >= 1
  {
    if f.mantissa > 52 || f.exponent > 11 then None
    else if !f.nanRepr.NanIeee754? && f.exponent >= 11 then None
    else
      var exponentDouble := Wrap64(MaxExponent(f) - Bias(f.exponent) + Bias(11));
      Some(BitOr(Wrap64(MaxMantissa(f) * Pow2(52 - f.mantissa)), Wrap64(exponentDouble * TWO_52)))
  }

  function RawMin(f: Format, isSigned: bool): Option<nat>
    requires f.exponent >= 1
  {
    if !isSigned then None
    else match FloatingPointMax(f)
      case None => None
      case Some(bits) => Some(BitOr(bits, TWO_63))
  }

  // ---------------------------------------------------------------- powers

  lemma {:induction false} Exp2Step(k: int)
    ensures Exp2(k + 1) == 2.0 * Exp2(k)
  {
  }

  lemma {:induction false} Exp2Add(k: int, n: nat)
    ensures Exp2(k + n) == Exp2(k) * Pow2(n) as real
  {
    hide Exp2;
    if n > 0 {
      Exp2Add(k, n - 1);
      Exp2Step(k + (n - 1));
    }
  }

  lemma RealProduct(c: real, a: real, b: real)
    requires c > 0.0
    ensures a <= b ==> c * a <= c * b && a * c <= b * c
    ensures a < b ==> c * a < c * b && a * c < b * c
  {
  }

  // ---------------------------------------------------------------- the order of the patterns

  /** The next exponent starts above everything with this one. */
  lemma {:induction false} NextExponent(exponent: nat, mantissa: nat, e: nat, m: nat)
    requires exponent >= 1 && m < Pow2(mantissa)
    ensures Magnitude(exponent, mantissa, e, m) < Magnitude(exponent, mantissa, e + 1, 0)
  {
    hide Exp2, Pow2, Bias;
    var p, s := Pow2(mantissa), Scale(exponent, mantissa, e);
    if e == 0 {
      RealProduct(Exp2(s), m as real, p as real);
    } else {
      Exp2Step(s);
      RealProduct(Exp2(s), (p + m) as real, 2.0 * p as real);
    }
  }

  lemma {:induction false} LaterExponent(exponent: nat, mantissa: nat, e: nat, m: nat, e': nat, m': nat)
    requires exponent >= 1 && m < Pow2(mantissa) && e < e'
    ensures Magnitude(exponent, mantissa, e, m) < Magnitude(exponent, mantissa, e', m')
    decreases e'
  {
    hide Magnitude, Pow2;
    if e + 1 < e' { LaterExponent(exponent, mantissa, e, m, e' - 1, 0); }
    if e + 1 == e' {
      NextExponent(exponent, mantissa, e, m);
    } else {
      assert 0 < Pow2(mantissa);
      NextExponent(exponent, mantissa, e' - 1, 0);
    }
    SameExponent(exponent, mantissa, e', 0, m');
  }

  lemma SameExponent(exponent: nat, mantissa: nat, e: nat, m: nat, m': nat)
    requires exponent >= 1 && m <= m'
    ensures Magnitude(exponent, mantissa, e, m) <= Magnitude(exponent, mantissa, e, m')
  {
    hide Exp2, Pow2, Bias;
    var scale := Exp2(Scale(exponent, mantissa, e));
    RealProduct(scale, Significand(mantissa, e, m) as real, Significand(mantissa, e, m') as real);
  }

  /** The values of a format are ordered as its patterns are: by exponent, then by mantissa. */
  lemma {:induction false} PatternOrder(exponent: nat, mantissa: nat, e: nat, m: nat, e': nat, m': nat)
    requires exponent >= 1 && m < Pow2(mantissa)
    requires e < e' || (e == e' && m <= m')
    ensures Magnitude(exponent, mantissa, e, m) <= Magnitude(exponent, mantissa, e', m')
  {
    hide *;
    if e < e' { LaterExponent(exponent, mantissa, e, m, e', m'); } else { SameExponent(exponent, mantissa, e, m, m'); }
  }

  // ---------------------------------------------------------------- the bits of the double

  function TopMantissa(f: Format): int { Pow2(f.mantissa) - if f.nanRepr.NanExtdRangeMaxMin? then 2 else 1 }

  function TopExponent(f: Format): int { Pow2(f.exponent) - if f.nanRepr.NanIeee754? then 2 else 1 }

  function TopDoubleExponent(f: Format): int
    requires f.exponent >= 1
  {
    TopExponent(f) - Bias(f.exponent) + Bias(11)
  }

  predicate Supported(f: Format) {
    1 <= f.exponent <= 11 && f.mantissa <= 52 && (f.nanRepr.NanIeee754? || f.exponent < 11)
  }

  /** The one unit to subtract from the mantissa that is not there, in `float8_e8m0fnu`. */
  predicate NoMantissaToSpare(f: Format) { f.mantissa == 0 && f.nanRepr.NanExtdRangeMaxMin? }

  lemma SmallPowers()
    ensures Pow2(0) == 1 && Pow2(1) == 2 && Pow2(2) == 4 && Pow2(10) == 0x400
  {
  }

  lemma Powers()
    ensures Pow2(0) == 1 && Pow2(1) == 2 && Pow2(10) == 0x400 && Pow2(11) == 0x800
    ensures Pow2(52) == TWO_52 && Pow2(63) == TWO_63 && Pow2(64) == TWO_64
  {
    hide Pow2;
    SmallPowers();
    Pow2Add(10, 1);
    Pow2Add(10, 10);
    Pow2Add(20, 20);
    Pow2Add(40, 10);
    Pow2Add(50, 2);
    Pow2Add(52, 11);
    Pow2Add(63, 1);
  }

  lemma Ranges(f: Format)
    requires Supported(f)
    ensures 1 <= TopDoubleExponent(f) <= 0x7FE && 0 <= TopExponent(f) < 0x800
    ensures -1 <= TopMantissa(f) < Pow2(f.mantissa) && (TopMantissa(f) < 0 <==> NoMantissaToSpare(f))
  {
    hide Pow2;
    Powers();
    Pow2Add(1, f.exponent - 1);
    if f.exponent < 11 { Pow2Monotone(f.exponent, 10); }
    if f.mantissa >= 1 { Pow2Add(1, f.mantissa - 1); }
  }

  lemma WrapSmall(x: int)
    requires 0 <= x < TWO_64
    ensures Wrap64(x) == x
  {
    hide Pow2;
    DivUnique(x, 0, x, TWO_64);
  }

  /** No step of the computation wraps around, as long as there is a mantissa to take one from. */
  lemma CodeParts(f: Format)
    requires Supported(f) && !NoMantissaToSpare(f)
    ensures MaxMantissa(f) == TopMantissa(f) && MaxExponent(f) == TopExponent(f)
    ensures Wrap64(MaxExponent(f) - Bias(f.exponent) + Bias(11)) == TopDoubleExponent(f)
  {
    hide Pow2, Wrap64;
    Powers();
    Ranges(f);
    Pow2Monotone(f.mantissa, 52);
    Pow2Monotone(f.exponent, 11);
    Pow2Monotone(1, f.exponent);
    WrapSmall(Pow2(f.mantissa));
    WrapSmall(Pow2(f.mantissa) - 1);
    WrapSmall(Pow2(f.exponent));
    WrapSmall(Pow2(f.exponent) - 2);
    WrapSmall(TopMantissa(f));
    WrapSmall(TopExponent(f));
    WrapSmall(TopDoubleExponent(f));
  }

  lemma ShiftedMantissa(f: Format, m: nat)
    requires f.mantissa <= 52 && m < Pow2(f.mantissa)
    ensures m * Pow2(52 - f.mantissa) < TWO_52
  {
    hide Pow2;
    Powers();
    Pow2Add(f.mantissa, 52 - f.mantissa);
    MulBound(m, Pow2(52 - f.mantissa), Pow2(f.mantissa), 0);
  }

  lemma MaxBits(f: Format) returns (x: nat, low: nat)
    requires Supported(f) && !NoMantissaToSpare(f)
    ensures x == TopDoubleExponent(f) && low == TopMantissa(f) * Pow2(52 - f.mantissa) && low < TWO_52
    ensures FloatingPointMax(f) == Some(DoubleOf(false, x, low))
  {
    hide Pow2, Wrap64, TopMantissa, TopDoubleExponent, MaxMantissa, MaxExponent, Bias, BitOr, TopExponent;
    Powers();
    Ranges(f);
    CodeParts(f);
    x := TopDoubleExponent(f);
    ShiftedMantissa(f, TopMantissa(f));
    low := TopMantissa(f) * Pow2(52 - f.mantissa);
    WrapSmall(low);
    WrapSmall(x * TWO_52);
    BitOrDisjoint(low, x, 52);
  }

  function DoubleOf(negative: bool, x: nat, low: nat): nat { low + x * TWO_52 + if negative then TWO_63 else 0 }

  /** Reading a double built from its three parts gives back the parts. */
  lemma DoubleParts(negative: bool, x: nat, low: nat)
    requires x < 0x800 && low < TWO_52
    ensures DoubleOf(negative, x, low) < TWO_64 && DoubleNegative(DoubleOf(negative, x, low)) == negative
    ensures DoubleExponent(DoubleOf(negative, x, low)) == x && DoubleMantissa(DoubleOf(negative, x, low)) == low
  {
    var s := if negative then 1 else 0;
    var bits := DoubleOf(negative, x, low);
    DivUnique(bits, s, low + x * TWO_52, TWO_63);
    DivUnique(bits, x + s * 0x800, low, TWO_52);
    DivUnique(x + s * 0x800, s, x, 0x800);
  }

  // ---------------------------------------------------------------- the value of the double

  /** The value of a pattern with the implicit leading one. */
  function Normal(f: Format, e: int, m: int): real
    requires f.exponent >= 1
  {
    (Pow2(f.mantissa) + m) as real * Exp2(e - Bias(f.exponent) - f.mantissa)
  }

  /** Widening a normal number of the format to a double keeps its value. */
  lemma Widen(f: Format, e: nat, m: nat)
    requires Supported(f) && e - Bias(f.exponent) + Bias(11) >= 1
    ensures Magnitude(11, 52, e - Bias(f.exponent) + Bias(11), m * Pow2(52 - f.mantissa))
         == Normal(f, e, m)
  {
    hide Pow2, Exp2, Bias;
    Powers();
    var up, k := Pow2(52 - f.mantissa), e - Bias(f.exponent) - 52;
    Pow2Add(f.mantissa, 52 - f.mantissa);
    Exp2Add(k, 52 - f.mantissa);
    assert TWO_52 + m * up == (Pow2(f.mantissa) + m) * up;
    RealOfProduct(Pow2(f.mantissa) + m, up);
    assert k + (52 - f.mantissa) == e - Bias(f.exponent) - f.mantissa;
    Swap((Pow2(f.mantissa) + m) as real, up as real, Exp2(k));
  }

  lemma RealOfProduct(a: int, b: int)
    ensures (a * b) as real == a as real * b as real
  {
  }

  lemma Swap(a: real, b: real, c: real)
    ensures a * b * c == a * (c * b)
  {
  }

  lemma MaxValue(f: Format)
    requires Supported(f) && !NoMantissaToSpare(f)
    ensures FloatingPointMax(f).Some?
    ensures NormalDouble(FloatingPointMax(f).value) && !DoubleNegative(FloatingPointMax(f).value)
    ensures DoubleValue(FloatingPointMax(f).value) == Normal(f, TopExponent(f), TopMantissa(f))
  {
    hide Pow2, TopMantissa, TopExponent, MaxMantissa, MaxExponent, Bias, BitOr, Magnitude, DoubleExponent;
    hide DoubleMantissa, DoubleNegative, FloatingPointMax;
    Powers();
    Ranges(f);
    var x, low := MaxBits(f);
    DoubleParts(false, x, low);
    Widen(f, TopExponent(f), TopMantissa(f));
  }

  // ---------------------------------------------------------------- the largest finite value

  ghost predicate Bounds(f: Format, value: real)
    requires f.exponent >= 1
  {
    forall e: nat, m: nat | Finite(f, e, m) :: Magnitude(f.exponent, f.mantissa, e, m) <= value
  }

  ghost predicate Attained(f: Format, value: real)
    requires f.exponent >= 1
  {
    exists e: nat, m: nat :: Finite(f, e, m) && Magnitude(f.exponent, f.mantissa, e, m) == value
  }

  ghost predicate IsLargest(f: Format, bits: nat)
    requires f.exponent >= 1
  {
    NormalDouble(bits) && Bounds(f, DoubleValue(bits)) && Attained(f, DoubleValue(bits))
  }

  /** With one exponent bit, IEEE formats have only the exponent zero, which lacks the leading one. */
  predicate OnlySubnormals(f: Format) { f.exponent == 1 && f.nanRepr.NanIeee754? }

  lemma TopPatternIsLargest(f: Format)
    requires Supported(f) && !NoMantissaToSpare(f) && !OnlySubnormals(f)
    ensures var top := Normal(f, TopExponent(f), TopMantissa(f)); Bounds(f, top) && Attained(f, top)
  {
    hide Pow2, Exp2, Bias;
    Ranges(f);
    Powers();
    Pow2Monotone(1, f.exponent);
    if f.exponent >= 2 { Pow2Monotone(2, f.exponent); SmallPowers(); }
    var e: nat, m: nat := TopExponent(f), TopMantissa(f);
    assert e >= 1 && Finite(f, e, m);
    assert Normal(f, e, m) == Magnitude(f.exponent, f.mantissa, e, m);
    forall e': nat, m': nat | Finite(f, e', m')
      ensures Magnitude(f.exponent, f.mantissa, e', m') <= Normal(f, e, m)
    {
      PatternOrder(f.exponent, f.mantissa, e', m', e, m);
    }
  }

  lemma SubnormalsStayBelow(f: Format, e: nat, m: nat)
    requires Supported(f) && OnlySubnormals(f) && Finite(f, e, m)
    ensures Magnitude(f.exponent, f.mantissa, e, m) < Normal(f, TopExponent(f), TopMantissa(f))
  {
    hide Exp2, Pow2;
    Powers();
    var p, s := Pow2(f.mantissa), 0 - f.mantissa;
    assert Bias(1) == 0 && e == 0 && TopExponent(f) == 0;
    Exp2Step(s);
    assert 1 - f.mantissa == s + 1;
    var step := Exp2(s);
    Swap(m as real, 2.0, step);
    RealProduct(step, m as real * 2.0, (p + TopMantissa(f)) as real);
  }

  /** Borrowing from an empty mantissa sets every bit from 52 upwards: minus infinity. */
  lemma BorrowGivesMinusInfinity(f: Format)
    requires Supported(f) && NoMantissaToSpare(f)
    ensures FloatingPointMax(f) == Some(DoubleOf(true, 0x7FF, 0)) && !NormalDouble(DoubleOf(true, 0x7FF, 0))
  {
    hide Pow2, BitOr, TopDoubleExponent, Bias;
    Powers();
    BorrowParts(f);
    DivUnique((TWO_64 - 1) * TWO_52, TWO_52 - 1, 0xFFF * TWO_52, TWO_64);
    assert Wrap64(MaxMantissa(f) * Pow2(52 - f.mantissa)) == 0xFFF * Pow2(52);
    Ranges(f);
    WrapSmall(TopDoubleExponent(f) * TWO_52);
    BitOrShifted(0xFFF, TopDoubleExponent(f), 52);
    Pow2Add(11, 1);
    BitOrOnes(TopDoubleExponent(f), 12);
    DoubleParts(true, 0x7FF, 0);
  }

  lemma BorrowParts(f: Format)
    requires Supported(f) && NoMantissaToSpare(f)
    ensures MaxMantissa(f) == TWO_64 - 1
    ensures Wrap64(MaxExponent(f) - Bias(f.exponent) + Bias(11)) == TopDoubleExponent(f)
  {
    hide Pow2, Bias, Wrap64;
    Powers();
    Ranges(f);
    Pow2Monotone(f.exponent, 11);
    Pow2Monotone(1, f.exponent);
    WrapSmall(1);
    WrapSmall(0);
    WrapSmall(Pow2(f.exponent));
    WrapSmall(Pow2(f.exponent) - 2);
    WrapSmall(TopExponent(f));
    WrapSmall(TopDoubleExponent(f));
    WrapMinusOne();
  }

  lemma WrapMinusOne()
    ensures Wrap64(-1) == TWO_64 - 1
  {
  }

  lemma {:induction false} BitOrShifted(a: nat, b: nat, k: nat)
    ensures BitOr(a * Pow2(k), b * Pow2(k)) == BitOr(a, b) * Pow2(k)
  {
    hide Pow2, BitOr;
    Powers();
    if k > 0 {
      var p := Pow2(k - 1);
      Pow2Add(1, k - 1);
      BitOrShifted(a, b, k - 1);
      assert a * (2 * p) == 2 * (a * p) && b * (2 * p) == 2 * (b * p) && BitOr(a, b) * (2 * p) == 2 * (BitOr(a, b) * p);
      BitOrDoubled(a * p, b * p);
    }
  }

  lemma {:induction false} BitOrDoubled(a: nat, b: nat)
    ensures BitOr(2 * a, 2 * b) == 2 * BitOr(a, b)
  {
  }

  lemma {:induction false} BitOrOnes(x: nat, k: nat)
    requires x < Pow2(k)
    ensures BitOr(Pow2(k) - 1, x) == Pow2(k) - 1
  {
    hide Pow2, BitOr;
    SmallPowers();
    if k == 0 {
      BitOrNothing();
    } else {
      Pow2Add(1, k - 1);
      BitOrOnes(x / 2, k - 1);
      BitOrOdd(Pow2(k - 1) - 1, x);
    }
  }

  lemma BitOrNothing()
    ensures BitOr(0, 0) == 0
  {
  }

  lemma {:induction false} BitOrOdd(a: nat, x: nat)
    ensures BitOr(2 * a + 1, x) == 2 * BitOr(a, x / 2) + 1
  {
    assert (2 * a + 1) / 2 == a;
  }

  /**
   The code finds the largest finite value of every format it does not reject, with two families of
   exceptions. They are told apart by the fields alone.
   */
  lemma MaxIsLargest(f: Format)
    requires f.exponent >= 1
    ensures FloatingPointMax(f).Some? <==> Supported(f)
    ensures Supported(f) ==>
      (IsLargest(f, FloatingPointMax(f).value) <==> !OnlySubnormals(f) && !NoMantissaToSpare(f))
  {
    hide Pow2, Magnitude, Normal, TopMantissa, TopExponent, Finite;
    if Supported(f) {
      if NoMantissaToSpare(f) {
        BorrowGivesMinusInfinity(f);
      } else {
        MaxValue(f);
        if OnlySubnormals(f) {
          NotAttained(f);
        } else {
          TopPatternIsLargest(f);
        }
      }
    }
  }

  lemma NotAttained(f: Format)
    requires Supported(f) && OnlySubnormals(f)
    ensures var top := Normal(f, TopExponent(f), TopMantissa(f)); Bounds(f, top) && !Attained(f, top)
  {
    hide Magnitude, Normal, TopMantissa, TopExponent, Finite;
    forall e: nat, m: nat | Finite(f, e, m)
      ensures Magnitude(f.exponent, f.mantissa, e, m) < Normal(f, TopExponent(f), TopMantissa(f))
    {
      SubnormalsStayBelow(f, e, m);
    }
  }

  /** The smallest value is the negated largest one: setting bit 63 flips the sign and nothing else. */
  lemma MinIsNegatedMax(f: Format)
    requires Supported(f) && !NoMantissaToSpare(f)
    ensures FloatingPointMax(f).Some? && RawMin(f, true).Some? && RawMin(f, false).None?
    ensures NormalDouble(RawMin(f, true).value) && DoubleNegative(RawMin(f, true).value)
    ensures DoubleValue(RawMin(f, true).value) == -DoubleValue(FloatingPointMax(f).value)
  {
    hide Pow2, TopMantissa, TopDoubleExponent, Bias, BitOr, Magnitude, DoubleExponent, DoubleMantissa, DoubleNegative;
    hide FloatingPointMax;
    Ranges(f);
    var x, low := MaxBits(f);
    Powers();
    BitOrDisjoint(DoubleOf(false, x, low), 1, 63);
    DoubleParts(false, x, low);
    DoubleParts(true, x, low);
  }

  // ---------------------------------------------------------------- patterns and results in plain numbers

  /** The pattern whose exponent field is a zero followed by ones, with an empty mantissa, means one. */
  lemma OneMeansOne(exponent: nat, mantissa: nat)
    requires exponent >= 2
    ensures Magnitude(exponent, mantissa, Pow2(exponent - 1) - 1, 0) == 1.0
  {
    hide Exp2, Pow2;
    SmallPowers();
    Pow2Monotone(1, exponent - 1);
    Exp2Add(0 - mantissa, mantissa);
    ZeroPower();
    assert (0 - mantissa) + mantissa == 0;
  }

  lemma ZeroPower()
    ensures Exp2(0) == 1.0
  {
  }

  /**
   The exponent field doubles the value, the mantissa field divides the way to the next power evenly, and
   subnormals divide the way from zero to the first power. With the pattern of one this fixes every value.
   */
  lemma {:induction false} FieldsMean(exponent: nat, mantissa: nat, e: nat, m: nat)
    requires exponent >= 1 && e >= 1
    ensures Magnitude(exponent, mantissa, e + 1, m) == 2.0 * Magnitude(exponent, mantissa, e, m)
    ensures Magnitude(exponent, mantissa, e, m) * Pow2(mantissa) as real ==
      Magnitude(exponent, mantissa, e, 0) * (Pow2(mantissa) + m) as real
    ensures Magnitude(exponent, mantissa, 0, m) * Pow2(mantissa) as real ==
      Magnitude(exponent, mantissa, 1, 0) * m as real
  {
    hide Exp2, Pow2, Bias;
    var p, s := Pow2(mantissa), Scale(exponent, mantissa, e);
    Exp2Step(s);
    Swap((p + m) as real, 2.0, Exp2(s));
    Exchange((p + m) as real, Exp2(s), p as real);
    Exchange(m as real, Exp2(Scale(exponent, mantissa, 0)), p as real);
  }

  lemma Exchange(a: real, x: real, b: real)
    ensures a * x * b == b * x * a
  {
    Associate(a, x, b);
    Associate(b, x, a);
  }

  lemma Associate(a: real, x: real, b: real)
    ensures a * x * b == x * (a * b)
  {
  }

  /** The exponent of the largest power of two in the format, by the way it spends its last patterns. */
  function TopPower(f: Format): nat
    requires f.exponent >= 1
  {
    Pow2(f.exponent - 1) - if f.nanRepr.NanIeee754? then 1 else 0
  }

  /**
   The result in closed form: one unit in the last place below twice the largest power of two, or two units
   where the last pattern is the NaN.
   */
  lemma MaxInClosedForm(f: Format)
    requires Supported(f) && !NoMantissaToSpare(f)
    ensures FloatingPointMax(f).Some?
    ensures var units := 2 * Pow2(f.mantissa) - if f.nanRepr.NanExtdRangeMaxMin? then 2 else 1;
      DoubleValue(FloatingPointMax(f).value) * Pow2(f.mantissa) as real == units as real * Pow2(TopPower(f)) as real
  {
    hide Pow2, Exp2, FloatingPointMax, DoubleValue;
    Powers();
    MaxValue(f);
    Pow2Add(1, f.exponent - 1);
    var k := TopPower(f) - f.mantissa;
    assert TopExponent(f) - Bias(f.exponent) - f.mantissa == k;
    Exp2Add(k, f.mantissa);
    Exp2Add(0, TopPower(f));
    ZeroPower();
    assert k + f.mantissa == 0 + TopPower(f);
    var units := (Pow2(f.mantissa) + TopMantissa(f)) as real;
    Regroup3(units, Exp2(k), Pow2(f.mantissa) as real);
  }

  lemma Regroup3(a: real, b: real, c: real)
    ensures a * b * c == a * (b * c)
  {
  }

  lemma MaxOf(f: Format, value: real)
    requires Supported(f) && !NoMantissaToSpare(f)
    requires var units := 2 * Pow2(f.mantissa) - if f.nanRepr.NanExtdRangeMaxMin? then 2 else 1;
      value * Pow2(f.mantissa) as real == units as real * Pow2(TopPower(f)) as real
    ensures FloatingPointMax(f).Some? && DoubleValue(FloatingPointMax(f).value) == value
  {
    hide Pow2, FloatingPointMax, DoubleValue, TopPower;
    MaxInClosedForm(f);
    CancelPower(DoubleValue(FloatingPointMax(f).value), value, Pow2(f.mantissa) as real);
  }

  lemma CancelPower(a: real, b: real, p: real)
    requires p > 0.0 && a * p == b * p
    ensures a == b
  {
    if a < b { RealProduct(p, a, b); }
    if b < a { RealProduct(p, b, a); }
  }

  /** The largest values of the small formats that the library names. */
  lemma NamedMaxima()
    ensures forall x | x in [
      (Format(2, 1, NanNone), 6.0), (Format(3, 2, NanNone), 28.0), (Format(2, 3, NanNone), 7.5),
      (Format(4, 3, NanExtdRangeMaxMin), 448.0), (Format(5, 2, NanIeee754), 57344.0),
      (Format(5, 10, NanIeee754), 65504.0)] ::
      FloatingPointMax(x.0).Some? && DoubleValue(FloatingPointMax(x.0).value) == x.1
  {
    hide FloatingPointMax, DoubleValue, Pow2;
    PowersUpTo16();
    MaxOf(Format(2, 1, NanNone), 6.0);
    MaxOf(Format(3, 2, NanNone), 28.0);
    MaxOf(Format(2, 3, NanNone), 7.5);
    MaxOf(Format(4, 3, NanExtdRangeMaxMin), 448.0);
    MaxOf(Format(5, 2, NanIeee754), 57344.0);
    MaxOf(Format(5, 10, NanIeee754), 65504.0);
  }

  lemma PowersUpTo16()
    ensures Pow2(1) == 2 && Pow2(2) == 4 && Pow2(3) == 8 && Pow2(4) == 16 && Pow2(8) == 0x100
    ensures Pow2(10) == 0x400 && Pow2(15) == 0x8000 && Pow2(16) == 0x1_0000
  {
    hide Pow2;
    Powers();
    SmallPowers();
    Pow2Add(1, 2);
    Pow2Add(2, 2);
    Pow2Add(4, 4);
    Pow2Add(8, 8);
    Pow2Add(1, 15);
  }
}
