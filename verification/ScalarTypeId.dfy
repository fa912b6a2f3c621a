/**
 The 64-bit id of a scalar type: its fields, of different widths and signedness, packed one after
 the other from the lowest bit upwards.
 */
module ScalarTypeId {
  import opened Arith

  datatype Field = Field(width: nat, signed: bool)

  ghost predicate FieldsOk(fields: seq<Field>) { forall i | 0 <= i < |fields| :: 0 < fields[i].width }

  function Width(fields: seq<Field>): nat { if fields == [] then 0 else fields[0].width + Width(fields[1..]) }

  ghost predicate Fits(f: Field, v: int)
    requires 0 < f.width
  {
    var half: int, all: int := Pow2(f.width - 1), Pow2(f.width);
    if f.signed then -half <= v < half else 0 <= v < all
  }

  ghost predicate AllFit(fields: seq<Field>, values: seq<int>)
    requires FieldsOk(fields)
  {
    |values| == |fields| && forall i | 0 <= i < |fields| :: Fits(fields[i], values[i])
  }

  /** The low bits of the member, in two's complement. */
  function Masked(f: Field, v: int): nat { v % Pow2(f.width) }

  /** Back to the member's type. */
  function Cast(f: Field, raw: nat): int
    requires 0 < f.width
  {
    if f.signed && raw >= Pow2(f.width - 1) then raw - Pow2(f.width) else raw
  }

  /** The left fold of `id`: or in each member at the running bit offset. */
  function Pack(fields: seq<Field>, values: seq<int>, id: nat, bitOffset: nat): nat
    requires |values| == |fields|
  {
    if fields == [] then id
    else
      var bits := Masked(fields[0], values[0]) * Pow2(bitOffset);
      Pack(fields[1..], values[1..], BitOr(id, bits), bitOffset + fields[0].width)
  }

  /** The left fold of `from_id`: shift (arithmetically, the id is signed), mask and cast. */
  function Unpack(fields: seq<Field>, id: int, bitOffset: nat): (values: seq<int>)
    requires FieldsOk(fields)
    ensures |values| == |fields| && forall i | 0 <= i < |fields| && !fields[i].signed :: values[i] >= 0
  {
    if fields == [] then []
    else
      [Cast(fields[0], id / Pow2(bitOffset) % Pow2(fields[0].width))] +
      Unpack(fields[1..], id, bitOffset + fields[0].width)
  }

  /** A 64-bit pattern read as a signed number. */
  function Signed64(bits: nat): int { if bits >= Pow2(63) then bits - Pow2(64) else bits }

  // ---------------------------------------------------------------- mixed-radix numbers

  ghost function Number(fields: seq<Field>, values: seq<int>): nat
    requires |values| == |fields|
  {
    if fields == [] then 0 else Masked(fields[0], values[0]) + Pow2(fields[0].width) * Number(fields[1..], values[1..])
  }

  ghost function Digits(fields: seq<Field>, n: nat): (values: seq<int>)
    requires FieldsOk(fields)
    ensures |values| == |fields|
  {
    if fields == [] then []
    else
      var p := Pow2(fields[0].width);
      [Cast(fields[0], n % p)] + Digits(fields[1..], Quotient(n, p))
  }

  function Quotient(n: nat, p: nat): nat
    requires p > 0
  {
    n / p
  }

  lemma CastOfMasked(f: Field, v: int)
    requires 0 < f.width && Fits(f, v)
    ensures Cast(f, Masked(f, v)) == v
  {
    assert Pow2(f.width) == 2 * Pow2(f.width - 1);
    if v < 0 { DivUnique(v, -1, v + Pow2(f.width), Pow2(f.width)); } else { DivUnique(v, 0, v, Pow2(f.width)); }
  }

  lemma MaskedOfCast(f: Field, raw: nat)
    requires 0 < f.width && raw < Pow2(f.width)
    ensures Fits(f, Cast(f, raw)) && Masked(f, Cast(f, raw)) == raw
  {
    assert Pow2(f.width) == 2 * Pow2(f.width - 1);
    DivUnique(raw, 0, raw, Pow2(f.width));
    if f.signed && raw >= Pow2(f.width - 1) { DivUnique(raw - Pow2(f.width), -1, raw, Pow2(f.width)); }
  }

  lemma {:induction false} DigitsOfNumber(fields: seq<Field>, values: seq<int>)
    requires FieldsOk(fields) && AllFit(fields, values)
    ensures Digits(fields, Number(fields, values)) == values
  {
    if fields != [] {
      var p, rest := Pow2(fields[0].width), Number(fields[1..], values[1..]);
      DivUnique(Number(fields, values), rest, Masked(fields[0], values[0]), p);
      CastOfMasked(fields[0], values[0]);
      DigitsOfNumber(fields[1..], values[1..]);
    }
  }

  /** The number of the digits is the number itself, but for the bits past the last field. */
  lemma {:induction false} NumberOfDigits(fields: seq<Field>, n: nat)
    requires FieldsOk(fields)
    ensures AllFit(fields, Digits(fields, n)) && Number(fields, Digits(fields, n)) == n % Pow2(Width(fields))
  {
    hide Pow2, Masked, Cast, Fits;
    if fields == [] {
      PowZero();
    } else {
      var w, rest := fields[0].width, fields[1..];
      var p, digits := Pow2(w), Digits(fields, n);
      Pow2Add(w, Width(rest));
      NumberOfDigits(rest, Quotient(n, p));
      MaskedOfCast(fields[0], n % p);
      assert digits[0] == Cast(fields[0], n % p) && digits[1..] == Digits(rest, Quotient(n, p));
      ModSplit(n, p, Pow2(Width(rest)));
      assert forall i | 1 <= i < |fields| :: fields[i] == rest[i - 1] && digits[i] == digits[1..][i - 1];
    }
  }

  lemma PowZero()
    ensures Pow2(0) == 1
  {
  }

  lemma ModSplit(n: nat, p: nat, q: nat)
    requires p > 0 && q > 0
    ensures p * q > 0 && n % (p * q) == n % p + p * (n / p % q)
  {
    var d, r := n / p, n % p;
    MulBound(d % q, p, q, r);
    assert n == d * p + r && d == (d / q) * q + d % q;
    assert n == (d / q) * (p * q) + ((d % q) * p + r);
    DivUnique(n, d / q, (d % q) * p + r, p * q);
  }

  lemma {:induction false} NumberBound(fields: seq<Field>, values: seq<int>)
    requires |values| == |fields|
    ensures Number(fields, values) < Pow2(Width(fields))
  {
    hide Pow2;
    if fields == [] {
      PowZero();
    } else {
      NumberBound(fields[1..], values[1..]);
      Pow2Add(fields[0].width, Width(fields[1..]));
      var first := Masked(fields[0], values[0]);
      MulBound(Number(fields[1..], values[1..]), Pow2(fields[0].width), Pow2(Width(fields[1..])), first);
    }
  }

  // ---------------------------------------------------------------- the folds

  /** The fold of `id` adds the mixed-radix number of the members above the bits it already has. */
  lemma {:induction false} PackIsNumber(fields: seq<Field>, values: seq<int>, id: nat, bitOffset: nat)
    requires |values| == |fields| && id < Pow2(bitOffset)
    ensures Pack(fields, values, id, bitOffset) == id + Pow2(bitOffset) * Number(fields, values)
  {
    hide Pow2, BitOr, Masked;
    if fields != [] {
      var w, m: nat, p: nat := fields[0].width, Masked(fields[0], values[0]), Pow2(bitOffset);
      var rest := Number(fields[1..], values[1..]);
      MaskedBound(fields[0], values[0]);
      BitOrDisjoint(id, m, bitOffset);
      Pow2Add(bitOffset, w);
      MulBound(m, p, Pow2(w), id);
      PackIsNumber(fields[1..], values[1..], id + m * p, bitOffset + w);
      Regroup(p, m, Pow2(w), rest);
    }
  }

  lemma MaskedBound(f: Field, v: int)
    ensures Masked(f, v) < Pow2(f.width)
  {
  }

  lemma Regroup(p: int, m: int, q: int, rest: int)
    ensures p * (m + q * rest) == m * p + (p * q) * rest
  {
  }

  /** The fold of `from_id` reads off the digits, also when the top bit makes the id negative. */
  lemma {:induction false} UnpackIsDigits(fields: seq<Field>, bits: nat, bitOffset: nat)
    requires FieldsOk(fields) && bits < Pow2(64) && bitOffset + Width(fields) <= 64
    ensures Unpack(fields, Signed64(bits), bitOffset) == Digits(fields, Quotient(bits, Pow2(bitOffset)))
  {
    hide Pow2, Cast, Signed64;
    if fields != [] {
      var w := fields[0].width;
      ShiftOfSigned(bits, bitOffset, w);
      UnpackIsDigits(fields[1..], bits, bitOffset + w);
      Pow2Add(bitOffset, w);
      DivDiv(bits, Pow2(bitOffset), Pow2(w));
    }
  }

  /** An arithmetic shift of a negative id still leaves the wanted bits at the bottom. */
  lemma {:induction false} ShiftOfSigned(bits: nat, bitOffset: nat, w: nat)
    requires bits < Pow2(64) && bitOffset + w <= 64
    ensures Signed64(bits) / Pow2(bitOffset) % Pow2(w) == bits / Pow2(bitOffset) % Pow2(w)
  {
    hide Pow2;
    var p, q, k := Pow2(bitOffset), Pow2(w), Pow2(64 - bitOffset - w);
    Pow2Add(bitOffset, 64 - bitOffset);
    Pow2Add(w, 64 - bitOffset - w);
    SubtractedMultiple(bits, p, q, k);
  }

  lemma SubtractedMultiple(x: int, p: int, q: int, k: int)
    requires p > 0 && q > 0
    ensures (x - p * (q * k)) / p % q == x / p % q
  {
    var high := x / p;
    assert x - p * (q * k) == (high - q * k) * p + x % p;
    DivUnique(x - p * (q * k), high - q * k, x % p, p);
    assert high - q * k == (high / q - k) * q + high % q;
    DivUnique(high - q * k, high / q - k, high % q, q);
  }

  /** Packing and unpacking undo each other, for every list of fields of at most 64 bits. */
  lemma {:induction false} UnpackOfPack(fields: seq<Field>, values: seq<int>)
    requires FieldsOk(fields) && AllFit(fields, values) && Width(fields) <= 64
    ensures Pack(fields, values, 0, 0) < Pow2(Width(fields))
    ensures Unpack(fields, Signed64(Pack(fields, values, 0, 0)), 0) == values
  {
    hide Number, Digits, Pack, Unpack, Width, Signed64, Pow2, Fits;
    PowZero();
    PackIsNumber(fields, values, 0, 0);
    NumberBound(fields, values);
    Pow2Monotone(Width(fields), 64);
    UnpackIsDigits(fields, Number(fields, values), 0);
    DigitsOfNumber(fields, values);
  }

  /** The other way round, the bits past the last field are what is lost. */
  lemma {:induction false} PackOfUnpack(fields: seq<Field>, bits: nat)
    requires FieldsOk(fields) && Width(fields) <= 64 && bits < Pow2(64)
    ensures AllFit(fields, Unpack(fields, Signed64(bits), 0))
    ensures Pack(fields, Unpack(fields, Signed64(bits), 0), 0, 0) == bits % Pow2(Width(fields))
  {
    hide Number, Digits, Pack, Unpack, Width, Signed64, Pow2, Fits;
    PowZero();
    UnpackIsDigits(fields, bits, 0);
    NumberOfDigits(fields, bits);
    PackIsNumber(fields, Digits(fields, bits), 0, 0);
  }

  // ---------------------------------------------------------------- the scalar type itself

  datatype ScalarType =
    ScalarType(exponent: nat, mantissa: nat, signed: bool, bias: int, finiteValuesOnly: bool, nanRepr: nat)

  /** The members have their C++ types: two bytes, a flag, a 32-bit signed number, a flag and a byte. */
  ghost predicate TypeOk(t: ScalarType) {
    t.exponent < 0x100 && t.mantissa < 0x100 && -0x8000_0000 <= t.bias < 0x8000_0000 && t.nanRepr < 0x100
  }

  const MEMBERS: seq<Field> :=
    [Field(8, false), Field(8, false), Field(1, false), Field(32, true), Field(1, false), Field(8, false)]

  function Values(t: ScalarType): seq<int> {
    [t.exponent, t.mantissa, if t.signed then 1 else 0, t.bias, if t.finiteValuesOnly then 1 else 0, t.nanRepr]
  }

  function Id(t: ScalarType): int { Signed64(Pack(MEMBERS, Values(t), 0, 0)) }

  function FromId(id: int): ScalarType {
    var v := Unpack(MEMBERS, id, 0);
    ScalarType(v[0], v[1], v[2] != 0, v[3], v[4] != 0, v[5])
  }

  lemma MembersWidth()
    ensures FieldsOk(MEMBERS) && Width(MEMBERS) == 58
    ensures Pow2(1) == 2 && Pow2(8) == 0x100 && Pow2(31) == 0x8000_0000
  {
    assert MEMBERS[1..] == [Field(8, false), Field(1, false), Field(32, true), Field(1, false), Field(8, false)];
    assert MEMBERS[1..][1..] == [Field(1, false), Field(32, true), Field(1, false), Field(8, false)];
    assert MEMBERS[1..][1..][1..] == [Field(32, true), Field(1, false), Field(8, false)];
    assert MEMBERS[1..][1..][1..][1..] == [Field(1, false), Field(8, false)];
    assert MEMBERS[1..][1..][1..][1..][1..] == [Field(8, false)];
    Pow2Add(8, 8);
    Pow2Add(16, 15);
    Pow2Add(8, 7);
  }

  lemma ValuesFit(t: ScalarType)
    requires TypeOk(t)
    ensures FieldsOk(MEMBERS) && AllFit(MEMBERS, Values(t))
  {
    MembersWidth();
  }

  /** A type survives the way through its id, which is never negative. */
  lemma FromIdOfId(t: ScalarType)
    requires TypeOk(t)
    ensures FromId(Id(t)) == t && 0 <= Id(t) < Pow2(58)
  {
    hide Pack, Unpack, Pow2, Signed64;
    MembersWidth();
    ValuesFit(t);
    UnpackOfPack(MEMBERS, Values(t));
    SmallIsNotNegative(Pack(MEMBERS, Values(t), 0, 0));
  }

  lemma SmallIsNotNegative(bits: nat)
    requires bits < Pow2(58)
    ensures Signed64(bits) == bits
  {
    hide Pow2;
    Pow2Monotone(58, 63);
  }

  /** Any 64-bit number names a type; going back to the id clears the top six bits. */
  lemma IdOfFromId(bits: nat)
    requires bits < Pow2(64)
    ensures TypeOk(FromId(Signed64(bits))) && Id(FromId(Signed64(bits))) == bits % Pow2(58)
  {
    hide Pack, Unpack, Pow2, Signed64, Width;
    MembersWidth();
    PackOfUnpack(MEMBERS, bits);
    var v := Unpack(MEMBERS, Signed64(bits), 0);
    FitsMembers(v);
    assert Values(FromId(Signed64(bits))) == v;
    SmallIsNotNegative(bits % Pow2(58));
  }

  /** So a 64-bit signed number is the id of a type exactly when it has at most 58 bits. */
  lemma IdsAreTheSmallNumbers(n: int)
    requires var limit: int := Pow2(63); -limit <= n < limit
    ensures Id(FromId(n)) == n <==> 0 <= n < Pow2(58)
  {
    hide Pow2, Id, FromId, TypeOk;
    Pow2Add(1, 63);
    Pow2OfOne();
    var bits: nat := if n < 0 then n + Pow2(64) else n;
    assert Signed64(bits) == n;
    IdOfFromId(bits);
    ModSmall(bits, Pow2(58));
  }

  lemma Pow2OfOne()
    ensures Pow2(1) == 2
  {
  }

  lemma ModSmall(n: nat, m: nat)
    requires m > 0
    ensures n % m == n <==> n < m
  {
    if n < m { DivUnique(n, 0, n, m); }
  }

  lemma FitsMembers(v: seq<int>)
    requires FieldsOk(MEMBERS) && AllFit(MEMBERS, v)
    ensures |v| == 6 && 0 <= v[0] < 0x100 && 0 <= v[1] < 0x100 && 0 <= v[2] < 2
    ensures -0x8000_0000 <= v[3] < 0x8000_0000 && 0 <= v[4] < 2 && 0 <= v[5] < 0x100
  {
    MembersWidth();
    assert Fits(MEMBERS[0], v[0]) && Fits(MEMBERS[1], v[1]) && Fits(MEMBERS[2], v[2]);
    assert Fits(MEMBERS[3], v[3]) && Fits(MEMBERS[4], v[4]) && Fits(MEMBERS[5], v[5]);
  }

  /** Member-wise equality and equality of ids are the same. */
  lemma IdsDecideEquality(t: ScalarType, u: ScalarType)
    requires TypeOk(t) && TypeOk(u)
    ensures Id(t) == Id(u) <==> t == u
  {
    hide Id, FromId;
    FromIdOfId(t);
    FromIdOfId(u);
  }

  // ---------------------------------------------------------------- the layout of an id

  /** Where each member sits: the two widths in a byte each, the sign flag, the bias, a flag, and a byte. */
  lemma IdLayout(t: ScalarType)
    requires TypeOk(t)
    ensures Id(t) ==
      t.exponent + 0x100 * t.mantissa + (if t.signed then 0x1_0000 else 0) + 0x2_0000 * (t.bias % 0x1_0000_0000)
      + (if t.finiteValuesOnly then 0x2_0000_0000_0000 else 0) + 0x4_0000_0000_0000 * t.nanRepr
  {
    hide Pack, Unpack, Pow2, Signed64, Number;
    MembersWidth();
    ValuesFit(t);
    PowZero();
    PackIsNumber(MEMBERS, Values(t), 0, 0);
    NumberBound(MEMBERS, Values(t));
    SmallIsNotNegative(Pack(MEMBERS, Values(t), 0, 0));
    NumberOfMembers(t);
  }

  lemma {:induction false} NumberStep(fields: seq<Field>, values: seq<int>)
    requires FieldsOk(fields) && |values| == |fields| > 0
    ensures Number(fields, values) ==
      values[0] % Pow2(fields[0].width) + Pow2(fields[0].width) * Number(fields[1..], values[1..])
  {
    hide Pow2;
  }

  lemma {:induction false} NumberOfNone(fields: seq<Field>, values: seq<int>)
    requires |values| == |fields| == 0
    ensures Number(fields, values) == 0
  {
  }

  lemma NumberOfMembers(t: ScalarType)
    requires TypeOk(t)
    ensures FieldsOk(MEMBERS) && Number(MEMBERS, Values(t)) ==
      t.exponent + 0x100 * t.mantissa + (if t.signed then 0x1_0000 else 0) + 0x2_0000 * (t.bias % 0x1_0000_0000)
      + (if t.finiteValuesOnly then 0x2_0000_0000_0000 else 0) + 0x4_0000_0000_0000 * t.nanRepr
  {
    hide Pow2, Number;
    MembersWidth();
    Pow2Of32();
    var m, v := MEMBERS, Values(t);
    NumberOfLastMembers(t);
    NumberStep(m, v);
    NumberStep(m[1..], v[1..]);
    NumberStep(m[2..], v[2..]);
    assert m[1..][1..] == m[2..] && m[2..][1..] == m[3..] && v[1..][1..] == v[2..] && v[2..][1..] == v[3..];
    var last := Number(m[3..], v[3..]);
    assert Number(m[2..], v[2..]) == (if t.signed then 1 else 0) + 2 * last;
    assert Number(m[1..], v[1..]) == t.mantissa + 0x100 * Number(m[2..], v[2..]);
    assert Number(m, v) == t.exponent + 0x100 * Number(m[1..], v[1..]);
  }

  lemma NumberOfLastMembers(t: ScalarType)
    requires TypeOk(t)
    ensures FieldsOk(MEMBERS[3..]) && Number(MEMBERS[3..], Values(t)[3..]) ==
      t.bias % 0x1_0000_0000 + (if t.finiteValuesOnly then 0x1_0000_0000 else 0) + 0x2_0000_0000 * t.nanRepr
  {
    hide Pow2, Number;
    MembersWidth();
    Pow2Of32();
    var m, v := MEMBERS[3..], Values(t)[3..];
    assert m == [Field(32, true), Field(1, false), Field(8, false)];
    assert v == [t.bias, if t.finiteValuesOnly then 1 else 0, t.nanRepr];
    NumberStep(m, v);
    NumberStep(m[1..], v[1..]);
    NumberStep(m[2..], v[2..]);
    NumberOfNone(m[3..], v[3..]);
    assert m[1..][1..] == m[2..] && m[2..][1..] == m[3..] && v[1..][1..] == v[2..] && v[2..][1..] == v[3..];
    assert Number(m[2..], v[2..]) == t.nanRepr;
    assert Number(m[1..], v[1..]) == (if t.finiteValuesOnly then 1 else 0) + 2 * t.nanRepr;
    assert Number(m, v) == t.bias % 0x1_0000_0000 + 0x1_0000_0000 * Number(m[1..], v[1..]);
  }

  lemma Pow2Of32()
    ensures Pow2(32) == 0x1_0000_0000
  {
    hide Pow2;
    MembersWidth();
    Pow2Add(31, 1);
  }
}
