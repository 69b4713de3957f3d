/**
  The linear transformation of an element on the way back: what a register block reads as
  for every `data_factor` and `data_offset`, how far single precision takes the result from
  the exact one, and how far reading through the inverse transformation undoes writing.
 */
module ModbusTransform {
  import opened Wrappers
  import opened Float32
  import opened ModbusCodec
  import opened ModbusRoundTrip

  // ----- the error of the reader's transformation -----------------------------------

  /** Three roundings, of the value, the product and the sum: for the exact sum `o + product`, and
      `ft` the share of the smallest numbers in the product's error. */
  function SumError(o: real, product: real, ft: real, tiny: real): real {
    (Magnitude(o) + 4.0 * Magnitude(product)) / P24 + 3.0 * tiny + 2.0 * ft
  }

  /** The reader computes `data_offset + v * data_factor` up to
      (|o| + 4 |v f|) 2^-24 + (3 + 2 |f|) 2^-150. */
  lemma IncomingError(e: Element, v: real, product: real, ft: real, tiny: real)
    requires tiny == Tiny(SMALLEST_EXPONENT) && product == v * e.factor && ft == Magnitude(e.factor) * tiny
    ensures Distance(Incoming(e, v), e.offset + product) <= SumError(e.offset, product, ft, tiny)
  {
    Float32Error(v, tiny);
    ErrorFromValue(e, v, product, ToFloat32(v), ToFloat32(v) * e.factor, ft, tiny);
  }

  lemma ErrorFromValue(e: Element, v: real, product: real, a: real, scaled: real, ft: real, tiny: real)
    requires tiny == Tiny(SMALLEST_EXPONENT) && product == v * e.factor && ft == Magnitude(e.factor) * tiny
    requires a == ToFloat32(v) && Rounded(v, a, tiny) && scaled == a * e.factor
    ensures Distance(Incoming(e, v), e.offset + product) <= SumError(e.offset, product, ft, tiny)
  {
    Product32Error(a, e.factor, scaled, tiny);
    ErrorFromProduct(e, v, product, a, scaled, Product32(a, e.factor), ft, tiny);
  }

  lemma ErrorFromProduct(e: Element, v: real, product: real, a: real, scaled: real, b: real, ft: real, tiny: real)
    requires tiny == Tiny(SMALLEST_EXPONENT) && product == v * e.factor && ft == Magnitude(e.factor) * tiny
    requires a == ToFloat32(v) && Rounded(v, a, tiny) && scaled == a * e.factor
    requires b == Product32(a, e.factor) && Rounded(scaled, b, tiny)
    ensures Distance(Incoming(e, v), e.offset + product) <= SumError(e.offset, product, ft, tiny)
  {
    Sum32Error(e.offset, b, tiny);
    ErrorFromSum(e, v, product, a, scaled, b, Incoming(e, v), ft, tiny);
  }

  lemma ErrorFromSum(e: Element, v: real, product: real, a: real, scaled: real, b: real, c: real,
                     ft: real, tiny: real)
    requires Rounded(v, a, tiny) && Rounded(scaled, b, tiny) && Rounded(e.offset + b, c, tiny) && tiny >= 0.0
    requires product == v * e.factor && scaled == a * e.factor && ft == Magnitude(e.factor) * tiny
    ensures Distance(c, e.offset + product) <= SumError(e.offset, product, ft, tiny)
  {
    FirstError(e, v, a, product, scaled, ft, tiny);
    ErrorFromTerms(e.offset, product, scaled, b, c, ft, tiny);
  }

  lemma FirstError(e: Element, v: real, a: real, product: real, scaled: real, ft: real, tiny: real)
    requires Rounded(v, a, tiny) && tiny >= 0.0
    requires product == v * e.factor && scaled == a * e.factor && ft == Magnitude(e.factor) * tiny
    ensures ft >= 0.0 && Distance(scaled, product) <= Magnitude(product) / P24 + ft
  {
    ProductError(v, a, e.factor, Magnitude(e.factor), product, scaled, ft, tiny);
  }

  lemma ErrorFromTerms(o: real, product: real, scaled: real, b: real, c: real, ft: real, tiny: real)
    requires Distance(scaled, product) <= Magnitude(product) / P24 + ft
    requires Rounded(scaled, b, tiny) && Rounded(o + b, c, tiny) && ft >= 0.0 && tiny >= 0.0
    ensures Distance(c, o + product) <= SumError(o, product, ft, tiny)
  {
    SecondError(product, scaled, b, ft, tiny);
    ThirdError(o, product, b, c, ft, tiny);
  }

  lemma ProductError(v: real, a: real, f: real, mf: real, product: real, scaled: real, ft: real, tiny: real)
    requires Rounded(v, a, tiny) && tiny >= 0.0 && mf == Magnitude(f)
    requires product == v * f && scaled == a * f && ft == mf * tiny
    ensures ft >= 0.0 && Distance(scaled, product) <= Magnitude(product) / P24 + ft
  {
    var d, dp, mv, mp := ProductTerms(v, a, f, mf, product, scaled);
    ScaledBound(d, mv, mf, dp, mp, ft, tiny);
  }

  lemma ProductTerms(v: real, a: real, f: real, mf: real, product: real, scaled: real)
    returns (d: real, dp: real, mv: real, mp: real)
    requires product == v * f && scaled == a * f && mf == Magnitude(f)
    ensures d == Distance(a, v) && dp == Distance(scaled, product) && dp == d * mf
    ensures mv == Magnitude(v) && mp == Magnitude(product) && mp == mv * mf
  {
    d, dp, mv, mp := Distance(a, v), Distance(scaled, product), Magnitude(v), Magnitude(product);
    MagnitudeProduct(v, f, product, mv, mf, mp);
    DistanceOfProducts(v, a, f, mf, product, scaled, d, dp);
  }

  lemma DistanceOfProducts(v: real, a: real, f: real, mf: real, product: real, scaled: real, d: real, dp: real)
    requires product == v * f && scaled == a * f && mf == Magnitude(f)
    requires d == Distance(a, v) && dp == Distance(scaled, product)
    ensures dp == d * mf
  {
    MagnitudeProduct(a - v, f, scaled - product, d, mf, dp);
  }

  lemma MagnitudeProduct(x: real, y: real, z: real, mx: real, my: real, mz: real)
    requires z == x * y && mx == Magnitude(x) && my == Magnitude(y) && mz == Magnitude(z)
    ensures mz == mx * my
  {
    assert x < 0.0 ==> (y < 0.0 ==> z > 0.0) && (y >= 0.0 ==> z <= 0.0);
  }

  lemma ScaledBound(d: real, v: real, f: real, dp: real, product: real, ft: real, tiny: real)
    requires d <= v / P24 + tiny && f >= 0.0 && tiny >= 0.0
    requires dp == d * f && product == v * f && ft == f * tiny
    ensures ft >= 0.0 && dp <= product / P24 + ft
  {
    assert d * f <= (v / P24 + tiny) * f;
    assert (v / P24 + tiny) * f == product / P24 + ft;
  }

  lemma Detour(x: real, y: real, z: real)
    ensures Distance(x, z) <= Distance(x, y) + Distance(y, z)
  {
  }

  lemma SecondError(product: real, scaled: real, b: real, ft: real, tiny: real)
    requires Distance(scaled, product) <= Magnitude(product) / P24 + ft && Rounded(scaled, b, tiny)
    requires ft >= 0.0 && tiny >= 0.0
    ensures Distance(b, product) <= 2.5 * Magnitude(product) / P24 + 1.5 * ft + tiny
  {
    Detour(b, scaled, product);
    assert Magnitude(scaled) <= Magnitude(product) + Distance(scaled, product);
  }

  lemma ThirdError(o: real, product: real, b: real, c: real, ft: real, tiny: real)
    requires Distance(b, product) <= 2.5 * Magnitude(product) / P24 + 1.5 * ft + tiny && Rounded(o + b, c, tiny)
    requires ft >= 0.0 && tiny >= 0.0
    ensures Distance(c, o + product) <= SumError(o, product, ft, tiny)
  {
    Detour(c, o + b, o + product);
    assert Distance(o + b, o + product) == Distance(b, product);
    assert Magnitude(o + b) <= Magnitude(o) + Magnitude(product) + Distance(b, product);
  }

  /** With whole numbers no larger than 2^24 at every step, the reader's transformation is exact. */
  lemma IntegersExact(e: Element, v: int, f: int, o: int)
    requires e.factor == f as real && e.offset == o as real
    requires Abs(v) <= 0x100_0000 && Abs(v * f) <= 0x100_0000 && Abs(o + v * f) <= 0x100_0000
    ensures Incoming(e, v as real) == (o + v * f) as real
  {
    IntegerProduct(v, f);
    RoundedExact(v);
    RoundedExact(v * f);
    RoundedExact(o + v * f);
    ExactTerms(e, v as real, (v * f) as real, (o + v * f) as real);
  }

  lemma ExactTerms(e: Element, v: real, product: real, sum: real)
    requires product == v * e.factor && sum == e.offset + product
    requires ToFloat32(v) == v && ToFloat32(product) == product && ToFloat32(sum) == sum
    ensures Incoming(e, v) == sum
  {
    SameRounding(v * e.factor, product);
    SameRounding(e.offset + v * e.factor, sum);
    NothingRounded(e, v);
  }

  lemma NothingRounded(e: Element, v: real)
    requires ToFloat32(v) == v && ToFloat32(v * e.factor) == v * e.factor
    requires ToFloat32(e.offset + v * e.factor) == e.offset + v * e.factor
    ensures Incoming(e, v) == e.offset + v * e.factor
  {
    assert Product32(v, e.factor) == v * e.factor;
    SameRounding(e.offset + Product32(v, e.factor), e.offset + v * e.factor);
  }

  lemma SameRounding(x: real, y: real)
    requires x == y
    ensures ToFloat32(x) == ToFloat32(y)
  {
  }

  lemma IntegerProduct(v: int, f: int)
    ensures v as real * f as real == (v * f) as real
  {
  }

  // ----- what registers read as -----------------------------------------------------

  /** Registers for reading or for both hold the same numbers. */
  predicate IntegersOf(dt: ModbusDataType, w: Width) {
    dt == HoldingInt(w) || dt == InputInt(w)
  }

  predicate FloatsOf(dt: ModbusDataType, order: FloatOrder) {
    dt == HoldingFloat(order) || dt == InputFloat(order)
  }

  const SIGNED_KINDS := {CharKind, EnumKind, Int16Kind, Int32Kind, Int64Kind, Float32Kind, Float64Kind, Float128Kind}
  const UNSIGNED_KINDS := {UInt8Kind, UInt16Kind, UInt32Kind, UInt64Kind}

  /** `v` is the number the registers hold: in range, and two's complement of what they spell out. */
  predicate Holds(w: Width, signed: bool, ws: seq<Register>, v: int) {
    var n := Value(ws) % Size(w);
    InRange(w, signed, v) && (v == n || v == n - Size(w))
  }

  /** Reading integer registers succeeds if `v` is acceptable, and then yields the integer part of
      `z`, unless the type of the last cast cannot hold it. */
  ghost predicate ReadsAs(p: Platform, e: Element, kind: TypeKind, w: Width, ws: seq<Register>, v: int, z: real)
    requires IntegersOf(e.dataType, w) && |ws| == Step(w)
  {
    var r, signed := DecodeOne(p, e, kind, ws), kind in SIGNED_KINDS;
    && (r.Ok? <==> Acceptable(e, v as real))
    && (r.Ok? && InRange(CastWidth(w, signed), signed, Trunc(z)) ==> r.value == Trunc(z) as real)
  }

  /** Integer registers are read by the signedness of the field's kind: the number they hold is
      checked untransformed, then transformed, and its integer part is the value, unless the type
      of the last cast cannot hold it. */
  lemma DecodedInteger(p: Platform, e: Element, kind: TypeKind, w: Width, ws: seq<Register>, v: int)
    requires IntegersOf(e.dataType, w) && |ws| == Step(w) && kind in SIGNED_KINDS + UNSIGNED_KINDS
    requires Holds(w, kind in SIGNED_KINDS, ws, v)
    ensures ReadsAs(p, e, kind, w, ws, v, Incoming(e, v as real))
  {
    var signed, n := kind in SIGNED_KINDS, Join(w, ws);
    assert IsSignedKind(kind) == Ok(signed);
    HeldNumber(w, signed, ws, v);
    CastInRange(p, CastWidth(w, signed), signed, Incoming(e, v as real));
  }

  lemma HeldNumber(w: Width, signed: bool, ws: seq<Register>, v: int)
    requires |ws| == Step(w) && Holds(w, signed, ws, v)
    ensures v == if signed then ToSigned(w, Join(w, ws)) else Join(w, ws)
  {
    JoinIsValue(w, ws);
  }

  lemma CastInRange(p: Platform, w: Width, signed: bool, z: real)
    ensures InRange(w, signed, Trunc(z)) ==> Cast(p, w, signed, z) == Trunc(z)
  {
    if InRange(w, signed, Trunc(z)) {
      CastIsTwosComplement(p, w, z);
    }
  }

  /** A field of any other kind cannot be read from integer registers. */
  lemma OtherKindsUnread(p: Platform, e: Element, kind: TypeKind, w: Width, ws: seq<Register>)
    requires IntegersOf(e.dataType, w) && |ws| == Step(w)
    ensures kind !in SIGNED_KINDS + UNSIGNED_KINDS ==> DecodeOne(p, e, kind, ws) == Err
  {
  }

  // ----- reading undoes writing -----------------------------------------------------

  /** Reading through `back` inverts the transformation of writing through `e`. */
  predicate Undoes(back: Element, e: Element) {
    back.factor * e.factor == 1.0 && back.offset == -(e.offset * back.factor)
  }

  /** What is written through one element and read through another of the same width is the integer
      part of what the reader's transformation makes of the written number. */
  lemma WriteThenRead(p: Platform, e: Element, back: Element, kind: TypeKind, x: real, y: real, n: int, z: real)
    returns (ws: seq<Register>)
    requires e.dataType.HoldingInt? && IntegersOf(back.dataType, e.dataType.w)
    requires kind in SIGNED_KINDS + UNSIGNED_KINDS && y == e.offset + x * e.factor && Acceptable(e, y)
    requires IntegerPart(y, n) && InRange(e.dataType.w, kind in SIGNED_KINDS, n) && z == Incoming(back, n as real)
    ensures EncodeOne(p, e, x) == Ok(ws) && ReadsAs(p, back, kind, e.dataType.w, ws, n, z)
  {
    EncodeTransforms(p, e, x, y);
    ws := EncodeOne(p, e, x).value;
    CarriedIsHeld(p, e, y, ws, kind in SIGNED_KINDS, n);
    DecodedInteger(p, back, kind, e.dataType.w, ws, n);
  }

  lemma CarriedIsHeld(p: Platform, e: Element, y: real, ws: seq<Register>, signed: bool, n: int)
    requires e.dataType.HoldingInt? && Carries(p, e, y, ws) && IntegerPart(y, n) && InRange(e.dataType.w, signed, n)
    ensures Holds(e.dataType.w, signed, ws, n)
  {
  }

  /** If the reading transformation inverts that of writing, the reader makes of the written number
      the original one, up to what dropping the fraction and its three roundings cost. */
  lemma ReadUndoesWrite(e: Element, back: Element, x: real, y: real, n: real, z: real,
                        loss: real, product: real, ft: real, tiny: real)
    requires Undoes(back, e) && y == e.offset + x * e.factor && z == Incoming(back, n)
    requires loss == Distance(n, y) * Magnitude(back.factor)
    requires tiny == Tiny(SMALLEST_EXPONENT) && product == n * back.factor && ft == Magnitude(back.factor) * tiny
    ensures Distance(z, x) <= loss + SumError(back.offset, product, ft, tiny)
  {
    IncomingError(back, n, product, ft, tiny);
    UndoneFrom(e, back, x, y, n, z, loss, product, SumError(back.offset, product, ft, tiny));
  }

  lemma UndoneFrom(e: Element, back: Element, x: real, y: real, n: real, z: real,
                   loss: real, product: real, error: real)
    requires Undoes(back, e) && y == e.offset + x * e.factor && product == n * back.factor
    requires loss == Distance(n, y) * Magnitude(back.factor) && Distance(z, back.offset + product) <= error
    ensures Distance(z, x) <= loss + error
  {
    InverseOffBy(e.offset, e.factor, back.offset, back.factor, x, y, n, product, Magnitude(back.factor), loss);
    Detour(z, back.offset + product, x);
  }

  lemma InverseOffBy(o: real, f: real, o': real, g: real, x: real, y: real, n: real, product: real,
                     mg: real, loss: real)
    requires g * f == 1.0 && o' == -(o * g) && y == o + x * f && product == n * g
    requires mg == Magnitude(g) && loss == Distance(n, y) * mg
    ensures Distance(o' + product, x) == loss
  {
    assert x * f * g == x * (g * f);
    MagnitudeProduct(n - y, g, o' + product - x, Distance(n, y), mg, Distance(o' + product, x));
  }

  /** A floating-point value comes back up to the three roundings of the reader, if its rounding is
      still acceptable. */
  lemma ReadUndoesFloat(p: Platform, e: Element, back: Element, kind: TypeKind, x: real, y: real,
                        product: real, ft: real, tiny: real)
    returns (ws: seq<Register>)
    requires e.dataType.HoldingFloat? && FloatsOf(back.dataType, e.dataType.order) && Undoes(back, e)
    requires y == e.offset + x * e.factor && Acceptable(e, y) && tiny == Tiny(SMALLEST_EXPONENT)
    requires Restores(p, e.dataType.order, ToFloat32(y))
    requires product == y * back.factor && ft == Magnitude(back.factor) * tiny
    ensures EncodeOne(p, e, x) == Ok(ws)
    ensures DecodeOne(p, back, kind, ws).Ok? <==> Acceptable(back, ToFloat32(y))
    ensures DecodeOne(p, back, kind, ws).Ok? ==>
            Distance(DecodeOne(p, back, kind, ws).value, x) <= SumError(back.offset, product, ft, tiny)
  {
    EncodeTransforms(p, e, x, y);
    ws := EncodeOne(p, e, x).value;
    assert DecodeOne(p, back, kind, ws) == DecodeFloat(back, ToFloat32(y));
    IncomingRounded(back, y);
    ReadUndoesWrite(e, back, x, y, y, Incoming(back, y), 0.0, product, ft, tiny);
  }

  lemma IncomingRounded(e: Element, y: real)
    ensures Incoming(e, ToFloat32(y)) == Incoming(e, y)
  {
    Float32Idempotent(y);
  }
}
