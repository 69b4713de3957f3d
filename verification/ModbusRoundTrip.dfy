/**
  What a value becomes when it is written with `data_factor` 1 and `data_offset` 0
  and the same registers are read back: the value rounded to single precision.
 */
module ModbusRoundTrip {
  import opened Wrappers
  import opened Float32
  import opened ModbusCodec

  /** An element without linear transformation. */
  predicate Untransformed(e: Element) {
    e.factor == 1.0 && e.offset == 0.0
  }

  predicate Plain(e: Element) {
    Untransformed(e) && e.dataType.HoldingInt?
  }

  function Abs(v: int): nat {
    if v < 0 then -v else v
  }

  /** The values of an integer kind below this limit stay inside the kind when they are
      rounded to single precision. */
  function Limit(w: Width, signed: bool): int {
    match w
    case W8 => if signed then 0x80 else 0x100
    case W16 => if signed then 0x8000 else 0x1_0000
    case W32 => if signed then 0x8000_0000 - 0x40 else 0x1_0000_0000 - 0x80
    case W64 =>
      if signed then 0x8000_0000_0000_0000 - 0x40_0000_0000
      else 0x1_0000_0000_0000_0000 - 0x80_0000_0000
  }

  // ----- rounding an integer ------------------------------------------------------

  lemma RoundedExact(v: int)
    ensures ToFloat32(v as real) == v as real <==> Has24Bits(Abs(v))
    ensures Abs(v) <= 0x100_0000 ==> ToFloat32(v as real) == v as real
  {
    RoundIntegerExact(Abs(v), SMALLEST_EXPONENT);
    if Abs(v) <= 0x100_0000 {
      RoundSmallInteger(Abs(v), SMALLEST_EXPONENT);
    }
  }

  lemma RoundedInteger(v: int) returns (m: int)
    ensures ToFloat32(v as real) == m as real
    ensures v >= 0 ==> m >= 0
    ensures v < 0 ==> m <= 0
  {
    var a := Abs(v);
    RoundBounds(a as real, SMALLEST_EXPONENT);
    if a <= 0x100_0000 {
      RoundSmallInteger(a, SMALLEST_EXPONENT);
      m := v;
    } else {
      var k := RoundLargeInteger(a as real, SMALLEST_EXPONENT);
      m := if v < 0 then -k else k;
    }
  }

  /** The rounding error is at most |v| * 2^-24. */
  lemma RoundedError(v: int)
    ensures Distance(ToFloat32(v as real), v as real) * P24 <= Abs(v) as real
  {
    var x := Abs(v) as real;
    if Abs(v) <= 0x100_0000 {
      RoundedExact(v);
    } else {
      RoundError(x, SMALLEST_EXPONENT);
      assert Distance(ToFloat32(v as real), v as real) == Distance(RoundMagnitude(x, SMALLEST_EXPONENT), x);
    }
  }

  /** Nothing with 24 significant bits is nearer to `v` than the rounded value. */
  lemma RoundedNearest(v: int, y: int)
    requires Has24Bits(Abs(y))
    ensures Distance(ToFloat32(v as real), v as real) <= Distance(y as real, v as real)
  {
    // a number of the other sign is farther away than zero
    var nearer := if v >= 0 <==> y >= 0 then y else 0;
    RoundNearest(Abs(v) as real, Abs(nearer), SMALLEST_EXPONENT);
  }

  lemma {:induction false} ScaleAdd(x: real, j: nat, k: nat)
    ensures Scale(Scale(x, j), k) == Scale(x, j + k)
  {
    if k != 0 {
      ScaleAdd(x, j, k - 1);
    }
  }

  lemma ScaleFactors(x: real)
    ensures Scale(x, 7) == 128.0 * x && Scale(x, 8) == 256.0 * x
    ensures Scale(x, 39) == 549755813888.0 * x && Scale(x, 40) == 1099511627776.0 * x
  {
    Scale8(x);
    Scale8(256.0 * x);
    ScaleAdd(x, 8, 8);
    Scale8(65536.0 * x);
    ScaleAdd(x, 16, 8);
    Scale8(16777216.0 * x);
    ScaleAdd(x, 24, 8);
    Scale8(4294967296.0 * x);
    ScaleAdd(x, 32, 7);
    ScaleAdd(x, 32, 8);
  }

  lemma Scale8(x: real)
    ensures Scale(x, 7) == 128.0 * x && Scale(x, 8) == 256.0 * x
  {
    assert Scale(x, 1) == 2.0 * x;
    assert Scale(x, 2) == 4.0 * x;
    assert Scale(x, 3) == 8.0 * x;
    assert Scale(x, 4) == 16.0 * x;
    assert Scale(x, 5) == 32.0 * x;
    assert Scale(x, 6) == 64.0 * x;
  }

  /** The exponent that scales [2^23, 2^24) to the top of the kind's range. */
  function TopScale(w: Width, signed: bool): nat {
    match w
    case W8 | W16 => 0
    case W32 => if signed then 7 else 8
    case W64 => if signed then 39 else 40
  }

  /** A rounded value leaves its kind exactly when it starts within half a unit of the
      top of the range; at the bottom it never does. */
  lemma RoundedInRange(w: Width, signed: bool, v: int) returns (m: int)
    requires InRange(w, signed, v)
    ensures ToFloat32(v as real) == m as real
    ensures InRange(w, signed, m) <==> v < Limit(w, signed)
  {
    m := RoundedInteger(v);
    if Abs(v) <= 0x1_0000 {
      RoundedExact(v);
    } else {
      ScaleFactors(P24);
      ScaleFactors(P24 - 0.5);
      var x, k := Abs(v) as real, TopScale(w, signed);
      if x < Scale(P24, k) {
        RoundStaysBelow(x, k, SMALLEST_EXPONENT);
      } else {
        assert v == -(Size(w) / 2);
        MinimumIsExact(w);
        RoundedExact(v);
      }
    }
  }

  lemma Times256(n: nat)
    requires Has24Bits(n)
    ensures Has24Bits(256 * n)
  {
    Twice24(n);
    Twice24(2 * n);
    Twice24(4 * n);
    Twice24(8 * n);
    Twice24(16 * n);
    Twice24(32 * n);
    Twice24(64 * n);
    Twice24(128 * n);
  }

  lemma MinimumIsExact(w: Width)
    ensures Has24Bits(Size(w) / 2)
  {
    assert Has24Bits(0x80_0000);
    Times256(0x80_0000);
    if w == W64 {
      Times256(0x8000_0000);
      Times256(0x80_0000_0000);
      Times256(0x8000_0000_0000);
      Times256(0x80_0000_0000_0000);
    }
  }

  // ----- write, then read ---------------------------------------------------------

  /** The width of the cast that ends `get_float_value`: line 487 of the code narrows
      the unsigned 16-bit path to 8 bits. */
  function CastWidth(w: Width, signed: bool): Width {
    if w == W16 && !signed then W8 else w
  }

  /** What reading back a written `v` yields. */
  function ReadBack(p: Platform, w: Width, signed: bool, v: int): int {
    Cast(p, CastWidth(w, signed), signed, ToFloat32(v as real))
  }

  lemma PlainIncoming(e: Element, v: real)
    requires Untransformed(e)
    ensures Incoming(e, v) == ToFloat32(v)
  {
    Float32Idempotent(v);
  }

  /** The registers hold the two's complement of `v`, from which `v` is recovered. */
  lemma RegistersHoldValue(p: Platform, w: Width, signed: bool, v: int)
    requires InRange(w, signed, v)
    ensures var n := Join(w, Words(w, CastUnsigned(p, w, v as real)));
            (if signed then ToSigned(w, n) else n) == v
  {
    JoinWords(w, CastUnsigned(p, w, v as real));
    OneIntegerPart(v as real, v);
    CastIsTwosComplement(p, w, v as real);
  }

  lemma RoundTripValue(p: Platform, e: Element, kind: TypeKind, signed: bool, v: int)
    requires Plain(e) && IsSignedKind(kind) == Ok(signed)
    requires InRange(e.dataType.w, signed, v) && Acceptable(e, v as real)
    ensures EncodeOne(p, e, v as real).Ok?
    ensures DecodeOne(p, e, kind, EncodeOne(p, e, v as real).value)
         == Ok(ReadBack(p, e.dataType.w, signed, v) as real)
  {
    assert Outgoing(e, v as real) == v as real;
    RegistersHoldValue(p, e.dataType.w, signed, v);
    PlainIncoming(e, v as real);
  }

  /** Except on the unsigned 16-bit path: below the limit a value comes back rounded to
      24 significant bits, hence unchanged exactly when it has no more; from the limit
      on the final cast is undefined. */
  lemma ReadBackRounds(p: Platform, w: Width, signed: bool, v: int)
    requires InRange(w, signed, v) && CastWidth(w, signed) == w
    ensures v < Limit(w, signed) ==>
              && ReadBack(p, w, signed, v) as real == ToFloat32(v as real)
              && Distance(ReadBack(p, w, signed, v) as real, v as real) * P24 <= Abs(v) as real
              && (ReadBack(p, w, signed, v) == v <==> Has24Bits(Abs(v)))
    ensures v < Limit(w, signed) ==>
              forall y :: Has24Bits(Abs(y)) ==>
                Distance(ReadBack(p, w, signed, v) as real, v as real) <= Distance(y as real, v as real)
    ensures Abs(v) <= 0x100_0000 ==> ReadBack(p, w, signed, v) == v
    ensures v >= Limit(w, signed) ==>
              !InRange(w, signed, Trunc(ToFloat32(v as real)))
  {
    var m := RoundedInRange(w, signed, v);
    RoundedExact(v);
    RoundedError(v);
    assert Trunc(m as real) == m;
    forall y | Has24Bits(Abs(y)) ensures Distance(ToFloat32(v as real), v as real) <= Distance(y as real, v as real) {
      RoundedNearest(v, y);
    }
  }

  /** The unsigned 16-bit path returns the value when it fits 8 bits; otherwise its final
      cast is out of range. */
  lemma ReadBackNarrows(p: Platform, v: int)
    requires InRange(W16, false, v)
    ensures v < 0x100 ==> ReadBack(p, W16, false, v) == v
    ensures v >= 0x100 ==> !InRange(W8, false, Trunc(ToFloat32(v as real)))
  {
    RoundedExact(v);
    assert Trunc(v as real) == v;
  }

  function ReadBackAll(p: Platform, w: Width, signed: bool, vs: seq<int>): (r: seq<real>)
    ensures |r| == |vs| && forall i :: 0 <= i < |vs| ==> r[i] == ReadBack(p, w, signed, vs[i]) as real
  {
    if vs == [] then []
    else ReadBackAll(p, w, signed, vs[..|vs| - 1]) + [ReadBack(p, w, signed, vs[|vs| - 1]) as real]
  }

  /** `xs` are the integers `vs`, each of them writable through `e`. */
  predicate WritableIntegers(e: Element, signed: bool, vs: seq<int>, xs: seq<real>)
    requires e.dataType.HoldingInt?
  {
    |xs| == |vs| && forall i :: 0 <= i < |vs| ==>
      xs[i] == vs[i] as real && InRange(e.dataType.w, signed, vs[i]) && Acceptable(e, xs[i])
  }

  // ----- whole blocks ---------------------------------------------------------------

  /** All values, or failure if one has failed. */
  function Collected(rs: seq<Result<real>>): Result<seq<real>> {
    if rs == [] then Ok([])
    else
      match Collected(rs[..|rs| - 1])
      case Err => Err
      case Ok(front) =>
        match rs[|rs| - 1]
        case Err => Err
        case Ok(v) => Ok(front + [v])
  }

  function Oks(ys: seq<real>): (rs: seq<Result<real>>)
    ensures |rs| == |ys| && forall i :: 0 <= i < |ys| ==> rs[i] == Ok(ys[i])
  {
    seq(|ys|, i requires 0 <= i < |ys| => Ok(ys[i]))
  }

  function Copies(r: Result<real>, n: nat): (rs: seq<Result<real>>)
    ensures |rs| == n && forall i :: 0 <= i < n ==> rs[i] == r
  {
    seq(n, _ => r)
  }

  function Nulls(n: nat): (ys: seq<real>)
    ensures |ys| == n && forall i :: 0 <= i < n ==> ys[i] == 0.0
  {
    seq(n, _ => 0.0)
  }

  lemma {:induction false} CollectedOk(rs: seq<Result<real>>, ys: seq<real>)
    requires |rs| == |ys| && forall i :: 0 <= i < |ys| ==> rs[i] == Ok(ys[i])
    ensures Collected(rs) == Ok(ys)
  {
    if rs != [] {
      var n := |rs| - 1;
      CollectedOk(rs[..n], ys[..n]);
      assert ys[..n] + [ys[n]] == ys;
    }
  }

  lemma {:induction false} CollectedErr(rs: seq<Result<real>>, i: nat)
    requires i < |rs| && rs[i] == Err
    ensures Collected(rs) == Err
  {
    if i < |rs| - 1 {
      CollectedErr(rs[..|rs| - 1], i);
    }
  }

  /** What reading an untouched slot of a plain element yields. */
  function ZeroRead(e: Element): Result<real> {
    if Acceptable(e, 0.0) then Ok(0.0) else Err
  }

  /** `ys` and `n` slots more, each read as `pad`. */
  function Extended(ys: seq<real>, pad: Result<real>, n: nat): Result<seq<real>> {
    if n == 0 || pad.Ok? then Ok(ys + Nulls(n)) else Err
  }

  lemma PaddedResult(ys: seq<real>, pad: Result<real>, n: nat)
    requires pad == Ok(0.0) || pad == Err
    ensures Collected(Oks(ys) + Copies(pad, n)) == Extended(ys, pad, n)
  {
    if n == 0 || pad.Ok? {
      CollectedOk(Oks(ys) + Copies(pad, n), ys + Nulls(n));
    } else {
      CollectedErr(Oks(ys) + Copies(pad, n), |ys|);
    }
  }

  /** The value, written and read by itself, gives `r`. */
  ghost predicate Decodes(p: Platform, e: Element, kind: TypeKind, x: real, r: Result<real>)
    requires RegistersPer(e.dataType).Ok?
  {
    EncodeOne(p, e, x).Ok? && DecodeOne(p, e, kind, EncodeOne(p, e, x).value) == r
  }

  ghost predicate EachDecodes(p: Platform, e: Element, kind: TypeKind, xs: seq<real>, rs: seq<Result<real>>)
    requires RegistersPer(e.dataType).Ok?
  {
    |rs| == |xs| && forall i :: 0 <= i < |xs| ==> Decodes(p, e, kind, xs[i], rs[i])
  }

  /** The registers of value `i` of the block decode to `r`. */
  ghost predicate SlotDecodes(p: Platform, e: Element, kind: TypeKind, block: seq<Register>, i: nat, r: Result<real>)
    requires RegistersPer(e.dataType).Ok?
  {
    var step := RegistersPer(e.dataType).value;
    Start(step, i + 1) <= |block| && DecodeOne(p, e, kind, block[Start(step, i)..Start(step, i + 1)]) == r
  }

  lemma {:induction false} DecodeSlots(p: Platform, e: Element, kind: TypeKind, block: seq<Register>,
                                       rs: seq<Result<real>>)
    requires RegistersPer(e.dataType).Ok?
    requires forall i :: 0 <= i < |rs| ==> SlotDecodes(p, e, kind, block, i, rs[i])
    ensures Start(RegistersPer(e.dataType).value, |rs|) <= |block|
    ensures DecodeAll(p, e, kind, block, |rs|) == Collected(rs)
  {
    if rs != [] {
      var n := |rs| - 1;
      DecodeSlots(p, e, kind, block, rs[..n]);
      assert SlotDecodes(p, e, kind, block, n, rs[n]);
      StartMonotone(RegistersPer(e.dataType).value, n, n + 1);
    }
  }

  /** The words of a block that the encoding of `xs` was written to the head of. */
  ghost predicate Padded(p: Platform, e: Element, xs: seq<real>, words: seq<Register>) {
    && EncodeAll(p, e, xs).Ok? && |EncodeAll(p, e, xs).value| <= |words|
    && words == EncodeAll(p, e, xs).value + Zeros(|words| - |EncodeAll(p, e, xs).value|)
  }

  /** Slot `k` of a block that a vector was written to: its own encoding, or zeros. */
  lemma PaddedWords(p: Platform, e: Element, xs: seq<real>, k: nat, words: seq<Register>)
    requires RegistersPer(e.dataType).Ok? && Padded(p, e, xs, words)
    requires Start(RegistersPer(e.dataType).value, k + 1) <= |words|
    ensures var step := RegistersPer(e.dataType).value;
            && (k < |xs| ==> EncodeOne(p, e, xs[k]) == Ok(words[Start(step, k)..Start(step, k + 1)]))
            && (k >= |xs| ==> words[Start(step, k)..Start(step, k + 1)] == Zeros(step))
  {
    var step, ws := RegistersPer(e.dataType).value, EncodeAll(p, e, xs).value;
    StartMonotone(step, k, |xs|);
    if k < |xs| {
      EncodeAllLayout(p, e, xs, k);
      assert words[Start(step, k)..Start(step, k + 1)] == ws[Start(step, k)..Start(step, k + 1)];
    } else {
      StartMonotone(step, |xs|, k);
      var slot := words[Start(step, k)..Start(step, k + 1)];
      assert forall j :: 0 <= j < step ==> slot[j] == Zeros(|words| - |ws|)[Start(step, k) + j - |ws|];
    }
  }

  /** A block of `n` values that a vector was written to, read back. */
  lemma PaddedReadsBack(p: Platform, e: Element, kind: TypeKind, xs: seq<real>, rs: seq<Result<real>>, n: nat,
                        words: seq<Register>, pad: Result<real>)
    requires RegistersPer(e.dataType).Ok? && EachDecodes(p, e, kind, xs, rs) && Padded(p, e, xs, words)
    requires pad == DecodeOne(p, e, kind, Zeros(RegistersPer(e.dataType).value))
    requires Start(RegistersPer(e.dataType).value, n) == |words|
    ensures |rs| <= n
    ensures DecodeAll(p, e, kind, words, n) == Collected(rs + Copies(pad, n - |rs|))
  {
    var step := RegistersPer(e.dataType).value;
    StartMonotone(step, n, |rs|);
    var all := rs + Copies(pad, n - |rs|);
    forall k | 0 <= k < n ensures SlotDecodes(p, e, kind, words, k, all[k]) {
      assert k < |xs| ==> Decodes(p, e, kind, xs[k], rs[k]);
      StartMonotone(step, k, n);
      PaddedWords(p, e, xs, k, words);
    }
    DecodeSlots(p, e, kind, words, all);
  }

  lemma VectorReadsBack(p: Platform, e: Element, kind: TypeKind, xs: seq<real>, rs: seq<Result<real>>)
    requires RegistersPer(e.dataType).Ok? && EachDecodes(p, e, kind, xs, rs)
    ensures EncodeAll(p, e, xs).Ok?
    ensures DecodeAll(p, e, kind, EncodeAll(p, e, xs).value, |xs|) == Collected(rs)
  {
    forall i | 0 <= i < |xs| ensures EncodeOne(p, e, xs[i]).Ok? {
      assert Decodes(p, e, kind, xs[i], rs[i]);
    }
    EncodeAllOk(p, e, xs);
    var ws := EncodeAll(p, e, xs).value;
    assert ws + Zeros(0) == ws;
    var pad := DecodeOne(p, e, kind, Zeros(RegistersPer(e.dataType).value));
    PaddedReadsBack(p, e, kind, xs, rs, |xs|, ws, pad);
    assert rs + Copies(pad, 0) == rs;
  }

  lemma IntegersDecode(p: Platform, e: Element, kind: TypeKind, signed: bool, vs: seq<int>, xs: seq<real>,
                       ys: seq<real>)
    requires Plain(e) && IsSignedKind(kind) == Ok(signed) && WritableIntegers(e, signed, vs, xs)
    requires ys == ReadBackAll(p, e.dataType.w, signed, vs)
    ensures EachDecodes(p, e, kind, xs, Oks(ys))
  {
    forall i | 0 <= i < |xs| ensures Decodes(p, e, kind, xs[i], Oks(ys)[i]) {
      RoundTripValue(p, e, kind, signed, vs[i]);
    }
  }

  /** An untouched slot of integer registers reads as zero, if zero is acceptable. */
  lemma ZeroSlotOfIntegers(p: Platform, e: Element, kind: TypeKind)
    requires Plain(e) && IsSignedKind(kind).Ok?
    ensures DecodeOne(p, e, kind, Zeros(RegistersPer(e.dataType).value)) == ZeroRead(e)
  {
    assert Join(e.dataType.w, Zeros(Step(e.dataType.w))) == 0;
    PlainIncoming(e, 0.0);
    RoundedExact(0);
  }

  /** A whole vector, written to a block of exactly its size and read back. */
  lemma RoundTripVector(p: Platform, e: Element, kind: TypeKind, signed: bool, vs: seq<int>, xs: seq<real>)
    requires Plain(e) && IsSignedKind(kind) == Ok(signed) && WritableIntegers(e, signed, vs, xs)
    ensures EncodeAll(p, e, xs).Ok?
    ensures DecodeAll(p, e, kind, EncodeAll(p, e, xs).value, |xs|)
         == Ok(ReadBackAll(p, e.dataType.w, signed, vs))
  {
    var ys := ReadBackAll(p, e.dataType.w, signed, vs);
    IntegersDecode(p, e, kind, signed, vs, xs, ys);
    VectorReadsBack(p, e, kind, xs, Oks(ys));
    CollectedOk(Oks(ys), ys);
  }

  lemma PaddedValues(p: Platform, e: Element, kind: TypeKind, xs: seq<real>, ys: seq<real>, n: nat,
                     words: seq<Register>, pad: Result<real>)
    requires RegistersPer(e.dataType).Ok? && EachDecodes(p, e, kind, xs, Oks(ys)) && Padded(p, e, xs, words)
    requires pad == DecodeOne(p, e, kind, Zeros(RegistersPer(e.dataType).value)) && (pad == Ok(0.0) || pad == Err)
    requires Start(RegistersPer(e.dataType).value, n) == |words|
    ensures |ys| <= n && DecodeAll(p, e, kind, words, n) == Extended(ys, pad, n - |ys|)
  {
    PaddedReadsBack(p, e, kind, xs, Oks(ys), n, words, pad);
    PaddedResult(ys, pad, n - |ys|);
  }

  /** A block of `n` integers that `vs` were written to: zeros fill it up, if they are acceptable;
      otherwise it cannot be read unless it is full. */
  lemma PaddedIntegers(p: Platform, e: Element, kind: TypeKind, xs: seq<real>, ys: seq<real>, n: nat,
                       words: seq<Register>)
    requires Plain(e) && IsSignedKind(kind).Ok? && EachDecodes(p, e, kind, xs, Oks(ys))
    requires Padded(p, e, xs, words) && Start(RegistersPer(e.dataType).value, n) == |words|
    ensures |ys| <= n && DecodeAll(p, e, kind, words, n) == Extended(ys, ZeroRead(e), n - |ys|)
  {
    var pad := DecodeOne(p, e, kind, Zeros(RegistersPer(e.dataType).value));
    ZeroSlotOfIntegers(p, e, kind);
    PaddedValues(p, e, kind, xs, ys, n, words, pad);
  }

  // ----- floating-point registers -----------------------------------------------------

  /** libmodbus gets this single-precision number back from the words it made of it. */
  predicate Restores(p: Platform, order: FloatOrder, y: real) {
    var (hi, lo) := p.floatWords(order, y);
    p.wordsFloat(order, hi, lo) == y
  }

  /** A written value is read back rounded to single precision, exactly when the rounded value
      is still acceptable; otherwise reading fails. */
  lemma RoundTripFloat(p: Platform, e: Element, kind: TypeKind, x: real)
    requires Untransformed(e) && e.dataType.HoldingFloat? && Acceptable(e, x)
    requires Restores(p, e.dataType.order, ToFloat32(x))
    ensures EncodeOne(p, e, x).Ok?
    ensures DecodeOne(p, e, kind, EncodeOne(p, e, x).value) ==
            if Acceptable(e, ToFloat32(x)) then Ok(ToFloat32(x)) else Err
  {
    assert Outgoing(e, x) == x;
    PlainIncoming(e, ToFloat32(x));
    Float32Idempotent(x);
  }

  lemma Float32Idempotent(x: real)
    ensures ToFloat32(ToFloat32(x)) == ToFloat32(x)
  {
    var a := if x < 0.0 then -x else x;
    RoundBounds(a, SMALLEST_EXPONENT);
    RoundIdempotent(a, SMALLEST_EXPONENT);
  }

  /** `xs` are acceptable for a floating-point element, and `ys` what is written for them. */
  predicate WrittenFloats(p: Platform, e: Element, xs: seq<real>, ys: seq<real>) {
    && Untransformed(e) && e.dataType.HoldingFloat? && |ys| == |xs|
    && forall i :: 0 <= i < |xs| ==>
         ys[i] == ToFloat32(xs[i]) && Acceptable(e, xs[i]) && Restores(p, e.dataType.order, ys[i])
  }

  /** The check on reading. */
  function Checked(e: Element, ys: seq<real>): (rs: seq<Result<real>>)
    ensures |rs| == |ys| && forall i :: 0 <= i < |ys| ==> rs[i] == if Acceptable(e, ys[i]) then Ok(ys[i]) else Err
  {
    seq(|ys|, i requires 0 <= i < |ys| => if Acceptable(e, ys[i]) then Ok(ys[i]) else Err)
  }

  lemma CheckedPadded(e: Element, ys: seq<real>, n: nat)
    ensures Collected(Checked(e, ys) + Copies(ZeroRead(e), n)) ==
            if (forall i :: 0 <= i < |ys| ==> Acceptable(e, ys[i])) && (n == 0 || Acceptable(e, 0.0))
            then Ok(ys + Nulls(n)) else Err
  {
    var rs := Checked(e, ys) + Copies(ZeroRead(e), n);
    if i :| 0 <= i < |ys| && !Acceptable(e, ys[i]) {
      CollectedErr(rs, i);
    } else if n == 0 || Acceptable(e, 0.0) {
      CollectedOk(rs, ys + Nulls(n));
    } else {
      CollectedErr(rs, |ys|);
    }
  }

  lemma FloatsDecode(p: Platform, e: Element, kind: TypeKind, xs: seq<real>, ys: seq<real>)
    requires WrittenFloats(p, e, xs, ys)
    ensures EachDecodes(p, e, kind, xs, Checked(e, ys))
  {
    forall i | 0 <= i < |xs| ensures Decodes(p, e, kind, xs[i], Checked(e, ys)[i]) {
      RoundTripFloat(p, e, kind, xs[i]);
    }
  }

  lemma ZeroSlotOfFloats(p: Platform, e: Element, kind: TypeKind)
    requires Untransformed(e) && e.dataType.HoldingFloat? && p.wordsFloat(e.dataType.order, 0, 0) == 0.0
    ensures DecodeOne(p, e, kind, Zeros(RegistersPer(e.dataType).value)) == ZeroRead(e)
  {
    PlainIncoming(e, 0.0);
    RoundedExact(0);
  }

  /** A whole vector comes back rounded exactly when all rounded values are acceptable. */
  lemma RoundTripFloats(p: Platform, e: Element, kind: TypeKind, xs: seq<real>, ys: seq<real>)
    requires WrittenFloats(p, e, xs, ys)
    ensures EncodeAll(p, e, xs).Ok?
    ensures DecodeAll(p, e, kind, EncodeAll(p, e, xs).value, |xs|) ==
            if forall i :: 0 <= i < |ys| ==> Acceptable(e, ys[i]) then Ok(ys) else Err
  {
    FloatsDecode(p, e, kind, xs, ys);
    VectorReadsBack(p, e, kind, xs, Checked(e, ys));
    CheckedPadded(e, ys, 0);
    assert Checked(e, ys) + Copies(ZeroRead(e), 0) == Checked(e, ys) && ys + Nulls(0) == ys;
  }

  lemma PaddedFloats(p: Platform, e: Element, kind: TypeKind, xs: seq<real>, ys: seq<real>, n: nat,
                     words: seq<Register>)
    requires WrittenFloats(p, e, xs, ys) && p.wordsFloat(e.dataType.order, 0, 0) == 0.0
    requires Padded(p, e, xs, words) && Start(RegistersPer(e.dataType).value, n) == |words|
    ensures |ys| <= n
    ensures DecodeAll(p, e, kind, words, n) ==
            if (forall i :: 0 <= i < |ys| ==> Acceptable(e, ys[i])) && (|ys| == n || Acceptable(e, 0.0))
            then Ok(ys + Nulls(n - |ys|)) else Err
  {
    FloatsDecode(p, e, kind, xs, ys);
    ZeroSlotOfFloats(p, e, kind);
    PaddedReadsBack(p, e, kind, xs, Checked(e, ys), n, words, ZeroRead(e));
    CheckedPadded(e, ys, n - |ys|);
  }

  /** The only valid value of an element is 2^24 + 1: it can be written, but not read back. */
  lemma ValidValueNotReadBack(p: Platform, e: Element, kind: TypeKind)
    requires Untransformed(e) && e.dataType.HoldingFloat?
    requires e.validValues == [16777217.0] && e.min <= 16777217.0 <= e.max
    requires Restores(p, e.dataType.order, ToFloat32(16777217.0))
    ensures EncodeOne(p, e, 16777217.0).Ok?
    ensures DecodeOne(p, e, kind, EncodeOne(p, e, 16777217.0).value) == Err
  {
    RoundTripFloat(p, e, kind, 16777217.0);
    RoundedExact(16777217);
  }
}
