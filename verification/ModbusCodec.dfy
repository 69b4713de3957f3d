/**
  The Modbus register codec: how a vector of numbers becomes a block of 16-bit
  registers (`get_registers_value`) and back (`get_float_value`).

  The writer computes in long double, whose 64-bit significand holds every 64-bit
  integer, and is modelled over reals.  The reader multiplies an integer by the
  float `data_factor`, so it computes in single precision; every conversion and
  operation of that expression is rounded here as the language prescribes.
  Casting a number that the target type cannot hold is undefined: such a cast yields
  whatever `Platform.unspecified` says, and the theorems hold for every platform.
 */
module ModbusCodec {
  import opened Wrappers
  import opened Float32

  type Register = n: nat | n < 65536

  datatype Width = W8 | W16 | W32 | W64
  datatype FloatOrder = ABCD | BADC | CDAB | DCBA

  datatype ModbusDataType =
    | CoilBoolean
    | DiscreteInputBoolean
    | HoldingInt(w: Width)
    | InputInt(w: Width)
    | HoldingFloat(order: FloatOrder)
    | InputFloat(order: FloatOrder)
    | ConstantValue
    | NoDataType

  datatype TypeKind =
    | BooleanKind | CharKind | EnumKind | StringKind
    | Int16Kind | Int32Kind | Int64Kind
    | UInt8Kind | UInt16Kind | UInt32Kind | UInt64Kind
    | Float32Kind | Float64Kind | Float128Kind
    | ArrayKind | SequenceKind | StructKind

  function IsSignedKind(k: TypeKind): Result<bool> {
    match k
    case CharKind | EnumKind | Int16Kind | Int32Kind | Int64Kind => Ok(true)
    case Float32Kind | Float64Kind | Float128Kind => Ok(true)
    case UInt8Kind | UInt16Kind | UInt32Kind | UInt64Kind => Ok(false)
    case _ => Err
  }

  /** What the C++ standard and libmodbus's float helpers leave to the platform. */
  datatype Platform = Platform(
    unspecified: (Width, real) -> int,
    floatWords: (FloatOrder, real) -> (Register, Register),
    wordsFloat: (FloatOrder, Register, Register) -> real)

  datatype Element = Element(
    field: string,
    address: int,
    registerCount: nat,
    dataType: ModbusDataType,
    slaveId: nat,
    min: real,
    max: real,
    validValues: seq<real>,
    factor: real,
    offset: real,
    arrayElements: nat)

  predicate IsStep(n: nat) {
    n == 1 || n == 2 || n == 4
  }

  /** First register of element `i` when each takes `step` of them: `i * step`. */
  function Start(step: nat, i: nat): nat
    requires IsStep(step)
  {
    if step == 1 then i else if step == 2 then 2 * i else 4 * i
  }

  /** `number_of_registers_primitive_type`; it throws for the other data types. */
  function RegistersPer(dt: ModbusDataType): (r: Result<nat>)
    ensures r.Ok? ==> IsStep(r.value)
  {
    match dt
    case CoilBoolean | DiscreteInputBoolean => Ok(1)
    case HoldingInt(w) => Ok(Step(w))
    case InputInt(w) => Ok(Step(w))
    case HoldingFloat(_) | InputFloat(_) => Ok(2)
    case ConstantValue | NoDataType => Err
  }

  function Step(w: Width): (n: nat)
    ensures IsStep(n)
  {
    match w
    case W8 | W16 => 1
    case W32 => 2
    case W64 => 4
  }

  /** `check_correct_value` does not throw. */
  predicate Acceptable(e: Element, y: real) {
    e.min <= y <= e.max && (e.validValues == [] || y in e.validValues)
  }

  // ----- casts ----------------------------------------------------------------

  function Size(w: Width): nat {
    match w
    case W8 => 0x100
    case W16 => 0x1_0000
    case W32 => 0x1_0000_0000
    case W64 => 0x1_0000_0000_0000_0000
  }

  /** `t` is the integer part of `x`, towards zero. */
  predicate IntegerPart(x: real, t: int) {
    if x < 0.0 then x <= t as real < x + 1.0 && t <= 0 else t as real <= x < t as real + 1.0
  }

  /** Conversion to an integer type drops the fraction. */
  function Trunc(x: real): (t: int)
    ensures IntegerPart(x, t)
  {
    if x < 0.0 then -((-x).Floor) else x.Floor
  }

  function ToSigned(w: Width, n: nat): int
    requires n < Size(w)
  {
    if n < Size(w) / 2 then n else n - Size(w)
  }

  predicate InRange(w: Width, signed: bool, v: int) {
    if signed then -(Size(w) / 2) <= v < Size(w) / 2 else 0 <= v < Size(w)
  }

  /** `safe_cast` to the unsigned type: a negative value goes through the signed type. */
  function CastUnsigned(p: Platform, w: Width, x: real): (n: nat)
    ensures n < Size(w)
  {
    var t := Trunc(x);
    if x < 0.0 && -(Size(w) / 2) <= t then t % Size(w)
    else if x >= 0.0 && t < Size(w) then t
    else p.unspecified(w, x) % Size(w)
  }

  function CastSigned(p: Platform, w: Width, x: real): int {
    var t := Trunc(x);
    if InRange(w, true, t) then t else ToSigned(w, p.unspecified(w, x) % Size(w))
  }

  /** Between the smallest signed and the largest unsigned value of the width, the cast gives the
      two's complement of the truncated number, which the signed reading undoes. */
  lemma CastIsTwosComplement(p: Platform, w: Width, x: real)
    requires -(Size(w) / 2) <= Trunc(x) < Size(w)
    ensures CastUnsigned(p, w, x) == if Trunc(x) < 0 then Trunc(x) + Size(w) else Trunc(x)
    ensures InRange(w, true, Trunc(x)) ==> ToSigned(w, CastUnsigned(p, w, x)) == Trunc(x) == CastSigned(p, w, x)
  {
    var t := Trunc(x);
    if t < 0 {
      WrapsAround(t, Size(w));
    } else if x < 0.0 {
      assert t == 0;
    }
  }

  lemma OneIntegerPart(x: real, t: int)
    requires IntegerPart(x, t)
    ensures t == Trunc(x)
  {
  }

  lemma WrapsAround(t: int, size: int)
    requires -size <= t < 0
    ensures t % size == t + size
  {
  }

  function Cast(p: Platform, w: Width, signed: bool, x: real): int {
    if signed then CastSigned(p, w, x) else CastUnsigned(p, w, x)
  }

  // ----- words ----------------------------------------------------------------

  /** High word first, as the libmodbus macros store them. */
  function Words(w: Width, n: nat): (ws: seq<Register>)
    requires n < Size(w)
    ensures |ws| == Step(w)
  {
    match w
    case W8 => [n]
    case W16 => [n]
    case W32 => [n / 0x1_0000, n % 0x1_0000]
    case W64 => [n / 0x1_0000_0000_0000, n / 0x1_0000_0000 % 0x1_0000, n / 0x1_0000 % 0x1_0000, n % 0x1_0000]
  }

  function Join(w: Width, ws: seq<Register>): (n: nat)
    requires |ws| == Step(w)
    ensures n < Size(w)
  {
    match w
    case W8 => ws[0] % 0x100
    case W16 => ws[0]
    case W32 =>
      var a: nat := ws[0];
      a * 0x1_0000 + ws[1]
    case W64 =>
      var a: nat, b: nat, c: nat := ws[0], ws[1], ws[2];
      a * 0x1_0000_0000_0000 + b * 0x1_0000_0000 + c * 0x1_0000 + ws[3]
  }

  lemma JoinWords(w: Width, n: nat)
    requires n < Size(w)
    ensures Join(w, Words(w, n)) == n
  {
    if w == W64 {
      FourWords(n);
    }
  }

  /** The number that registers spell out, the first of them the most significant. */
  function Value(ws: seq<Register>): nat {
    if ws == [] then 0 else 0x1_0000 * Value(ws[..|ws| - 1]) + ws[|ws| - 1] as nat
  }

  /** Joining registers reads what they spell out; 8 bits ignore the upper half of theirs. */
  lemma JoinIsValue(w: Width, ws: seq<Register>)
    requires |ws| == Step(w)
    ensures Join(w, ws) == Value(ws) % Size(w)
  {
    match w
    case W8 | W16 =>
      SpelledByOne(ws);
    case W32 =>
      SpelledByTwo(ws);
    case W64 =>
      SpelledByFour(ws);
  }

  /** The registers of a number spell it out. */
  lemma WordsSpellValue(w: Width, n: nat)
    requires n < Size(w)
    ensures Value(Words(w, n)) == n
  {
    JoinWords(w, n);
    var ws := Words(w, n);
    match w
    case W8 | W16 =>
      SpelledByOne(ws);
    case W32 =>
      SpelledByTwo(ws);
    case W64 =>
      SpelledByFour(ws);
  }

  lemma SpelledByOne(ws: seq<Register>)
    requires |ws| == 1
    ensures Value(ws) == ws[0]
  {
    assert ws[..0] == [];
  }

  lemma SpelledByTwo(ws: seq<Register>)
    requires |ws| == 2
    ensures var a: nat, b: nat := ws[0], ws[1];
            Value(ws) == a * 0x1_0000 + b
  {
    SpelledByOne(ws[..1]);
  }

  lemma SpelledByFour(ws: seq<Register>)
    requires |ws| == 4
    ensures var a: nat, b: nat, c: nat, d: nat := ws[0], ws[1], ws[2], ws[3];
            Value(ws) == a * 0x1_0000_0000_0000 + b * 0x1_0000_0000 + c * 0x1_0000 + d
  {
    SpelledByTwo(ws[..2]);
    assert ws[..3][..2] == ws[..2];
    assert Value(ws[..3]) == 0x1_0000 * Value(ws[..2]) + ws[2] as nat;
  }

  lemma FourWords(n: nat)
    ensures var a, b, c := n / 0x1_0000_0000_0000, n / 0x1_0000_0000, n / 0x1_0000;
            n == a * 0x1_0000_0000_0000 + (b % 0x1_0000) * 0x1_0000_0000 + (c % 0x1_0000) * 0x1_0000 + n % 0x1_0000
  {
    var a, b, c := n / 0x1_0000_0000_0000, n / 0x1_0000_0000, n / 0x1_0000;
    assert n == c * 0x1_0000 + n % 0x1_0000;
    assert c == b * 0x1_0000 + c % 0x1_0000;
    assert b == a * 0x1_0000 + b % 0x1_0000;
  }

  // ----- one value --------------------------------------------------------------

  /** The affine transform of the writer. */
  function Outgoing(e: Element, x: real): real {
    e.offset + x * e.factor
  }

  function EncodeOne(p: Platform, e: Element, x: real): (r: Result<seq<Register>>)
    ensures r.Ok? ==> RegistersPer(e.dataType) == Ok(|r.value|)
  {
    var y := Outgoing(e, x);
    if !Acceptable(e, y) then Err
    else match e.dataType
      case HoldingInt(w) => Ok(Words(w, CastUnsigned(p, w, y)))
      case HoldingFloat(o) =>
        var (hi, lo) := p.floatWords(o, ToFloat32(y));
        Ok([hi, lo])
      case _ => Err
  }

  /** Registers that carry the number `y`: its integer part in two's complement, as far as the
      width reaches, or its single-precision rounding in the configured byte order. */
  ghost predicate Carries(p: Platform, e: Element, y: real, ws: seq<Register>) {
    match e.dataType
    case HoldingInt(w) =>
      |ws| == Step(w) && forall t :: IntegerPart(y, t) && -(Size(w) / 2) <= t < Size(w) ==>
        Value(ws) == if t < 0 then t + Size(w) else t
    case HoldingFloat(o) => |ws| == 2 && (ws[0], ws[1]) == p.floatWords(o, ToFloat32(y))
    case _ => false
  }

  /** What is checked and written for `x` is `data_offset + x * data_factor`, and only holding
      registers are. */
  lemma EncodeTransforms(p: Platform, e: Element, x: real, y: real)
    requires y == e.offset + x * e.factor
    ensures EncodeOne(p, e, x).Ok? <==>
            && (e.dataType.HoldingInt? || e.dataType.HoldingFloat?)
            && e.min <= y <= e.max && (e.validValues == [] || y in e.validValues)
    ensures EncodeOne(p, e, x).Ok? ==> Carries(p, e, y, EncodeOne(p, e, x).value)
  {
    assert Outgoing(e, x) == y;
    if e.dataType.HoldingInt? {
      WordsCarry(p, e, y, Words(e.dataType.w, CastUnsigned(p, e.dataType.w, y)));
    }
  }

  lemma WordsCarry(p: Platform, e: Element, y: real, ws: seq<Register>)
    requires e.dataType.HoldingInt? && ws == Words(e.dataType.w, CastUnsigned(p, e.dataType.w, y))
    ensures Carries(p, e, y, ws)
  {
    var w := e.dataType.w;
    WordsSpellValue(w, CastUnsigned(p, w, y));
    forall t | IntegerPart(y, t) && -(Size(w) / 2) <= t < Size(w)
      ensures Value(ws) == if t < 0 then t + Size(w) else t
    {
      OneIntegerPart(y, t);
      CastIsTwosComplement(p, w, y);
    }
  }

  /** The affine transform of the reader, in single precision throughout. */
  function Incoming(e: Element, v: real): real {
    Sum32(e.offset, Product32(ToFloat32(v), e.factor))
  }

  /** Decode the registers of one value.  The unsigned 16-bit path casts its result to
      8 bits, as the code does. */
  function DecodeOne(p: Platform, e: Element, kind: TypeKind, ws: seq<Register>): Result<real>
    requires RegistersPer(e.dataType).Ok? && |ws| == RegistersPer(e.dataType).value
  {
    match e.dataType
    case HoldingInt(w) => DecodeInt(p, e, kind, w, ws)
    case InputInt(w) => DecodeInt(p, e, kind, w, ws)
    case HoldingFloat(o) => DecodeFloat(e, p.wordsFloat(o, ws[0], ws[1]))
    case InputFloat(o) => DecodeFloat(e, p.wordsFloat(o, ws[0], ws[1]))
    case _ => Err
  }

  function DecodeFloat(e: Element, v: real): Result<real> {
    if Acceptable(e, v) then Ok(Incoming(e, v)) else Err
  }

  function DecodeInt(p: Platform, e: Element, kind: TypeKind, w: Width, ws: seq<Register>): Result<real>
    requires |ws| == Step(w)
  {
    match IsSignedKind(kind)
    case Err => Err
    case Ok(signed) =>
      var n := Join(w, ws);
      var raw := if signed then ToSigned(w, n) else n;
      if !Acceptable(e, raw as real) then Err
      else
        var target := if w == W16 && !signed then W8 else w;
        Ok(Cast(p, target, signed, Incoming(e, raw as real)) as real)
  }

  /** Registers of a block that nothing was written to. */
  function Zeros(n: nat): (z: seq<Register>)
    ensures |z| == n && forall i :: 0 <= i < n ==> z[i] == 0
  {
    seq(n, _ => 0)
  }

  // ----- vectors ----------------------------------------------------------------

  function EncodeAll(p: Platform, e: Element, xs: seq<real>): (r: Result<seq<Register>>)
    ensures r.Ok? && RegistersPer(e.dataType).Ok? ==> |r.value| == Start(RegistersPer(e.dataType).value, |xs|)
  {
    if xs == [] then Ok([])
    else
      var n := |xs| - 1;
      match EncodeAll(p, e, xs[..n])
      case Err => Err
      case Ok(front) =>
        match EncodeOne(p, e, xs[n])
        case Err => Err
        case Ok(ws) => Ok(front + ws)
  }

  /** The first `n` values of a block. */
  function DecodeAll(p: Platform, e: Element, kind: TypeKind, input: seq<Register>, n: nat): (r: Result<seq<real>>)
    requires RegistersPer(e.dataType).Ok? && Start(RegistersPer(e.dataType).value, n) <= |input|
    ensures r.Ok? ==> |r.value| == n
  {
    if n == 0 then Ok([])
    else
      var step := RegistersPer(e.dataType).value;
      match DecodeAll(p, e, kind, input, n - 1)
      case Err => Err
      case Ok(front) =>
        match DecodeOne(p, e, kind, input[Start(step, n - 1)..Start(step, n)])
        case Err => Err
        case Ok(v) => Ok(front + [v])
  }

  /** The first `k` values of the block are `values`. */
  ghost predicate DecodedUpTo(p: Platform, e: Element, kind: TypeKind, input: seq<Register>, k: nat, values: seq<real>)
    requires RegistersPer(e.dataType).Ok?
  {
    Start(RegistersPer(e.dataType).value, k) <= |input| && DecodeAll(p, e, kind, input, k) == Ok(values)
  }

  lemma DecodedStep(p: Platform, e: Element, kind: TypeKind, input: seq<Register>, k: nat, values: seq<real>,
                    v: real, values': seq<real>)
    requires RegistersPer(e.dataType).Ok? && Start(RegistersPer(e.dataType).value, k + 1) <= |input|
    requires DecodedUpTo(p, e, kind, input, k, values)
    requires var step := RegistersPer(e.dataType).value;
             DecodeOne(p, e, kind, input[Start(step, k)..Start(step, k + 1)]) == Ok(v)
    requires values' == values + [v]
    ensures DecodedUpTo(p, e, kind, input, k + 1, values')
  {
  }

  lemma StartIsProduct(step: nat, i: nat)
    requires IsStep(step)
    ensures Start(step, i) == i * step
  {
  }

  /** Element `i` occupies exactly registers [i * step, (i + 1) * step) of the block. */
  lemma {:induction false} EncodeAllLayout(p: Platform, e: Element, xs: seq<real>, i: nat)
    requires RegistersPer(e.dataType).Ok? && EncodeAll(p, e, xs).Ok? && i < |xs|
    ensures var step := RegistersPer(e.dataType).value;
            && Start(step, i) == i * step && Start(step, i + 1) == (i + 1) * step
            && EncodeOne(p, e, xs[i]) == Ok(EncodeAll(p, e, xs).value[Start(step, i)..Start(step, i + 1)])
  {
    var step := RegistersPer(e.dataType).value;
    StartIsProduct(step, i);
    StartIsProduct(step, i + 1);
    var n := |xs| - 1;
    var front, ws := EncodedLast(p, e, xs);
    if i < n {
      EncodeAllLayout(p, e, xs[..n], i);
      StartMonotone(step, i, n);
      SliceOfFront(front, ws, Start(step, i), Start(step, i + 1));
    } else {
      SliceBehind(front, ws);
    }
  }

  lemma EncodedLast(p: Platform, e: Element, xs: seq<real>) returns (front: seq<Register>, ws: seq<Register>)
    requires RegistersPer(e.dataType).Ok? && EncodeAll(p, e, xs).Ok? && xs != []
    ensures var n, step := |xs| - 1, RegistersPer(e.dataType).value;
            && EncodeAll(p, e, xs[..n]) == Ok(front) && EncodeOne(p, e, xs[n]) == Ok(ws)
            && EncodeAll(p, e, xs) == Ok(front + ws)
            && |front| == Start(step, n) && |ws| == step && Start(step, n + 1) == |front| + |ws|
  {
    front, ws := EncodeAll(p, e, xs[..|xs| - 1]).value, EncodeOne(p, e, xs[|xs| - 1]).value;
  }

  lemma SliceOfFront(front: seq<Register>, ws: seq<Register>, i: nat, j: nat)
    requires i <= j <= |front|
    ensures (front + ws)[i..j] == front[i..j]
  {
  }

  lemma SliceBehind(front: seq<Register>, ws: seq<Register>)
    ensures (front + ws)[|front|..|front| + |ws|] == ws
  {
  }

  /** A vector is encodable when each of its values is. */
  lemma {:induction false} EncodeAllOk(p: Platform, e: Element, xs: seq<real>)
    ensures EncodeAll(p, e, xs).Ok? <==> forall i :: 0 <= i < |xs| ==> EncodeOne(p, e, xs[i]).Ok?
  {
    if xs != [] {
      var n := |xs| - 1;
      EncodeAllOk(p, e, xs[..n]);
      assert forall i :: 0 <= i < n ==> xs[..n][i] == xs[i];
    }
  }

  /** Value `i` of the block is the acceptable number `y`. */
  ghost predicate SlotCarries(p: Platform, e: Element, y: real, block: seq<Register>, i: nat)
    requires RegistersPer(e.dataType).Ok?
  {
    var step := RegistersPer(e.dataType).value;
    Acceptable(e, y) && Start(step, i + 1) <= |block| && Carries(p, e, y, block[Start(step, i)..Start(step, i + 1)])
  }

  /** The block carries the transformed values, each acceptable, from its start. */
  ghost predicate CarriesAll(p: Platform, e: Element, xs: seq<real>, block: seq<Register>)
    requires RegistersPer(e.dataType).Ok?
  {
    forall i, y :: 0 <= i < |xs| && y == e.offset + xs[i] * e.factor ==> SlotCarries(p, e, y, block, i)
  }

  /** The registers can be written, and the transformed value is acceptable. */
  predicate Writable(e: Element, x: real) {
    (e.dataType.HoldingInt? || e.dataType.HoldingFloat?) && Acceptable(e, e.offset + x * e.factor)
  }

  predicate AllWritable(e: Element, xs: seq<real>) {
    forall i :: 0 <= i < |xs| ==> Writable(e, xs[i])
  }

  lemma EncodeAllExactly(p: Platform, e: Element, xs: seq<real>)
    ensures EncodeAll(p, e, xs).Ok? <==> AllWritable(e, xs)
  {
    EncodeAllOk(p, e, xs);
    forall i | 0 <= i < |xs| ensures EncodeOne(p, e, xs[i]).Ok? <==> Writable(e, xs[i]) {
      EncodeTransforms(p, e, xs[i], e.offset + xs[i] * e.factor);
    }
  }

  /** Whatever block begins with the encoding of a vector carries its transformed values. */
  lemma EncodeAllTransforms(p: Platform, e: Element, xs: seq<real>, block: seq<Register>)
    requires RegistersPer(e.dataType).Ok? && EncodeAll(p, e, xs).Ok? && EncodeAll(p, e, xs).value <= block
    ensures CarriesAll(p, e, xs, block)
  {
    forall i, y | 0 <= i < |xs| && y == e.offset + xs[i] * e.factor ensures SlotCarries(p, e, y, block, i) {
      EncodedSlotCarries(p, e, xs, block, i, y);
    }
  }

  lemma EncodedSlotCarries(p: Platform, e: Element, xs: seq<real>, block: seq<Register>, i: nat, y: real)
    requires RegistersPer(e.dataType).Ok? && EncodeAll(p, e, xs).Ok? && EncodeAll(p, e, xs).value <= block
    requires i < |xs| && y == e.offset + xs[i] * e.factor
    ensures SlotCarries(p, e, y, block, i)
  {
    var ws := EncodedSlot(p, e, xs, block, i);
    EncodeTransforms(p, e, xs[i], y);
  }

  lemma EncodedSlot(p: Platform, e: Element, xs: seq<real>, block: seq<Register>, i: nat)
    returns (ws: seq<Register>)
    requires RegistersPer(e.dataType).Ok? && EncodeAll(p, e, xs).Ok? && EncodeAll(p, e, xs).value <= block
    requires i < |xs|
    ensures EncodeOne(p, e, xs[i]) == Ok(ws)
    ensures var step := RegistersPer(e.dataType).value;
            Start(step, i + 1) <= |block| && block[Start(step, i)..Start(step, i + 1)] == ws
  {
    var step, all := RegistersPer(e.dataType).value, EncodeAll(p, e, xs).value;
    StartMonotone(step, i, |xs|);
    EncodeAllLayout(p, e, xs, i);
    ws := all[Start(step, i)..Start(step, i + 1)];
    assert block[Start(step, i)..Start(step, i + 1)] == ws;
  }

  ghost predicate Overlaid(now: seq<Register>, before: seq<Register>, ws: seq<Register>) {
    |ws| <= |before| && now == ws + before[|ws|..]
  }

  /** `get_registers_value`: fill the head of `output`, stopping at the first value that
      is rejected.  The caller provides a block large enough for the vector. */
  method GetRegistersValue(p: Platform, e: Element, output: array<Register>, xs: seq<real>) returns (ok: bool)
    requires RegistersPer(e.dataType).Ok? && Start(RegistersPer(e.dataType).value, |xs|) <= output.Length
    modifies output
    ensures ok <==> EncodeAll(p, e, xs).Ok?
    ensures ok <==> AllWritable(e, xs)
    ensures ok ==> Overlaid(output[..], old(output[..]), EncodeAll(p, e, xs).value)
    ensures ok ==> CarriesAll(p, e, xs, output[..])
    ensures !ok ==> exists k :: 0 <= k < |xs| && RejectedAt(p, e, xs, k, output[..], old(output[..]))
  {
    var step := RegistersPer(e.dataType).value;
    var next := 0;
    for i := 0 to |xs|
      invariant next == Start(step, i)
      invariant EncodedUpTo(p, e, xs, i, output[..], old(output[..]))
    {
      StartMonotone(step, i, |xs|);
      var r := EncodeOne(p, e, xs[i]);
      if r.Err? {
        EncodeAllOk(p, e, xs);
        EncodeAllExactly(p, e, xs);
        assert RejectedAt(p, e, xs, i, output[..], old(output[..]));
        return false;
      }
      ghost var before := output[..];
      PutWords(output, next, r.value);
      EncodedStep(p, e, xs, i, before, old(output[..]), r.value);
      next := next + step;
    }
    assert xs[..|xs|] == xs;
    EncodeAllExactly(p, e, xs);
    EncodeAllTransforms(p, e, xs, output[..]);
    return true;
  }

  /** The block after the first `i` values. */
  ghost predicate EncodedUpTo(p: Platform, e: Element, xs: seq<real>, i: nat, now: seq<Register>,
                              before: seq<Register>)
  {
    i <= |xs| && EncodeAll(p, e, xs[..i]).Ok? && Overlaid(now, before, EncodeAll(p, e, xs[..i]).value)
  }

  /** Value `k` is rejected; the block holds those before it. */
  ghost predicate RejectedAt(p: Platform, e: Element, xs: seq<real>, k: nat, now: seq<Register>,
                             before: seq<Register>)
  {
    k < |xs| && EncodeOne(p, e, xs[k]).Err? && EncodedUpTo(p, e, xs, k, now, before)
  }

  lemma EncodedStep(p: Platform, e: Element, xs: seq<real>, i: nat, now: seq<Register>,
                    before: seq<Register>, ws: seq<Register>)
    requires i < |xs| && EncodedUpTo(p, e, xs, i, now, before) && EncodeOne(p, e, xs[i]) == Ok(ws)
    requires Start(|ws|, i + 1) <= |before|
    ensures var next := Start(|ws|, i);
            EncodedUpTo(p, e, xs, i + 1, now[..next] + ws + now[next + |ws|..], before)
  {
    assert xs[..i + 1][..i] == xs[..i];
    OverlayGrows(now, before, EncodeAll(p, e, xs[..i]).value, ws);
  }

  lemma OverlayGrows(now: seq<Register>, before: seq<Register>, front: seq<Register>, ws: seq<Register>)
    requires Overlaid(now, before, front) && |front| + |ws| <= |before|
    ensures Overlaid(now[..|front|] + ws + now[|front| + |ws|..], before, front + ws)
  {
  }

  /** Store one value's words at the write position. */
  method PutWords(output: array<Register>, at: nat, ws: seq<Register>)
    requires at + |ws| <= output.Length
    modifies output
    ensures output[..] == old(output[..])[..at] + ws + old(output[..])[at + |ws|..]
  {
    for j := 0 to |ws|
      invariant forall k :: 0 <= k < output.Length && !(at <= k < at + j) ==> output[k] == old(output[k])
      invariant forall k :: 0 <= k < j ==> output[at + k] == ws[k]
    {
      output[at + j] := ws[j];
    }
    assert output[at..at + |ws|] == ws;
  }

  /** `get_float_value`: decode a block of `n` values. */
  method GetFloatValue(p: Platform, e: Element, kind: TypeKind, input: seq<Register>, ghost n: nat)
    returns (r: Result<seq<real>>)
    requires RegistersPer(e.dataType).Ok?
    requires |input| == e.registerCount == Start(RegistersPer(e.dataType).value, n)
    ensures r == DecodeAll(p, e, kind, input, n)
  {
    var step := RegistersPer(e.dataType).value;
    var values: seq<real> := [];
    var i := 0;
    ghost var k := 0;
    while i < |input|
      invariant k <= n && i == Start(step, k)
      invariant DecodedUpTo(p, e, kind, input, k, values)
    {
      StartMonotone(step, k, n);
      var v := DecodeValue(p, e, kind, input, i, k, values, n);
      if v.Err? {
        return Err;
      }
      values := values + [v.value];
      i := i + step;
      k := k + 1;
    }
    StartMonotone(step, k, n);
    return Ok(values);
  }

  /** Decode the value whose registers start at `i`. */
  method DecodeValue(p: Platform, e: Element, kind: TypeKind, input: seq<Register>, i: nat,
                     ghost k: nat, ghost values: seq<real>, ghost n: nat)
    returns (v: Result<real>)
    requires RegistersPer(e.dataType).Ok? && i == Start(RegistersPer(e.dataType).value, k) && k < n
    requires Start(RegistersPer(e.dataType).value, n) <= |input| && DecodedUpTo(p, e, kind, input, k, values)
    ensures v.Ok? ==> DecodedUpTo(p, e, kind, input, k + 1, values + [v.value])
    ensures v.Err? ==> DecodeAll(p, e, kind, input, n).Err?
  {
    var step := RegistersPer(e.dataType).value;
    StartMonotone(step, k, n);
    v := DecodeOne(p, e, kind, input[i..i + step]);
    if v.Ok? {
      DecodedStep(p, e, kind, input, k, values, v.value, values + [v.value]);
    } else {
      DecodingFails(p, e, kind, input, k, values, n);
    }
  }

  lemma StartMonotone(step: nat, i: nat, j: nat)
    requires IsStep(step)
    ensures i < j <==> Start(step, i) < Start(step, j)
    ensures Start(step, i + 1) == Start(step, i) + step
    ensures i < j ==> Start(step, i + 1) <= Start(step, j)
  {
  }

  lemma DecodingFails(p: Platform, e: Element, kind: TypeKind, input: seq<Register>, k: nat, values: seq<real>, n: nat)
    requires RegistersPer(e.dataType).Ok? && k < n && Start(RegistersPer(e.dataType).value, n) <= |input|
    requires DecodedUpTo(p, e, kind, input, k, values)
    requires var step := RegistersPer(e.dataType).value;
             DecodeOne(p, e, kind, input[Start(step, k)..Start(step, k + 1)]) == Err
    ensures DecodeAll(p, e, kind, input, n) == Err
  {
    StartMonotone(RegistersPer(e.dataType).value, k, n);
    DecodeNextFails(p, e, kind, input, k);
    DecodeAllFails(p, e, kind, input, k + 1, n);
  }

  lemma DecodeNextFails(p: Platform, e: Element, kind: TypeKind, input: seq<Register>, k: nat)
    requires RegistersPer(e.dataType).Ok? && Start(RegistersPer(e.dataType).value, k + 1) <= |input|
    requires var step := RegistersPer(e.dataType).value;
             DecodeOne(p, e, kind, input[Start(step, k)..Start(step, k + 1)]) == Err
    ensures DecodeAll(p, e, kind, input, k + 1) == Err
  {
  }

  lemma {:induction false} DecodeAllFails(p: Platform, e: Element, kind: TypeKind, input: seq<Register>, k: nat, n: nat)
    requires RegistersPer(e.dataType).Ok? && k <= n && Start(RegistersPer(e.dataType).value, n) <= |input|
    requires DecodeAll(p, e, kind, input, k).Err?
    ensures DecodeAll(p, e, kind, input, n).Err?
  {
    if k < n {
      DecodeAllFails(p, e, kind, input, k, n - 1);
    }
  }
}
