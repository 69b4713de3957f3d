/**
  How many registers a configured element occupies: the end of the configuration
  parse, and the comparison of the result with the shape of the DDS field.
 */
module ModbusLayout {
  import opened Wrappers
  import opened ModbusCodec

  /** An `int` converted to the 64-bit `size_t`. */
  function AsSize(n: int): nat {
    n % 0x1_0000_0000_0000_0000
  }

  datatype Shape = Shape(registerCount: int, arrayElements: nat)

  /** `calculate_array_elements`, with the signed count converted to `size_t` first. */
  function CalculateArrayElements(dt: ModbusDataType, count: int): Result<nat> {
    match RegistersPer(dt)
    case Err => Err
    case Ok(step) =>
      if AsSize(count) % step != 0 || AsSize(count) / step < 1 then Err else Ok(AsSize(count) / step)
  }

  /** The element's counts after a successful parse of the configured `count`. */
  function ParsedShape(dt: ModbusDataType, count: int): Result<Shape> {
    if dt == ConstantValue then Ok(Shape(count, 0))
    else if count == 0 then
      match RegistersPer(dt)
      case Err => Err
      case Ok(step) => Ok(Shape(step, 0))
    else
      match CalculateArrayElements(dt, count)
      case Err => Err
      case Ok(n) => Ok(if n == 1 then Shape(RegistersPer(dt).value, 0) else Shape(count, n))
  }

  class ConfigurationElement {
    const dataType: ModbusDataType
    var registerCount: int
    var arrayElements: nat

    constructor (dt: ModbusDataType, count: int)
      ensures dataType == dt && registerCount == count && arrayElements == 0
    {
      dataType := dt;
      registerCount := count;
      arrayElements := 0;
    }

    /** `set_array_elements_from_config`; an array of one element is a plain value. */
    method SetArrayElementsFromConfig() returns (ok: bool)
      modifies this`arrayElements
      ensures ok <==> CalculateArrayElements(dataType, registerCount).Ok?
      ensures ok ==> var n := CalculateArrayElements(dataType, registerCount).value;
                     arrayElements == if n == 1 then 0 else n
      ensures !ok ==> arrayElements == old(arrayElements)
    {
      var r := CalculateArrayElements(dataType, registerCount);
      if r.Err? {
        return false;
      }
      arrayElements := r.value;
      if arrayElements == 1 {
        arrayElements := 0;
      }
      return true;
    }

    /** The last steps of parsing one element; an exception abandons the element. */
    method FinishParse() returns (ok: bool)
      requires arrayElements == 0
      modifies this
      ensures ok <==> ParsedShape(dataType, old(registerCount)).Ok?
      ensures ok ==> Shape(registerCount, arrayElements) == ParsedShape(dataType, old(registerCount)).value
    {
      if registerCount != 0 && dataType != ConstantValue {
        ok := SetArrayElementsFromConfig();
        if !ok {
          return;
        }
      }
      if arrayElements == 0 && dataType != ConstantValue {
        var r := RegistersPer(dataType);
        if r.Err? {
          return false;
        }
        registerCount := r.value;
      }
      return true;
    }
  }

  /** The block holds a whole number of values, at least one; one value is no array. */
  predicate WholeValues(dt: ModbusDataType, s: Shape) {
    && RegistersPer(dt).Ok?
    && s.registerCount == Start(RegistersPer(dt).value, if s.arrayElements == 0 then 1 else s.arrayElements)
    && s.arrayElements != 1
  }

  /** A 32-bit count is accepted exactly when it is a multiple of the value's width, even
      a negative one; the resulting block then holds whole values exactly when the
      configured count was not negative. */
  lemma ParsedShapeWhole(dt: ModbusDataType, count: int)
    requires dt != ConstantValue && -0x8000_0000 <= count < 0x8000_0000
    ensures ParsedShape(dt, count).Ok? <==>
            RegistersPer(dt).Ok? && count % RegistersPer(dt).value == 0
    ensures ParsedShape(dt, count).Ok? ==>
            (WholeValues(dt, ParsedShape(dt, count).value) <==> count >= 0)
  {
    if RegistersPer(dt).Ok? {
      var step := RegistersPer(dt).value;
      SizeDivides(count, step);
    }
  }

  lemma SizeDivides(count: int, step: nat)
    requires IsStep(step) && -0x8000_0000 <= count < 0x8000_0000
    ensures AsSize(count) % step == 0 <==> count % step == 0
    ensures count != 0 && count % step == 0 ==> AsSize(count) / step >= 1
    ensures count % step == 0 && count >= 0 ==> count == Start(step, AsSize(count) / step)
  {
    assert AsSize(count) == if count < 0 then count + 0x1_0000_0000_0000_0000 else count;
  }

  // ----- against the DDS type -------------------------------------------------------

  datatype FieldType =
    | Scalar
    | ArrayField(dimensions: nat, total: nat)
    | SequenceField(bound: nat)

  /** The part of `check_configuration_consistency` that compares sizes. */
  predicate SizesConsistent(s: Shape, f: FieldType) {
    match f
    case Scalar => s.arrayElements == 0
    case ArrayField(d, n) => s.arrayElements != 0 && d == 1 && n == s.arrayElements
    case SequenceField(b) => s.arrayElements != 0 && s.arrayElements <= b
  }

  /** What a configured count that is not negative is parsed to. */
  lemma ParsedShapeExactly(dt: ModbusDataType, count: nat, step: nat)
    requires dt != ConstantValue && count < 0x8000_0000
    requires ParsedShape(dt, count).Ok? && RegistersPer(dt) == Ok(step)
    ensures var s := ParsedShape(dt, count).value;
            && s.registerCount == (if count == 0 then step else count)
            && s.arrayElements == (if count <= step then 0 else count / step)
  {
    SizeDivides(count, step);
  }

  /** Which fields the size check accepts for that count: a scalar when it is absent or one value's
      width, an array of one dimension when it is the width of all its values and there are several,
      a sequence when several values fit it and its bound is not below their number. */
  lemma AcceptedSizes(dt: ModbusDataType, count: nat, step: nat, f: FieldType)
    requires dt != ConstantValue && count < 0x8000_0000
    requires ParsedShape(dt, count).Ok? && RegistersPer(dt) == Ok(step)
    ensures SizesConsistent(ParsedShape(dt, count).value, f) <==>
            match f
            case Scalar => count == 0 || count == step
            case ArrayField(d, n) => d == 1 && n >= 2 && n * step == count
            case SequenceField(b) => 2 * step <= count <= b * step
  {
    ParsedShapeExactly(dt, count, step);
    ParsedShapeWhole(dt, count);
    var n := ParsedShape(dt, count).value.arrayElements;
    StartIsProduct(step, n);
    match f
    case Scalar =>
    case ArrayField(_, total) =>
      StartIsProduct(step, total);
      StartMonotone(step, n, total);
      StartMonotone(step, total, n);
    case SequenceField(b) =>
      StartIsProduct(step, b);
      StartMonotone(step, b, n);
  }

  /** How many values a sample of the field can supply. */
  predicate Supplies(f: FieldType, count: nat) {
    match f
    case Scalar => count == 1
    case ArrayField(_, n) => count == n
    case SequenceField(b) => count <= b
  }

  /** Scalars and arrays that pass the check fill their block exactly; a sequence fits
      exactly when it is no longer than the configured array, which its bound alone
      does not ensure. */
  lemma ConsistentSizesFit(dt: ModbusDataType, s: Shape, f: FieldType, count: nat)
    requires WholeValues(dt, s) && SizesConsistent(s, f) && Supplies(f, count)
    ensures !f.SequenceField? ==> Start(RegistersPer(dt).value, count) == s.registerCount
    ensures f.SequenceField? ==>
            (Start(RegistersPer(dt).value, count) <= s.registerCount <==> count <= s.arrayElements)
  {
  }

  /** A sequence field whose bound exceeds the block passes the check, and a full
      sequence then does not fit. */
  lemma LongSequenceOverrunsBlock()
    ensures var dt, s, f := HoldingInt(W16), Shape(2, 2), SequenceField(3);
            && ParsedShape(dt, 2) == Ok(s) && SizesConsistent(s, f) && Supplies(f, 3)
            && Start(RegistersPer(dt).value, 3) > s.registerCount
  {
  }
}
