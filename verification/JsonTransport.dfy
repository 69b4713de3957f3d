/**
  How the JSON transformation carries text in a member of a DDS sample: a string, a
  sequence of characters or octets, or an array of them, and how the text is recovered.
 */
module JsonTransport {
  import opened Wrappers
  import opened CStrings
  import opened JsonText

  datatype MemberType =
    | StringMember(bound: nat)
    | SequenceMember(bound: nat)     // of characters or octets
    | ArrayMember(size: nat)         // of characters or octets
    | OtherMember

  datatype MemberValue =
    | StringValue(s: string)
    | SequenceValue(es: seq<char>)
    | ArrayValue(es: seq<char>)

  /** The length the type system reports for an unbounded string or sequence. */
  const UNBOUNDED := 0x7fff_ffff

  /** `DDS_TypeCode_length` of the member. */
  function MemberLength(t: MemberType): nat {
    match t
    case StringMember(bound) => bound
    case SequenceMember(bound) => bound
    case ArrayMember(size) => size
    case OtherMember => 0
  }

  // ----- specification ---------------------------------------------------------------------

  /** How many characters of a C string go into a sequence: with the terminator, unless the
      text alone takes `maxSize`. */
  function SentLength(text: string, maxSize: nat): nat {
    if |text| == maxSize then |text| else |text| + 1
  }

  function Zeros(n: nat): (z: seq<char>)
    ensures |z| == n && forall i :: 0 <= i < n ==> z[i] == NUL
  {
    seq(n, _ => NUL)
  }

  /** What ends up in the member; `buffer` has a terminator, `size` is the number of its
      characters the transformation uses, `maxSize` the size the formatter reported. */
  function Written(t: MemberType, buffer: seq<char>, size: nat, maxSize: nat): Result<MemberValue>
    requires NUL in buffer && size <= |buffer|
  {
    var text := CString(buffer);
    match t
    case StringMember(bound) => if |text| <= bound then Ok(StringValue(text)) else Err
    case SequenceMember(bound) =>
      var n := SentLength(text, maxSize);
      if n <= maxSize && n <= bound then Ok(SequenceValue(buffer[..n])) else Err
    case ArrayMember(n) => if size <= n then Ok(ArrayValue(buffer[..size] + Zeros(n - size))) else Err
    case OtherMember => Err
  }

  function Terminated(es: seq<char>): seq<char>
    requires es != []
  {
    if es[|es| - 1] == NUL then es else es + [NUL]
  }

  function SequenceText(es: seq<char>): Result<string> {
    if es == [] then Err else Ok(CString(Terminated(es)))
  }

  /** A string can be read when its terminator fits, or when the buffer may grow. */
  predicate Readable(max: nat, size: nat, s: string) {
    max == UNBOUNDED || |s| + 1 <= size
  }

  /** The C string the deserializer passes on, given its own buffer, which has one more
      character than its size; an array is copied over the head of that buffer. */
  function ReadBack(max: nat, buffer: seq<char>, v: MemberValue): Result<string>
    requires buffer != []
  {
    match v
    case StringValue(s) => if Readable(max, |buffer| - 1, s) then Ok(CString(s)) else Err
    case SequenceValue(es) => SequenceText(es)
    case ArrayValue(es) => if |es| < |buffer| then Ok(CString(es + buffer[|es|..])) else Err
  }

  /** What a member of each kind holds once a text is written: the text, with or without a terminator
      in a sequence, with one and zeros behind the used part of the buffer in an array. */
  lemma MemberHolds(t: MemberType, buffer: seq<char>, size: nat, maxSize: nat)
    requires NUL in buffer && |CString(buffer)| < size <= |buffer| && Written(t, buffer, size, maxSize).Ok?
    ensures var v, text := Written(t, buffer, size, maxSize).value, CString(buffer);
            match t
            case StringMember(_) => v == StringValue(text)
            case SequenceMember(_) => v == SequenceValue(if |text| == maxSize then text else text + [NUL])
            case ArrayMember(n) =>
              && v.ArrayValue? && |v.es| == n && text + [NUL] <= v.es
              && forall i :: size <= i < n ==> v.es[i] == NUL
            case OtherMember => false
  {
    var text := CString(buffer);
    assert buffer[..|text|] == text && buffer[..|text| + 1] == text + [NUL];
  }

  // ----- the loaned sequence --------------------------------------------------------------------

  class DdsSequence {
    var elems: seq<char>
    var loaned: bool

    constructor ()
      ensures elems == [] && !loaned
    {
      elems, loaned := [], false;
    }

    /** Lending a buffer works only on a sequence that has none yet. */
    method LoanContiguous(buffer: seq<char>, length: nat, maximum: nat) returns (ok: bool)
      requires length <= |buffer|
      modifies this
      ensures ok <==> !old(loaned) && length <= maximum
      ensures ok ==> loaned && elems == buffer[..length]
      ensures !ok ==> unchanged(this)
    {
      if loaned || length > maximum {
        return false;
      }
      elems, loaned := buffer[..length], true;
      return true;
    }

    method Unloan()
      modifies this
      ensures elems == [] && !loaned
    {
      elems, loaned := [], false;
    }

    /** `set_char_seq_from_string` / `set_octet_seq_from_string`.  When setting the member
        fails, for lack of room or because the library refuses, the sequence keeps the loan. */
    method SetFromString(bound: nat, buffer: seq<char>, maxSize: nat, refused: bool)
      returns (r: Result<MemberValue>)
      requires NUL in buffer
      modifies this
      ensures r == if old(loaned) || refused then Err else Written(SequenceMember(bound), buffer, 0, maxSize)
      ensures loaned <==> old(loaned) || (r.Err? && SentLength(CString(buffer), maxSize) <= maxSize)
    {
      var currentSize := |CString(buffer)| + 1;
      if currentSize - 1 == maxSize {
        currentSize := currentSize - 1;
      }
      var ok := LoanContiguous(buffer, currentSize, maxSize);
      if !ok {
        return Err;
      }
      if |elems| > bound || refused {
        return Err;
      }
      r := Ok(SequenceValue(elems));
      Unloan();
    }

    /** `assert_nul_terminator`. */
    method AssertNulTerminator() returns (ok: bool)
      modifies this
      ensures ok <==> old(elems) != []
      ensures ok ==> elems == Terminated(old(elems))
      ensures !ok ==> elems == []
      ensures loaned == old(loaned)
    {
      var length := |elems|;
      if length == 0 {
        return false;
      }
      if elems[length - 1] == NUL {
        return true;
      }
      elems := elems + [' '];
      elems := elems[length := NUL];
      return true;
    }

    /** `get_char_seq_contiguous_buffer` / `get_octet_seq_contiguous_buffer`. */
    method GetContiguousBuffer(value: seq<char>) returns (r: Result<string>)
      modifies this
      ensures r == SequenceText(value)
    {
      elems := value;
      var ok := AssertNulTerminator();
      if !ok {
        return Err;
      }
      return Ok(CString(elems));
    }

    /** After a call that failed to set the member, every later call fails, whatever the text. */
    method LaterCallsFail(bound: nat, buffers: seq<seq<char>>, maxSizes: seq<nat>)
      returns (results: seq<Result<MemberValue>>)
      requires loaned && |maxSizes| == |buffers| && forall i :: 0 <= i < |buffers| ==> NUL in buffers[i]
      modifies this
      ensures loaned && |results| == |buffers| && forall i :: 0 <= i < |results| ==> results[i].Err?
    {
      results := [];
      for i := 0 to |buffers|
        invariant loaned && |results| == i && forall k :: 0 <= k < i ==> results[k].Err?
      {
        var r := SetFromString(bound, buffers[i], maxSizes[i], false);
        results := results + [r];
      }
    }
  }

  // ----- round trips --------------------------------------------------------------------------------

  /** Whether text that was written comes back; `size` is that of the reader's buffer, and
      `maxSize` what the formatter reported to the writer. */
  predicate ComesBack(t: MemberType, text: string, maxSize: nat, size: nat) {
    match t
    case StringMember(bound) => Readable(bound, size, text)
    case SequenceMember(_) => text != [] || maxSize != 0
    case ArrayMember(n) => n <= size
    case OtherMember => false
  }

  lemma TextBefore(text: string, b: seq<char>)
    requires NUL !in text && |text| < |b| && b[..|text|] == text && b[|text|] == NUL
    ensures CString(b) == text
  {
    assert b == text + [NUL] + b[|text| + 1..];
    CStringOf(text, b[|text| + 1..]);
  }

  lemma SameHead(a: seq<char>, b: seq<char>, size: nat)
    requires NUL in a && |CString(a)| < size <= |a| && size <= |b| && a[..size] == b[..size]
    ensures CString(b) == CString(a)
  {
    var n := |CString(a)|;
    assert a[..n] == a[..size][..n] && b[..n] == b[..size][..n];
    assert a[n] == a[..size][n] && b[n] == b[..size][n];
    TextBefore(CString(a), b);
  }

  /** A reader prepared for the member reads a string back exactly when the member is unbounded
      or the string is shorter than its bound; one that fills its bound is refused. */
  lemma RoundTripString(buffer: seq<char>, bound: nat, maxSize: nat, reader: seq<char>)
    requires NUL in buffer && |CString(buffer)| <= bound && reader != []
    requires bound != UNBOUNDED ==> |reader| == bound + 1
    ensures var text, r := CString(buffer), Written(StringMember(bound), buffer, 0, maxSize);
            && r.Ok?
            && (ReadBack(bound, reader, r.value) == Ok(text) <==> bound == UNBOUNDED || |text| < bound)
            && (ReadBack(bound, reader, r.value) == Err <==> bound != UNBOUNDED && |text| == bound)
  {
  }

  /** Text that fits an array together with its terminator is read back exactly when the array
      fits the reader's buffer, whatever either buffer holds behind it. */
  lemma RoundTripArray(buffer: seq<char>, n: nat, size: nat, maxSize: nat, reader: seq<char>)
    requires NUL in buffer && |CString(buffer)| < size <= |buffer| && size <= n && reader != []
    ensures var text, r := CString(buffer), Written(ArrayMember(n), buffer, size, maxSize);
            r.Ok? && ReadBack(n, reader, r.value) == if n < |reader| then Ok(text) else Err
  {
    var es := buffer[..size] + Zeros(n - size);
    assert Written(ArrayMember(n), buffer, size, maxSize) == Ok(ArrayValue(es));
    if |es| < |reader| {
      var b := es + reader[|es|..];
      assert b[..size] == es[..size] == buffer[..size];
      SameHead(buffer, b, size);
    }
  }

  /** Text sent through a sequence is accepted exactly when what is sent fits, and read back
      unchanged unless it is empty and had no room for the terminator. */
  lemma RoundTripSequence(buffer: seq<char>, bound: nat, maxSize: nat, reader: seq<char>)
    requires NUL in buffer && |CString(buffer)| <= maxSize && reader != []
    ensures var text, r := CString(buffer), Written(SequenceMember(bound), buffer, 0, maxSize);
            && (r.Ok? <==> SentLength(text, maxSize) <= bound)
            && (r.Ok? ==> ReadBack(bound, reader, r.value) == if text != [] || maxSize != 0 then Ok(text) else Err)
  {
    var text := CString(buffer);
    var es := buffer[..SentLength(text, maxSize)];
    if es != [] {
      assert es == text ==> es[|es| - 1] in text;
      TextBefore(text, Terminated(es));
    }
  }

  /** Whatever the member, a text that was written is read back exactly when `ComesBack` says
      so; otherwise reading fails. */
  lemma WrittenTextIsReadBack(t: MemberType, buffer: seq<char>, size: nat, maxSize: nat, reader: seq<char>)
    requires NUL in buffer && reader != []
    requires |CString(buffer)| <= maxSize && |CString(buffer)| < size <= |buffer|
    requires Written(t, buffer, size, maxSize).Ok?
    ensures ReadBack(MemberLength(t), reader, Written(t, buffer, size, maxSize).value) ==
            if ComesBack(t, CString(buffer), maxSize, |reader| - 1) then Ok(CString(buffer)) else Err
  {
    match t
    case StringMember(_) =>
    case SequenceMember(bound) => RoundTripSequence(buffer, bound, maxSize, reader);
    case ArrayMember(n) => RoundTripArray(buffer, n, size, maxSize, reader);
  }
}
