/**
  The serializer and deserializer of the JSON transformation: a reusable buffer that grows
  on demand when the member is unbounded, newline rewriting, and the hand-over to and from
  the member of the sample.

  The formatter of the DDS library turns a sample into text without a terminator inside.
  It fails for lack of space exactly when text and terminator exceed the size it is given,
  and then reports the size it needs; on success it reports the size of the text, with or
  without the terminator (`countsTerminator`).  It may also fail for reasons of its own.
  Allocation succeeds.
 */
module JsonTransformation {
  import opened Wrappers
  import opened CStrings
  import opened JsonText
  import opened JsonTransport

  datatype Code = OkCode | OutOfResources | ErrorCode

  /** What the library does with one sample: its text, unless formatting fails, and whether
      setting the member is refused although the value fits. */
  datatype Sample = Sample(text: string, fails: bool, countsTerminator: bool, setFails: bool)

  predicate WellFormed(x: Sample) {
    NUL !in x.text
  }

  /** Size the sample needs, terminator included. */
  function Needed(x: Sample): nat {
    |x.text| + 1
  }

  /** Size the formatter reports when it succeeds. */
  function Reported(x: Sample): nat {
    if x.countsTerminator then Needed(x) else |x.text|
  }

  function Emitted(indent: nat, text: string): string {
    if indent == 0 then Replaced(text) else text
  }

  function SizeAfter(max: nat, size: nat, x: Sample): nat {
    if !x.fails && max == UNBOUNDED && Needed(x) > size then Needed(x) else size
  }

  predicate Serializable(max: nat, size: nat, x: Sample) {
    !x.fails && (max == UNBOUNDED || Needed(x) <= size)
  }

  /** Whether a sample reaches the member, through a buffer of this size. */
  predicate Sendable(t: MemberType, size: nat, x: Sample) {
    && Serializable(MemberLength(t), size, x) && !x.setFails
    && match t
       case StringMember(bound) => |x.text| <= bound
       case SequenceMember(bound) => SentLength(x.text, Reported(x)) <= bound
       case ArrayMember(n) => SizeAfter(n, size, x) <= n
       case OtherMember => false
  }

  /** Setting a sequence failed, and the sequence keeps the loan. */
  predicate LeavesLoan(t: MemberType, size: nat, x: Sample) {
    t.SequenceMember? && Serializable(MemberLength(t), size, x) && !Sendable(t, size, x)
  }

  method Overwrite(buf: array<char>, es: seq<char>)
    requires |es| <= buf.Length
    modifies buf
    ensures buf[..] == es + old(buf[..])[|es|..]
  {
    for i := 0 to |es|
      invariant forall k :: 0 <= k < i ==> buf[k] == es[k]
      invariant forall k :: i <= k < buf.Length ==> buf[k] == old(buf[k])
    {
      buf[i] := es[i];
    }
  }

  /** Store a text and its terminator at the head of a buffer. */
  method PutCString(buf: array<char>, text: string)
    requires NUL !in text && |text| < buf.Length
    modifies buf
    ensures NUL in buf[..] && CString(buf[..]) == text
  {
    ghost var rest := buf[..][|text| + 1..];
    Overwrite(buf, text + [NUL]);
    assert buf[..][|text|] == NUL;
    CStringOf(text, rest);
  }

  /** `DDS_DynamicDataFormatter_to_json`. */
  method ToJson(x: Sample, buf: array<char>, size: nat) returns (code: Code, reported: nat)
    requires WellFormed(x) && size < buf.Length
    modifies buf
    ensures code == if x.fails then ErrorCode else if Needed(x) > size then OutOfResources else OkCode
    ensures code == OutOfResources ==> reported == Needed(x)
    ensures code == OkCode ==> NUL in buf[..] && CString(buf[..]) == x.text
    ensures code == OkCode ==> reported == Reported(x)
  {
    if x.fails {
      return ErrorCode, 0;
    }
    if Needed(x) > size {
      return OutOfResources, Needed(x);
    }
    PutCString(buf, x.text);
    return OkCode, Reported(x);
  }

  lemma EmittedKeepsNul(indent: nat, text: string)
    requires NUL !in text
    ensures |Emitted(indent, text)| == |text| && NUL !in Emitted(indent, text)
  {
    if indent == 0 {
      var r := Replaced(text);
      forall i | 0 <= i < |r| ensures r[i] != NUL {
        assert text[i] in text;
      }
    }
  }

  lemma WrittenIffSendable(t: MemberType, indent: nat, size: nat, x: Sample, buffer: seq<char>)
    requires WellFormed(x) && Serializable(MemberLength(t), size, x) && !x.setFails
    requires NUL in buffer && CString(buffer) == Emitted(indent, x.text)
    requires SizeAfter(MemberLength(t), size, x) + 1 == |buffer|
    ensures Written(t, buffer, |buffer| - 1, Reported(x)).Ok? <==> Sendable(t, size, x)
  {
    EmittedKeepsNul(indent, x.text);
  }

  class Serializer {
    const member: MemberType
    const jsonBufferMax: nat
    const indent: nat
    var jsonBuffer: array<char>
    var jsonBufferSize: nat
    const loan: DdsSequence

    /** The buffer of a bounded member keeps the member's length. */
    ghost predicate Valid()
      reads this
    {
      && jsonBuffer.Length == jsonBufferSize + 1
      && jsonBufferMax == MemberLength(member)
      && (jsonBufferMax != UNBOUNDED ==> jsonBufferSize == jsonBufferMax)
    }

    /** `preallocate_buffers`: the configured size, unless the member has a length of its own. */
    constructor (member: MemberType, initial: nat, indent: nat)
      ensures Valid() && this.member == member && this.indent == indent
      ensures MemberLength(member) == UNBOUNDED ==> jsonBufferSize == initial
      ensures MemberLength(member) != UNBOUNDED ==> jsonBufferSize == MemberLength(member)
      ensures fresh(jsonBuffer) && fresh(loan) && !loan.loaned
    {
      this.member := member;
      jsonBufferMax := MemberLength(member);
      this.indent := indent;
      var size := if MemberLength(member) == UNBOUNDED then initial else MemberLength(member);
      jsonBufferSize := size;
      jsonBuffer := new char[size + 1];
      loan := new DdsSequence();
    }

    /** The retry loop: at most two formatter calls, and the buffer grows only when needed. */
    method FormatIntoBuffer(x: Sample) returns (ok: bool, serializedSize: nat, calls: nat)
      requires Valid() && WellFormed(x)
      modifies this`jsonBuffer, this`jsonBufferSize, jsonBuffer
      ensures Valid() && (jsonBuffer == old(jsonBuffer) || fresh(jsonBuffer))
      ensures ok <==> Serializable(jsonBufferMax, old(jsonBufferSize), x)
      ensures jsonBufferSize == SizeAfter(jsonBufferMax, old(jsonBufferSize), x)
      ensures calls <= 2
      ensures ok ==> NUL in jsonBuffer[..] && CString(jsonBuffer[..]) == x.text
      ensures ok ==> serializedSize == Reported(x)
    {
      calls := 0;
      serializedSize := 0;
      while true
        invariant Valid() && (jsonBuffer == old(jsonBuffer) || fresh(jsonBuffer))
        invariant calls == 0 ==> jsonBufferSize == old(jsonBufferSize)
        invariant calls == 1 ==> !x.fails && jsonBufferMax == UNBOUNDED
        invariant calls == 1 ==> old(jsonBufferSize) < Needed(x) == jsonBufferSize
        invariant calls <= 1
        decreases 2 - calls
      {
        var code;
        code, serializedSize := ToJson(x, jsonBuffer, jsonBufferSize);
        calls := calls + 1;
        if code == OutOfResources {
          if jsonBufferMax != UNBOUNDED {
            return false, serializedSize, calls;
          }
          jsonBuffer := new char[serializedSize + 1];
          jsonBufferSize := serializedSize;
        } else if code == ErrorCode {
          return false, serializedSize, calls;
        } else {
          return true, serializedSize, calls;
        }
      }
    }

    /** Format, then rewrite newlines when `indent` is 0. */
    method EmitIntoBuffer(x: Sample) returns (ok: bool, serializedSize: nat)
      requires Valid() && WellFormed(x)
      modifies this`jsonBuffer, this`jsonBufferSize, jsonBuffer
      ensures Valid() && (jsonBuffer == old(jsonBuffer) || fresh(jsonBuffer))
      ensures ok <==> Serializable(jsonBufferMax, old(jsonBufferSize), x)
      ensures jsonBufferSize == SizeAfter(jsonBufferMax, old(jsonBufferSize), x)
      ensures ok ==> NUL in jsonBuffer[..] && CString(jsonBuffer[..]) == Emitted(indent, x.text)
      ensures ok ==> serializedSize == Reported(x)
    {
      var calls;
      ok, serializedSize, calls := FormatIntoBuffer(x);
      if ok && indent == 0 {
        ReplaceNewlines(jsonBuffer);
      }
    }

    /** `serialize`: what is in the buffer is set as the member's value. */
    method Serialize(x: Sample) returns (r: Result<MemberValue>, serializedSize: nat)
      requires Valid() && WellFormed(x)
      modifies this`jsonBuffer, this`jsonBufferSize, jsonBuffer, loan
      ensures Valid() && (jsonBuffer == old(jsonBuffer) || fresh(jsonBuffer))
      ensures jsonBufferSize == SizeAfter(jsonBufferMax, old(jsonBufferSize), x)
      ensures r.Ok? <==> Sendable(member, old(jsonBufferSize), x) && !(member.SequenceMember? && old(loan.loaned))
      ensures r.Ok? ==>
                && NUL in jsonBuffer[..] && CString(jsonBuffer[..]) == Emitted(indent, x.text)
                && serializedSize == Reported(x)
                && r == Written(member, jsonBuffer[..], jsonBufferSize, serializedSize)
      ensures loan.loaned <==> old(loan.loaned) || LeavesLoan(member, old(jsonBufferSize), x)
    {
      var ok;
      ok, serializedSize := EmitIntoBuffer(x);
      if !ok {
        return Err, serializedSize;
      }
      EmittedKeepsNul(indent, x.text);
      if !x.setFails {
        WrittenIffSendable(member, indent, old(jsonBufferSize), x, jsonBuffer[..]);
      }
      if member.SequenceMember? {
        r := loan.SetFromString(member.bound, jsonBuffer[..], serializedSize, x.setFails);
      } else if x.setFails {
        r := Err;
      } else {
        r := Written(member, jsonBuffer[..], jsonBufferSize, serializedSize);
      }
    }
  }

  // ----- the deserializer ---------------------------------------------------------------------------

  class Deserializer {
    const member: MemberType
    const jsonBufferMax: nat
    var jsonBuffer: array<char>
    var jsonBufferSize: nat
    const received: DdsSequence

    ghost predicate Valid()
      reads this
    {
      && jsonBuffer.Length == jsonBufferSize + 1
      && jsonBufferMax == MemberLength(member)
      && (jsonBufferMax != UNBOUNDED && !member.SequenceMember? ==> jsonBufferSize == jsonBufferMax)
    }

    /** A sequence member is read without the buffer. */
    constructor (member: MemberType, initial: nat)
      ensures Valid() && this.member == member && fresh(jsonBuffer) && fresh(received)
      ensures member.SequenceMember? ==> jsonBufferSize == 0
      ensures !member.SequenceMember? && MemberLength(member) == UNBOUNDED ==> jsonBufferSize == initial
      ensures !member.SequenceMember? && MemberLength(member) != UNBOUNDED ==> jsonBufferSize == MemberLength(member)
    {
      this.member := member;
      jsonBufferMax := MemberLength(member);
      var size := if member.SequenceMember? then 0
        else if MemberLength(member) == UNBOUNDED then initial else MemberLength(member);
      jsonBufferSize := size;
      jsonBuffer := new char[size + 1];
      received := new DdsSequence();
    }

    /** `DDS_DynamicData_get_string`: refused, with the size needed, when the terminator does
        not fit. */
    method GetString(s: string) returns (ok: bool, length: nat)
      requires Valid() && NUL !in s
      modifies jsonBuffer
      ensures ok <==> |s| + 1 <= jsonBufferSize
      ensures length == |s| + 1
      ensures ok ==> CString(jsonBuffer[..]) == s
    {
      length := |s| + 1;
      ok := length <= jsonBufferSize;
      if ok {
        PutCString(jsonBuffer, s);
      }
    }

    /** The retry loop of `deserialize`.  A string that fills its bound is refused, because the
        buffer of a bounded member has no room for the terminator. */
    method ReadString(s: string) returns (r: Result<string>, calls: nat)
      requires Valid() && NUL !in s
      modifies this`jsonBuffer, this`jsonBufferSize, jsonBuffer
      ensures Valid() && calls <= 2 && (jsonBuffer == old(jsonBuffer) || fresh(jsonBuffer))
      ensures r == if Readable(jsonBufferMax, old(jsonBufferSize), s) then Ok(s) else Err
      ensures jsonBufferSize ==
              if jsonBufferMax == UNBOUNDED && |s| + 1 > old(jsonBufferSize) then |s| + 1 else old(jsonBufferSize)
    {
      calls := 0;
      while true
        invariant Valid() && (jsonBuffer == old(jsonBuffer) || fresh(jsonBuffer))
        invariant calls == 0 ==> jsonBufferSize == old(jsonBufferSize)
        invariant calls == 1 ==> jsonBufferMax == UNBOUNDED && old(jsonBufferSize) < |s| + 1 == jsonBufferSize
        invariant calls <= 1
        decreases 2 - calls
      {
        var ok, length := GetString(s);
        calls := calls + 1;
        if ok {
          return Ok(CString(jsonBuffer[..])), calls;
        }
        if jsonBufferMax != UNBOUNDED {
          return Err, calls;
        }
        jsonBuffer := new char[length + 1];
        jsonBufferSize := length;
      }
    }

    /** `DDS_DynamicData_get_char_array` / `_get_octet_array` into the buffer. */
    method ReadArray(es: seq<char>) returns (r: Result<string>)
      requires Valid()
      modifies jsonBuffer
      ensures r == ReadBack(jsonBufferMax, old(jsonBuffer[..]), ArrayValue(es))
    {
      if |es| > jsonBufferSize {
        return Err;
      }
      Overwrite(jsonBuffer, es);
      return Ok(CString(jsonBuffer[..]));
    }

    /** `deserialize` up to the text it hands to the JSON parser. */
    method Deserialize(v: MemberValue) returns (r: Result<string>)
      requires Valid() && (v.StringValue? ==> NUL !in v.s)
      modifies this`jsonBuffer, this`jsonBufferSize, jsonBuffer, received
      ensures Valid() && (jsonBuffer == old(jsonBuffer) || fresh(jsonBuffer))
      ensures jsonBufferSize == old(jsonBufferSize) || (v.StringValue? && jsonBufferMax == UNBOUNDED)
      ensures r == ReadBack(jsonBufferMax, old(jsonBuffer[..]), v)
    {
      match v {
        case StringValue(s) =>
          var calls;
          r, calls := ReadString(s);
        case SequenceValue(es) =>
          r := received.GetContiguousBuffer(es);
        case ArrayValue(es) =>
          r := ReadArray(es);
      }
    }
  }

  // ----- the buffer over a run -------------------------------------------------------------------

  function SizeAfterRun(max: nat, initial: nat, xs: seq<Sample>): nat {
    if xs == [] then initial
    else SizeAfter(max, SizeAfterRun(max, initial, xs[..|xs| - 1]), xs[|xs| - 1])
  }

  /** `n` is the largest of `initial` and the sizes the formatted samples needed. */
  ghost predicate IsLargest(initial: nat, xs: seq<Sample>, n: nat) {
    && initial <= n
    && (forall i :: 0 <= i < |xs| && !xs[i].fails ==> Needed(xs[i]) <= n)
    && (n == initial || exists i :: 0 <= i < |xs| && !xs[i].fails && Needed(xs[i]) == n)
  }

  /** Over any run the buffer of an unbounded member has the largest size needed so far; that
      of a bounded member never changes. */
  lemma {:induction false} RunBufferSize(max: nat, initial: nat, xs: seq<Sample>)
    ensures max == UNBOUNDED ==> IsLargest(initial, xs, SizeAfterRun(max, initial, xs))
    ensures max != UNBOUNDED ==> SizeAfterRun(max, initial, xs) == initial
  {
    if xs != [] {
      var n := |xs| - 1;
      RunBufferSize(max, initial, xs[..n]);
      var before := SizeAfterRun(max, initial, xs[..n]);
      if max == UNBOUNDED {
        assert forall i :: 0 <= i < n ==> xs[..n][i] == xs[i];
        if !xs[n].fails && Needed(xs[n]) > before {
          assert Needed(xs[n]) == SizeAfterRun(max, initial, xs);
        } else if before != initial {
          var i :| 0 <= i < n && !xs[..n][i].fails && Needed(xs[..n][i]) == before;
          assert Needed(xs[i]) == before;
        }
      }
    }
  }

  // ----- from serializer to deserializer ------------------------------------------------------------

  /** The buffer is the one for the member; if the member is unbounded, the text is one the type
      system can describe. */
  predicate Suits(t: MemberType, size: nat, x: Sample) {
    && !t.OtherMember?
    && if MemberLength(t) != UNBOUNDED then size == MemberLength(t) else !t.ArrayMember? && |x.text| < UNBOUNDED
  }

  /** The library refuses a sample that was formatted. */
  predicate Refused(t: MemberType, x: Sample) {
    !x.fails && |x.text| < MemberLength(t) && x.setFails
  }

  /** A member takes exactly the texts that leave room for the terminator, and the loan remains
      only when the library refuses such a text for a sequence. */
  lemma SendableExactly(t: MemberType, size: nat, x: Sample)
    requires Suits(t, size, x)
    ensures Sendable(t, size, x) <==> !x.fails && !x.setFails && |x.text| < MemberLength(t)
    ensures LeavesLoan(t, size, x) <==> t.SequenceMember? && Refused(t, x)
  {
  }

  /** A serializer and a deserializer for the same member, with buffers of their own. */
  ghost predicate Connected(s: Serializer, d: Deserializer)
    reads s, d
  {
    s.Valid() && d.Valid() && s.member == d.member && s.jsonBuffer != d.jsonBuffer && s.loan != d.received
  }

  /** What the reader hands to the parser for a sample that was sent. */
  function Arrived(t: MemberType, indent: nat, readerSize: nat, x: Sample): Result<string> {
    var text := Emitted(indent, x.text);
    if ComesBack(t, text, Reported(x), readerSize) then Ok(text) else Err
  }

  /** Serializer to deserializer: a sample is sent exactly when it is `Sendable` and no earlier
      loan remains, and then the reader of the same member gets the emitted text, exactly when it
      comes back. */
  method SendAndReceive(s: Serializer, d: Deserializer, x: Sample) returns (sent: bool, r: Result<string>)
    requires Connected(s, d) && WellFormed(x)
    modifies s`jsonBuffer, s`jsonBufferSize, s.jsonBuffer, s.loan
    modifies d`jsonBuffer, d`jsonBufferSize, d.jsonBuffer, d.received
    ensures Connected(s, d)
    ensures s.jsonBuffer == old(s.jsonBuffer) || fresh(s.jsonBuffer)
    ensures d.jsonBuffer == old(d.jsonBuffer) || fresh(d.jsonBuffer)
    ensures s.jsonBufferSize == SizeAfter(s.jsonBufferMax, old(s.jsonBufferSize), x)
    ensures d.jsonBufferSize == old(d.jsonBufferSize) || (d.member.StringMember? && d.jsonBufferMax == UNBOUNDED)
    ensures s.loan.loaned <==> old(s.loan.loaned) || LeavesLoan(s.member, old(s.jsonBufferSize), x)
    ensures sent <==> Sendable(s.member, old(s.jsonBufferSize), x) && !(s.member.SequenceMember? && old(s.loan.loaned))
    ensures r == if sent then Arrived(s.member, s.indent, old(d.jsonBufferSize), x) else Err
  {
    var v, size := s.Serialize(x);
    r, sent := Err, v.Ok?;
    if sent {
      EmittedKeepsNul(s.indent, x.text);
      WrittenTextIsReadBack(s.member, s.jsonBuffer[..], s.jsonBufferSize, size, d.jsonBuffer[..]);
      r := d.Deserialize(v.value);
    }
  }

  // ----- whole runs ------------------------------------------------------------------------------------

  function LoanAfterRun(t: MemberType, initial: nat, xs: seq<Sample>): bool {
    if xs == [] then false
    else
      var n := |xs| - 1;
      || LoanAfterRun(t, initial, xs[..n])
      || LeavesLoan(t, SizeAfterRun(MemberLength(t), initial, xs[..n]), xs[n])
  }

  /** Sample `k` of a run reaches the member. */
  predicate Sent(t: MemberType, initial: nat, xs: seq<Sample>, k: nat)
    requires k < |xs|
  {
    && Sendable(t, SizeAfterRun(MemberLength(t), initial, xs[..k]), xs[k])
    && !LoanAfterRun(t, initial, xs[..k])
  }

  lemma {:induction false} LoanOfSequenceOnly(t: MemberType, initial: nat, xs: seq<Sample>)
    ensures LoanAfterRun(t, initial, xs) ==> t.SequenceMember?
  {
    if xs != [] {
      LoanOfSequenceOnly(t, initial, xs[..|xs| - 1]);
    }
  }

  /** Growing the buffer of an unbounded string changes nothing about what comes back. */
  lemma ReaderSizeImmaterial(t: MemberType, indent: nat, size: nat, size': nat, x: Sample)
    requires size == size' || (t.StringMember? && MemberLength(t) == UNBOUNDED)
    ensures Arrived(t, indent, size, x) == Arrived(t, indent, size', x)
  {
  }

  /** For each sample sent, what arrives; for every other, an error. */
  ghost predicate Delivered(t: MemberType, indent: nat, initial: nat, readerSize: nat, xs: seq<Sample>,
                            rs: seq<Result<string>>)
  {
    |rs| == |xs| &&
    forall k :: 0 <= k < |xs| ==>
      rs[k] == if Sent(t, initial, xs, k) then Arrived(t, indent, readerSize, xs[k]) else Err
  }

  lemma DeliveredNext(t: MemberType, indent: nat, initial: nat, readerSize: nat, xs: seq<Sample>,
                      rs: seq<Result<string>>, x: Sample, r: Result<string>)
    requires Delivered(t, indent, initial, readerSize, xs, rs)
    requires r == if Sent(t, initial, xs + [x], |xs|) then Arrived(t, indent, readerSize, x) else Err
    ensures Delivered(t, indent, initial, readerSize, xs + [x], rs + [r])
  {
    forall k | 0 <= k < |xs| ensures Sent(t, initial, xs + [x], k) <==> Sent(t, initial, xs, k) {
      assert (xs + [x])[..k] == xs[..k];
    }
  }

  /** Where a run stands: the size of the writer's buffer, its loan, and what has arrived. */
  ghost predicate RunAt(t: MemberType, indent: nat, initial: nat, readerSize: nat, xs: seq<Sample>,
                        size: nat, loan: bool, rs: seq<Result<string>>)
  {
    && size == SizeAfterRun(MemberLength(t), initial, xs)
    && (loan <==> LoanAfterRun(t, initial, xs))
    && Delivered(t, indent, initial, readerSize, xs, rs)
  }

  lemma RunNext(t: MemberType, indent: nat, initial: nat, readerSize: nat, xs: seq<Sample>, size: nat, loan: bool,
                rs: seq<Result<string>>, x: Sample, r: Result<string>)
    requires RunAt(t, indent, initial, readerSize, xs, size, loan, rs)
    requires r == if Sendable(t, size, x) && !(t.SequenceMember? && loan) then Arrived(t, indent, readerSize, x)
                  else Err
    ensures RunAt(t, indent, initial, readerSize, xs + [x], SizeAfter(MemberLength(t), size, x),
                  loan || LeavesLoan(t, size, x), rs + [r])
  {
    assert (xs + [x])[..|xs|] == xs;
    LoanOfSequenceOnly(t, initial, xs);
    DeliveredNext(t, indent, initial, readerSize, xs, rs, x, r);
  }

  /** Any number of samples through the same pair: which are sent, what arrives for each, the
      size of the buffer, and whether the loan remains. */
  method SendAll(s: Serializer, d: Deserializer, xs: seq<Sample>) returns (rs: seq<Result<string>>)
    requires Connected(s, d) && !s.loan.loaned && forall k :: 0 <= k < |xs| ==> WellFormed(xs[k])
    modifies s`jsonBuffer, s`jsonBufferSize, s.jsonBuffer, s.loan
    modifies d`jsonBuffer, d`jsonBufferSize, d.jsonBuffer, d.received
    ensures Connected(s, d)
    ensures s.jsonBufferSize == SizeAfterRun(s.jsonBufferMax, old(s.jsonBufferSize), xs)
    ensures s.loan.loaned <==> LoanAfterRun(s.member, old(s.jsonBufferSize), xs)
    ensures Delivered(s.member, s.indent, old(s.jsonBufferSize), old(d.jsonBufferSize), xs, rs)
  {
    rs := [];
    ghost var t, initial, readerSize := s.member, s.jsonBufferSize, d.jsonBufferSize;
    for i := 0 to |xs|
      invariant Connected(s, d)
      invariant s.jsonBuffer == old(s.jsonBuffer) || fresh(s.jsonBuffer)
      invariant d.jsonBuffer == old(d.jsonBuffer) || fresh(d.jsonBuffer)
      invariant d.jsonBufferSize == readerSize || (t.StringMember? && MemberLength(t) == UNBOUNDED)
      invariant RunAt(t, s.indent, initial, readerSize, xs[..i], s.jsonBufferSize, s.loan.loaned, rs)
    {
      ghost var size, loan := s.jsonBufferSize, s.loan.loaned;
      ReaderSizeImmaterial(t, s.indent, d.jsonBufferSize, readerSize, xs[i]);
      var sent, r := SendAndReceive(s, d, xs[i]);
      RunNext(t, s.indent, initial, readerSize, xs[..i], size, loan, rs, xs[i], r);
      assert xs[..i + 1] == xs[..i] + [xs[i]];
      rs := rs + [r];
    }
    assert xs[..|xs|] == xs;
  }

  ghost predicate AllSuit(t: MemberType, initial: nat, xs: seq<Sample>) {
    forall k :: 0 <= k < |xs| ==> Suits(t, initial, xs[k])
  }

  lemma SuitsLater(t: MemberType, initial: nat, xs: seq<Sample>, k: nat)
    requires AllSuit(t, initial, xs) && k < |xs|
    ensures Suits(t, SizeAfterRun(MemberLength(t), initial, xs[..k]), xs[k])
  {
    RunBufferSize(MemberLength(t), initial, xs[..k]);
  }

  lemma {:induction false} LoanLeftByRefusal(t: MemberType, initial: nat, xs: seq<Sample>)
    requires AllSuit(t, initial, xs)
    ensures LoanAfterRun(t, initial, xs) <==> t.SequenceMember? && exists i :: 0 <= i < |xs| && Refused(t, xs[i])
  {
    if xs != [] {
      var n := |xs| - 1;
      assert forall i :: 0 <= i < n ==> xs[..n][i] == xs[i];
      LoanLeftByRefusal(t, initial, xs[..n]);
      SuitsLater(t, initial, xs, n);
      SendableExactly(t, SizeAfterRun(MemberLength(t), initial, xs[..n]), xs[n]);
    }
  }

  /** Over any run exactly those samples are sent whose text leaves room for the terminator and
      which neither formatter nor library refuses; a sequence member passes nothing more after
      the first refusal.  What was sent arrives, except an empty text without terminator in a
      sequence. */
  lemma RunDelivers(t: MemberType, indent: nat, initial: nat, readerSize: nat, xs: seq<Sample>, k: nat)
    requires AllSuit(t, initial, xs) && k < |xs|
    requires MemberLength(t) != UNBOUNDED && !t.SequenceMember? ==> readerSize == MemberLength(t)
    ensures Sent(t, initial, xs, k) <==>
            && !xs[k].fails && !xs[k].setFails && |xs[k].text| < MemberLength(t)
            && (t.SequenceMember? ==> forall i :: 0 <= i < k ==> !Refused(t, xs[i]))
    ensures Sent(t, initial, xs, k) ==>
              Arrived(t, indent, readerSize, xs[k]) ==
              if t.SequenceMember? && xs[k].text == [] && !xs[k].countsTerminator then Err
              else Ok(Emitted(indent, xs[k].text))
  {
    SuitsLater(t, initial, xs, k);
    SendableExactly(t, SizeAfterRun(MemberLength(t), initial, xs[..k]), xs[k]);
    LoanLeftByRefusal(t, initial, xs[..k]);
    assert forall i :: 0 <= i < k ==> xs[..k][i] == xs[i];
  }

  /** Two samples, the first refused by the library: the second would pass alone, but does not
      pass after it. */
  lemma RefusedSetStopsMember(bound: nat)
    requires 2 <= bound != UNBOUNDED
    ensures var refused, good := Sample("1", false, true, true), Sample("1", false, true, false);
            var t := SequenceMember(bound);
            && Sent(t, bound, [good], 0)
            && LoanAfterRun(t, bound, [refused]) && !Sent(t, bound, [refused, good], 1)
  {
    var refused, good := Sample("1", false, true, true), Sample("1", false, true, false);
    var t := SequenceMember(bound);
    RunDelivers(t, 0, bound, 0, [good], 0);
    LoanLeftByRefusal(t, bound, [refused]);
    assert Refused(t, [refused][0]) && Refused(t, [refused, good][0]);
    RunDelivers(t, 0, bound, 0, [refused, good], 1);
  }

  /** The emitted text has the tokens of the formatted one exactly when newlines are not
      rewritten or no string literal holds a raw one. */
  lemma EmittedTokens(indent: nat, text: string)
    ensures Tokens(Emitted(indent, text)) == Tokens(text) <==> indent != 0 || NoNewlineInStrings(text)
  {
    RewritingKeepsTokens(text);
  }
}
