/**
  `ModbusStreamWriter::write`: every valid sample is walked once per configured
  element, the slave id is switched only when it differs from the connection's
  current one, and a failure concerns a single field.
 */
module ModbusStreamWriter {
  import opened Wrappers
  import opened Subsequences
  import opened ModbusCodec
  import opened ModbusRoundTrip
  import opened ModbusLayout

  datatype Sample = Sample(valid: bool, fields: map<string, seq<real>>)

  datatype Payload =
    | Registers(address: int, words: seq<Register>)
    | Coils(address: int, bits: seq<int>)

  /** A request as the device sees it: `slave` is what the connection was set to. */
  datatype Transfer = Transfer(slave: int, payload: Payload)

  /** Which operations on the connection throw, per sample and element. */
  datatype Faults = Faults(
    getSlave: (nat, nat) -> bool,
    setSlave: (nat, nat) -> bool,
    send: (nat, nat) -> bool)

  function CoilBits(xs: seq<real>, count: nat): (bits: seq<int>)
    requires |xs| <= count
    ensures |bits| == count
  {
    seq(count, i requires 0 <= i < count => if i < |xs| then Trunc(xs[i]) % 256 else 0)
  }

  /** The element is one a writer accepts, and the field's vector fits its block. */
  predicate FieldFits(e: Element, s: Sample) {
    && RegistersPer(e.dataType).Ok?
    && (e.field in s.fields ==>
          Start(RegistersPer(e.dataType).value, |s.fields[e.field]|) <= e.registerCount)
  }

  predicate SampleFits(config: seq<Element>, s: Sample) {
    forall j :: 0 <= j < |config| ==> FieldFits(config[j], s)
  }

  predicate AllFit(config: seq<Element>, samples: seq<Sample>) {
    forall i :: 0 <= i < |samples| ==> SampleFits(config, samples[i])
  }

  /** What the parse and the consistency check leave to the sample: a scalar or an array fills its
      block, and a field fits exactly unless it is a sequence longer than the configured array. */
  lemma CheckedFieldFits(e: Element, f: FieldType, count: int, s: Sample)
    requires e.dataType != ConstantValue && 0 <= count < 0x8000_0000
    requires ParsedShape(e.dataType, count) == Ok(Shape(e.registerCount, e.arrayElements))
    requires SizesConsistent(Shape(e.registerCount, e.arrayElements), f)
    requires e.field in s.fields ==> Supplies(f, |s.fields[e.field]|)
    ensures FieldFits(e, s) <==>
            (e.field in s.fields && f.SequenceField? ==> |s.fields[e.field]| <= e.arrayElements)
    ensures e.field in s.fields && !f.SequenceField? ==>
            RegistersPer(e.dataType).Ok? &&
            Start(RegistersPer(e.dataType).value, |s.fields[e.field]|) == e.registerCount
  {
    ParsedShapeWhole(e.dataType, count);
    if e.field in s.fields {
      ConsistentSizesFit(e.dataType, Shape(e.registerCount, e.arrayElements), f, |s.fields[e.field]|);
    }
  }

  /** What should reach the device for one field: nothing when the field is unset or one
      of its values is rejected. */
  function Block(p: Platform, e: Element, s: Sample): Option<Payload>
    requires FieldFits(e, s)
  {
    if e.field !in s.fields then None
    else
      var xs := s.fields[e.field];
      if e.dataType == CoilBoolean then Some(Coils(e.address, CoilBits(xs, e.registerCount)))
      else
        match EncodeAll(p, e, xs)
        case Err => None
        case Ok(ws) => Some(Registers(e.address, ws + Zeros(e.registerCount - |ws|)))
  }

  // ----- the specification of a run, connection state included ----------------------

  datatype Link = Link(slave: int, log: seq<Transfer>)

  function AfterField(p: Platform, f: Faults, i: nat, j: nat, e: Element, s: Sample, l: Link): Link
    requires FieldFits(e, s)
  {
    var switching := e.dataType != ConstantValue && l.slave != e.slaveId;
    if f.getSlave(i, j) || (switching && f.setSlave(i, j)) then l
    else
      var l1 := if switching then l.(slave := e.slaveId) else l;
      match Block(p, e, s)
      case None => l1
      case Some(b) =>
        if f.send(i, j) then l1 else l1.(log := l1.log + [Transfer(l1.slave, b)])
  }

  function AfterFields(p: Platform, f: Faults, i: nat, config: seq<Element>, s: Sample, l: Link): Link
    requires SampleFits(config, s)
  {
    if config == [] then l
    else
      var n := |config| - 1;
      AfterField(p, f, i, n, config[n], s, AfterFields(p, f, i, config[..n], s, l))
  }

  function AfterSamples(p: Platform, f: Faults, config: seq<Element>, samples: seq<Sample>, l: Link): Link
    requires AllFit(config, samples)
  {
    if samples == [] then l
    else
      var n := |samples| - 1;
      var l1 := AfterSamples(p, f, config, samples[..n], l);
      if samples[n].valid then AfterFields(p, f, n, config, samples[n], l1) else l1
  }

  class StreamWriter {
    const config: seq<Element>
    var slaveId: int              // the connection's current slave
    var log: seq<Transfer>        // everything sent, in order

    constructor (config: seq<Element>, slaveId: int)
      ensures this.config == config && this.slaveId == slaveId && log == []
    {
      this.config := config;
      this.slaveId := slaveId;
      log := [];
    }

    function Current(): Link
      reads this
    {
      Link(slaveId, log)
    }

    method WriteField(p: Platform, f: Faults, i: nat, j: nat, e: Element, s: Sample)
      requires FieldFits(e, s)
      modifies this
      ensures Current() == AfterField(p, f, i, j, e, s, old(Current()))
    {
      if f.getSlave(i, j) {
        return;
      }
      if e.dataType != ConstantValue && slaveId != e.slaveId {
        if f.setSlave(i, j) {
          return;
        }
        slaveId := e.slaveId;
      }
      if e.field !in s.fields {
        return;
      }
      var xs := s.fields[e.field];
      if e.dataType == CoilBoolean {
        if !f.send(i, j) {
          log := log + [Transfer(slaveId, Coils(e.address, CoilBits(xs, e.registerCount)))];
        }
      } else {
        var registers := new Register[e.registerCount](_ => 0);
        var ok := GetRegistersValue(p, e, registers, xs);
        if ok && !f.send(i, j) {
          var ws := EncodeAll(p, e, xs).value;
          assert registers[..] == ws + Zeros(e.registerCount - |ws|);
          log := log + [Transfer(slaveId, Registers(e.address, registers[..]))];
        }
      }
    }

    method Write(p: Platform, f: Faults, samples: seq<Sample>)
      requires AllFit(config, samples)
      modifies this
      ensures Current() == AfterSamples(p, f, config, samples, old(Current()))
    {
      for i := 0 to |samples|
        invariant Current() == AfterSamples(p, f, config, samples[..i], old(Current()))
      {
        assert samples[..i + 1][..i] == samples[..i];
        if samples[i].valid {
          ghost var before := Current();
          for j := 0 to |config|
            invariant Current() == AfterFields(p, f, i, config[..j], samples[i], before)
          {
            assert config[..j + 1][..j] == config[..j];
            WriteField(p, f, i, j, config[j], samples[i]);
          }
          assert config[..|config|] == config;
        }
      }
      assert samples[..|samples|] == samples;
    }
  }

  // ----- what a run sends --------------------------------------------------------------

  /** A field sends its own block to its own slave or nothing at all, and it sends the
      block whenever there is one and no operation on the connection fails. */
  lemma FieldSendsItsBlock(p: Platform, f: Faults, i: nat, j: nat, e: Element, s: Sample, l: Link)
    requires FieldFits(e, s)
    ensures var b, l' := Block(p, e, s), AfterField(p, f, i, j, e, s, l);
            && (l'.log == l.log || (b.Some? && l'.log == l.log + [Transfer(e.slaveId, b.value)]))
            && (b.Some? && !f.getSlave(i, j) && !f.setSlave(i, j) && !f.send(i, j) ==>
                  l'.log == l.log + [Transfer(e.slaveId, b.value)])
  {
  }

  /** A field is suppressed exactly when it is unset, or one of its values falls outside
      the configured range or list, or (never after the consistency check) its data type
      is not a holding register. */
  lemma BlockSuppressed(p: Platform, e: Element, s: Sample)
    requires FieldFits(e, s)
    ensures Block(p, e, s) == None <==>
            || e.field !in s.fields
            || (e.dataType != CoilBoolean && !AllWritable(e, s.fields[e.field]))
  {
    if e.field in s.fields && e.dataType != CoilBoolean {
      var xs := s.fields[e.field];
      EncodeAllExactly(p, e, xs);
    }
  }

  function FieldTransfers(p: Platform, e: Element, s: Sample): seq<Transfer>
    requires FieldFits(e, s)
  {
    match Block(p, e, s)
    case None => []
    case Some(b) => [Transfer(e.slaveId, b)]
  }

  /** The blocks of one sample, element by element, without any connection state. */
  function SampleTransfers(p: Platform, config: seq<Element>, s: Sample): seq<Transfer>
    requires SampleFits(config, s)
  {
    FlatMap(e => if FieldFits(e, s) then FieldTransfers(p, e, s) else [], config)
  }

  function Transfers(p: Platform, config: seq<Element>, samples: seq<Sample>): seq<Transfer>
    requires AllFit(config, samples)
  {
    if samples == [] then []
    else
      var n := |samples| - 1;
      Transfers(p, config, samples[..n]) +
      if samples[n].valid then SampleTransfers(p, config, samples[n]) else []
  }

  ghost predicate NoFaults(f: Faults) {
    forall i, j :: !f.getSlave(i, j) && !f.setSlave(i, j) && !f.send(i, j)
  }

  /** Skipping the switch when the slave id is already right is invisible: whatever the
      connection was set to before, exactly the declared transfers are sent. */
  lemma {:induction false} RunSendsTransfers(p: Platform, f: Faults, config: seq<Element>,
                                             samples: seq<Sample>, l: Link)
    requires AllFit(config, samples) && NoFaults(f)
    ensures AfterSamples(p, f, config, samples, l).log == l.log + Transfers(p, config, samples)
  {
    if samples != [] {
      var n := |samples| - 1;
      RunSendsTransfers(p, f, config, samples[..n], l);
      if samples[n].valid {
        FieldsSendTransfers(p, f, n, config, samples[n], AfterSamples(p, f, config, samples[..n], l));
        ConcatAssociative(l.log, Transfers(p, config, samples[..n]), SampleTransfers(p, config, samples[n]));
      }
    }
  }

  lemma {:induction false} FieldsSendTransfers(p: Platform, f: Faults, i: nat, config: seq<Element>, s: Sample, l: Link)
    requires SampleFits(config, s) && NoFaults(f)
    ensures AfterFields(p, f, i, config, s, l).log == l.log + SampleTransfers(p, config, s)
  {
    if config != [] {
      var n := |config| - 1;
      FieldsSendTransfers(p, f, i, config[..n], s, l);
      FieldSendsItsBlock(p, f, i, n, config[n], s, AfterFields(p, f, i, config[..n], s, l));
      ConcatAssociative(l.log, SampleTransfers(p, config[..n], s), FieldTransfers(p, config[n], s));
    }
  }

  /** A suppressed field leaves the transfers of every other field as they are. */
  lemma SuppressedFieldAlone(p: Platform, config: seq<Element>, s: Sample, j: nat)
    requires SampleFits(config, s) && j < |config| && Block(p, config[j], s) == None
    ensures SampleFits(config[..j] + config[j + 1..], s)
    ensures SampleTransfers(p, config, s) == SampleTransfers(p, config[..j] + config[j + 1..], s)
  {
    FlatMapSkips(e => if FieldFits(e, s) then FieldTransfers(p, e, s) else [], config, j);
  }

  /** Whatever fails, a run sends a subsequence of the declared transfers: each is the
      block of one field of one valid sample, addressed to that field's slave. */
  lemma {:induction false} RunSendsOnlyBlocks(p: Platform, f: Faults, config: seq<Element>,
                                              samples: seq<Sample>, l: Link)
    returns (sent: seq<Transfer>)
    requires AllFit(config, samples)
    ensures AfterSamples(p, f, config, samples, l).log == l.log + sent
    ensures IsSubsequence(sent, Transfers(p, config, samples))
  {
    sent := [];
    if samples != [] {
      var n := |samples| - 1;
      var front := RunSendsOnlyBlocks(p, f, config, samples[..n], l);
      sent := front;
      if samples[n].valid {
        var more := FieldsSendOnlyBlocks(p, f, n, config, samples[n], AfterSamples(p, f, config, samples[..n], l));
        SubsequenceConcat(front, Transfers(p, config, samples[..n]), more, SampleTransfers(p, config, samples[n]));
        ConcatAssociative(l.log, front, more);
        sent := front + more;
      } else {
        assert Transfers(p, config, samples) == Transfers(p, config, samples[..n]);
      }
    }
  }

  lemma {:induction false} FieldsSendOnlyBlocks(p: Platform, f: Faults, i: nat, config: seq<Element>,
                                                s: Sample, l: Link)
    returns (sent: seq<Transfer>)
    requires SampleFits(config, s)
    ensures AfterFields(p, f, i, config, s, l).log == l.log + sent
    ensures IsSubsequence(sent, SampleTransfers(p, config, s))
  {
    sent := [];
    if config != [] {
      var n := |config| - 1;
      var front := FieldsSendOnlyBlocks(p, f, i, config[..n], s, l);
      var l1 := AfterFields(p, f, i, config[..n], s, l);
      FieldSendsItsBlock(p, f, i, n, config[n], s, l1);
      var more := if AfterFields(p, f, i, config, s, l).log == l1.log then [] else FieldTransfers(p, config[n], s);
      SubsequenceConcat(front, SampleTransfers(p, config[..n], s), more, FieldTransfers(p, config[n], s));
      ConcatAssociative(l.log, front, more);
      sent := front + more;
    }
  }

  // ----- which transfers are sent -------------------------------------------------------------------

  /** The field of element `q.1` in valid sample `q.0` has something to send. */
  predicate SendsAt(p: Platform, config: seq<Element>, samples: seq<Sample>, q: Position)
    requires AllFit(config, samples)
  {
    q.0 < |samples| && samples[q.0].valid && q.1 < |config| && Block(p, config[q.1], samples[q.0]).Some?
  }

  function TransferAt(p: Platform, config: seq<Element>, samples: seq<Sample>, q: Position): Transfer
    requires AllFit(config, samples) && SendsAt(p, config, samples, q)
  {
    Transfer(config[q.1].slaveId, Block(p, config[q.1], samples[q.0]).value)
  }

  /** `ts` are the transfers at exactly the positions that have one, sample by sample and element
      by element. */
  ghost predicate TransfersAt(p: Platform, config: seq<Element>, samples: seq<Sample>, ps: seq<Position>,
                              ts: seq<Transfer>)
    requires AllFit(config, samples)
  {
    && Ordered(ps) && |ts| == |ps|
    && (forall q: Position :: q in ps <==> SendsAt(p, config, samples, q))
    && (forall k :: 0 <= k < |ps| ==>
          SendsAt(p, config, samples, ps[k]) && ts[k] == TransferAt(p, config, samples, ps[k]))
  }

  /** `ks` are the elements with something to send for one sample. */
  ghost predicate FieldsAt(p: Platform, config: seq<Element>, s: Sample, ks: seq<nat>, ts: seq<Transfer>)
    requires SampleFits(config, s)
  {
    && Increasing(ks) && |ts| == |ks|
    && (forall j: nat :: j in ks <==> j < |config| && Block(p, config[j], s).Some?)
    && (forall m :: 0 <= m < |ks| ==>
          ks[m] < |config| && Block(p, config[ks[m]], s).Some?
          && ts[m] == Transfer(config[ks[m]].slaveId, Block(p, config[ks[m]], s).value))
  }

  lemma SampleTransfersAt(p: Platform, config: seq<Element>, s: Sample, ts: seq<Transfer>) returns (ks: seq<nat>)
    requires SampleFits(config, s) && ts == SampleTransfers(p, config, s)
    ensures FieldsAt(p, config, s, ks, ts)
  {
    var f := e => if FieldFits(e, s) then FieldTransfers(p, e, s) else [];
    ks := FlatMapPositions(f, config, ts);
    forall m | 0 <= m < |ks|
      ensures ks[m] < |config| && Block(p, config[ks[m]], s).Some?
      ensures ts[m] == Transfer(config[ks[m]].slaveId, Block(p, config[ks[m]], s).value)
    {
      assert f(config[ks[m]]) == [ts[m]];
    }
    forall j: nat | j < |config| && Block(p, config[j], s).Some? ensures j in ks {
      assert f(config[j]) != [];
    }
  }

  /** The positions of the samples before the last are as they were. */
  lemma SameTransfer(p: Platform, config: seq<Element>, samples: seq<Sample>, samples': seq<Sample>, q: Position)
    requires AllFit(config, samples) && AllFit(config, samples') && samples <= samples' && q.0 < |samples|
    ensures SendsAt(p, config, samples', q) <==> SendsAt(p, config, samples, q)
    ensures SendsAt(p, config, samples, q) ==> TransferAt(p, config, samples', q) == TransferAt(p, config, samples, q)
  {
    assert samples'[q.0] == samples[q.0];
  }

  lemma RowTransfer(p: Platform, config: seq<Element>, samples: seq<Sample>, n: nat, ks: seq<nat>,
                    more: seq<Transfer>, j: nat)
    requires AllFit(config, samples) && n < |samples| && samples[n].valid && SampleFits(config, samples[n])
    requires FieldsAt(p, config, samples[n], ks, more)
    ensures SendsAt(p, config, samples, (n, j)) <==> j in ks
    ensures forall m :: 0 <= m < |ks| && ks[m] == j ==>
              SendsAt(p, config, samples, (n, j)) && more[m] == TransferAt(p, config, samples, (n, j))
  {
  }

  lemma TransfersRow(p: Platform, config: seq<Element>, samples: seq<Sample>, ps: seq<Position>, ts: seq<Transfer>,
                     samples': seq<Sample>, ks: seq<nat>, more: seq<Transfer>, ps': seq<Position>)
    requires AllFit(config, samples) && AllFit(config, samples') && samples <= samples'
    requires |samples'| == |samples| + 1 && samples'[|samples|].valid && SampleFits(config, samples'[|samples|])
    requires TransfersAt(p, config, samples, ps, ts)
    requires FieldsAt(p, config, samples'[|samples|], ks, more) && ps' == ps + InRow(|samples|, ks)
    ensures TransfersAt(p, config, samples', ps', ts + more)
  {
    var n := |samples|;
    OrderedRows(ps, n, ks);
    forall q: Position ensures q in ps' <==> SendsAt(p, config, samples', q) {
      if q.0 < n {
        SameTransfer(p, config, samples, samples', q);
      } else if q.0 == n {
        RowTransfer(p, config, samples', n, ks, more, q.1);
      }
    }
    forall k | 0 <= k < |ps'|
      ensures SendsAt(p, config, samples', ps'[k]) && (ts + more)[k] == TransferAt(p, config, samples', ps'[k])
    {
      TransferInRow(p, config, samples, ps, ts, samples', ks, more, k, ps'[k]);
    }
  }

  lemma TransferInRow(p: Platform, config: seq<Element>, samples: seq<Sample>, ps: seq<Position>, ts: seq<Transfer>,
                      samples': seq<Sample>, ks: seq<nat>, more: seq<Transfer>, k: nat, q: Position)
    requires AllFit(config, samples) && AllFit(config, samples') && samples <= samples'
    requires |samples'| == |samples| + 1 && samples'[|samples|].valid && SampleFits(config, samples'[|samples|])
    requires TransfersAt(p, config, samples, ps, ts) && FieldsAt(p, config, samples'[|samples|], ks, more)
    requires k < |ps| + |ks| && q == if k < |ps| then ps[k] else (|samples|, ks[k - |ps|])
    ensures SendsAt(p, config, samples', q) && (ts + more)[k] == TransferAt(p, config, samples', q)
  {
    if k < |ps| {
      SameTransfer(p, config, samples, samples', q);
    } else {
      RowTransfer(p, config, samples', |samples|, ks, more, q.1);
    }
  }

  lemma TransfersSkipped(p: Platform, config: seq<Element>, samples: seq<Sample>, ps: seq<Position>,
                         ts: seq<Transfer>, samples': seq<Sample>)
    requires AllFit(config, samples) && AllFit(config, samples') && samples <= samples'
    requires |samples'| == |samples| + 1 && !samples'[|samples|].valid && TransfersAt(p, config, samples, ps, ts)
    ensures TransfersAt(p, config, samples', ps, ts)
  {
    forall q: Position ensures q in ps <==> SendsAt(p, config, samples', q) {
      if q.0 < |samples| {
        SameTransfer(p, config, samples, samples', q);
      }
    }
    forall k | 0 <= k < |ps|
      ensures SendsAt(p, config, samples', ps[k]) && ts[k] == TransferAt(p, config, samples', ps[k])
    {
      SameTransfer(p, config, samples, samples', ps[k]);
    }
  }

  lemma {:induction false} TransferPositions(p: Platform, config: seq<Element>, samples: seq<Sample>,
                                             ts: seq<Transfer>) returns (ps: seq<Position>)
    requires AllFit(config, samples) && ts == Transfers(p, config, samples)
    ensures TransfersAt(p, config, samples, ps, ts)
    decreases |samples|
  {
    if samples == [] {
      ps := [];
    } else {
      var n := |samples| - 1;
      var before := Transfers(p, config, samples[..n]);
      ps := TransferPositions(p, config, samples[..n], before);
      if samples[n].valid {
        var more := SampleTransfers(p, config, samples[n]);
        var ks := SampleTransfersAt(p, config, samples[n], more);
        var ps' := ps + InRow(n, ks);
        TransfersRow(p, config, samples[..n], ps, before, samples, ks, more, ps');
        ps := ps';
      } else {
        assert ts == before;
        TransfersSkipped(p, config, samples[..n], ps, before, samples);
      }
    }
  }

  /** Without faults a run sends one transfer for every field of a valid sample that has something
      to send, in order, to the slave of its element, and nothing else. */
  lemma RunSendsAt(p: Platform, f: Faults, config: seq<Element>, samples: seq<Sample>, l: Link)
    returns (ps: seq<Position>, ts: seq<Transfer>)
    requires AllFit(config, samples) && NoFaults(f)
    ensures AfterSamples(p, f, config, samples, l).log == l.log + ts
    ensures TransfersAt(p, config, samples, ps, ts)
  {
    ts := Transfers(p, config, samples);
    RunSendsTransfers(p, f, config, samples, l);
    ps := TransferPositions(p, config, samples, ts);
  }

  // ----- what a block carries --------------------------------------------------------------------

  lemma BlockIsPadded(p: Platform, e: Element, s: Sample, words: seq<Register>)
    requires FieldFits(e, s) && Block(p, e, s) == Some(Registers(e.address, words))
    ensures |words| == e.registerCount && Padded(p, e, s.fields[e.field], words)
  {
  }

  /** The registers sent for a field, slot by slot: the encodings of its values, all of which passed
      the checks; behind them zeros that no check has seen. */
  lemma BlockWords(p: Platform, e: Element, s: Sample, k: nat, words: seq<Register>)
    requires FieldFits(e, s) && Block(p, e, s) == Some(Registers(e.address, words))
    requires Start(RegistersPer(e.dataType).value, k + 1) <= e.registerCount
    ensures |words| == e.registerCount
    ensures CarriesAll(p, e, s.fields[e.field], words)
    ensures var xs, step := s.fields[e.field], RegistersPer(e.dataType).value;
            && (k < |xs| ==> EncodeOne(p, e, xs[k]) == Ok(words[Start(step, k)..Start(step, k + 1)]))
            && (k >= |xs| ==> words[Start(step, k)..Start(step, k + 1)] == Zeros(step))
  {
    BlockIsPadded(p, e, s, words);
    EncodeAllTransforms(p, e, s.fields[e.field], words);
    PaddedWords(p, e, s.fields[e.field], k, words);
  }

  lemma SentBlock(p: Platform, e: Element, s: Sample) returns (words: seq<Register>)
    requires FieldFits(e, s) && e.field in s.fields && EncodeAll(p, e, s.fields[e.field]).Ok?
    requires e.dataType.HoldingInt? || e.dataType.HoldingFloat?
    ensures Block(p, e, s) == Some(Registers(e.address, words))
    ensures |words| == e.registerCount && Padded(p, e, s.fields[e.field], words)
  {
    words := Block(p, e, s).value.words;
  }

  /** End to end: the block of `n` values sent for an integer field, read back with the same
      element, yields each value rounded to single precision and zeros for the others, unless
      there are others and zero is not acceptable: then reading fails. */
  lemma SentBlockReadsBack(p: Platform, e: Element, s: Sample, kind: TypeKind, signed: bool, vs: seq<int>,
                           ys: seq<real>, n: nat) returns (words: seq<Register>)
    requires FieldFits(e, s) && e.field in s.fields && Plain(e) && IsSignedKind(kind) == Ok(signed)
    requires WritableIntegers(e, signed, vs, s.fields[e.field]) && ys == ReadBackAll(p, e.dataType.w, signed, vs)
    requires Start(RegistersPer(e.dataType).value, n) == e.registerCount
    ensures Block(p, e, s) == Some(Registers(e.address, words)) && |words| == e.registerCount && |ys| <= n
    ensures DecodeAll(p, e, kind, words, n) ==
            if |ys| == n || Acceptable(e, 0.0) then Ok(ys + Nulls(n - |ys|)) else Err
  {
    IntegersDecode(p, e, kind, signed, vs, s.fields[e.field], ys);
    words := SentValuesReadBack(p, e, s, kind, ys, n);
  }

  lemma SentValuesReadBack(p: Platform, e: Element, s: Sample, kind: TypeKind, ys: seq<real>, n: nat)
    returns (words: seq<Register>)
    requires FieldFits(e, s) && e.field in s.fields && Plain(e) && IsSignedKind(kind).Ok?
    requires EachDecodes(p, e, kind, s.fields[e.field], Oks(ys))
    requires Start(RegistersPer(e.dataType).value, n) == e.registerCount
    ensures Block(p, e, s) == Some(Registers(e.address, words)) && |words| == e.registerCount && |ys| <= n
    ensures DecodeAll(p, e, kind, words, n) == Extended(ys, ZeroRead(e), n - |ys|)
  {
    VectorReadsBack(p, e, kind, s.fields[e.field], Oks(ys));
    words := SentBlock(p, e, s);
    PaddedIntegers(p, e, kind, s.fields[e.field], ys, n, words);
  }

  /** The same for floating-point registers, where the rounded values must be acceptable too. */
  lemma SentFloatsReadBack(p: Platform, e: Element, s: Sample, kind: TypeKind, ys: seq<real>, n: nat)
    returns (words: seq<Register>)
    requires FieldFits(e, s) && e.field in s.fields && WrittenFloats(p, e, s.fields[e.field], ys)
    requires p.wordsFloat(e.dataType.order, 0, 0) == 0.0
    requires Start(RegistersPer(e.dataType).value, n) == e.registerCount
    ensures Block(p, e, s) == Some(Registers(e.address, words)) && |words| == e.registerCount && |ys| <= n
    ensures DecodeAll(p, e, kind, words, n) ==
            if (forall i :: 0 <= i < |ys| ==> Acceptable(e, ys[i])) && (|ys| == n || Acceptable(e, 0.0))
            then Ok(ys + Nulls(n - |ys|)) else Err
  {
    RoundTripFloats(p, e, kind, s.fields[e.field], ys);
    words := SentBlock(p, e, s);
    PaddedFloats(p, e, kind, s.fields[e.field], ys, n, words);
  }

  /** Two registers for values between 10 and 20, and a sequence of one value. */
  predicate ShortSequence(e: Element, s: Sample) {
    && e.dataType == HoldingInt(W16) && e.registerCount == 2 && e.arrayElements == 2
    && e.min == 10.0 && e.max == 20.0 && e.validValues == [] && Untransformed(e)
    && e.field in s.fields && s.fields[e.field] == [15.0]
  }

  lemma ShortSequencePassesCheck(e: Element, s: Sample, bound: nat)
    requires ShortSequence(e, s) && bound >= 2
    ensures ParsedShape(e.dataType, 2) == Ok(Shape(e.registerCount, e.arrayElements))
    ensures SizesConsistent(Shape(e.registerCount, e.arrayElements), SequenceField(bound))
    ensures Supplies(SequenceField(bound), |s.fields[e.field]|) && FieldFits(e, s)
  {
  }

  /** It passes parse and size check; the second register is sent as 0, outside the configured
      range, and the block cannot be read back. */
  lemma ShortSequenceSendsUncheckedZero(p: Platform, e: Element, s: Sample, bound: nat)
    returns (words: seq<Register>)
    requires ShortSequence(e, s) && bound >= 2
    ensures FieldFits(e, s) && Block(p, e, s) == Some(Registers(e.address, words)) && |words| == 2
    ensures words[1..2] == Zeros(1) && !Acceptable(e, 0.0)
    ensures DecodeAll(p, e, Int16Kind, words, 2) == Err
  {
    ShortSequencePassesCheck(e, s, bound);
    words := SentBlockReadsBack(p, e, s, Int16Kind, true, [15], ReadBackAll(p, W16, true, [15]), 2);
    BlockWords(p, e, s, 1, words);
  }

  /** A coil field fits exactly when it has no more values than there are coils. */
  lemma CoilFieldFits(e: Element, s: Sample)
    requires e.dataType == CoilBoolean
    ensures FieldFits(e, s) <==> (e.field in s.fields ==> |s.fields[e.field]| <= e.registerCount)
  {
  }

  /** The coils sent for a field: one byte per value, zeros behind the last; nothing is checked. */
  lemma BlockCoils(p: Platform, e: Element, s: Sample, k: nat, v: int) returns (bits: seq<int>)
    requires FieldFits(e, s) && e.dataType == CoilBoolean && e.field in s.fields && k < e.registerCount
    ensures Block(p, e, s) == Some(Coils(e.address, bits)) && |bits| == e.registerCount
    ensures var xs := s.fields[e.field];
            && (k < |xs| && xs[k] == v as real && 0 <= v < 256 ==> bits[k] == v)
            && (k >= |xs| ==> bits[k] == 0)
  {
    bits := Block(p, e, s).value.bits;
    assert Trunc(v as real) == v;
  }
}
