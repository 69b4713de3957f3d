/**
  The pool of output samples a transformation lends to the routing service.  `transform`
  reuses the samples of earlier batches, creates missing ones, and lends the pool out;
  `return_loan` clears what was lent; `finalize` deletes every sample.

  A sample pointer is a handle into the store of the type support, which creates and
  deletes samples; handles are never reused.  A new or cleared sample has empty content.
 */
module SamplePool {
  import opened Wrappers

  type Content = seq<bv8>
  type Handle = nat

  /** One sample of an input batch; its data may be missing. */
  datatype In = In(valid: bool, data: Option<Content>)

  /** What the user plug-in leaves in the output sample; it may have written there although
      it failed. */
  datatype Outcome = Outcome(ok: bool, content: Content)

  /** The user plug-in, from the input and what the output sample held before. */
  type Plugin = (Content, Content) -> Outcome

  /** One call of `transform`, with the failures of the library during that call. */
  datatype Batch = Batch(ins: seq<In>, growFails: bool, createFails: nat -> bool)

  datatype Pool = Pool(
    buffer: seq<Option<Handle>>,
    loaned: bool,
    store: map<Handle, Content>,     // the samples that exist
    created: nat,                    // handles below this have been created
    deleted: seq<Handle>)            // in order of deletion

  /** Outcome of a step that can fail. */
  datatype Attempt = Attempt(ok: bool, pool: Pool)

  const EMPTY_POOL := Pool([], false, map[], 0, [])

  // ----- specification --------------------------------------------------------------------

  predicate Fillable(s: Pool) {
    forall i :: 0 <= i < |s.buffer| && s.buffer[i].Some? ==> s.buffer[i].value in s.store
  }

  function Padded(buffer: seq<Option<Handle>>, n: nat): (b: seq<Option<Handle>>)
    ensures |b| == if n > |buffer| then n else |buffer|
    ensures forall i :: 0 <= i < |b| ==> b[i] == if i < |buffer| then buffer[i] else None
  {
    if n > |buffer| then buffer + seq(n - |buffer|, _ => None) else buffer
  }

  function WithPadding(s: Pool, n: nat): Pool {
    s.(buffer := Padded(s.buffer, n))
  }

  /** A new, empty sample for slot `i`. */
  function WithSample(s: Pool, i: nat): Pool
    requires i < |s.buffer|
  {
    s.(buffer := s.buffer[i := Some(s.created)], store := s.store[s.created := []], created := s.created + 1)
  }

  function WithContent(s: Pool, h: Handle, c: Content): Pool {
    s.(store := s.store[h := c])
  }

  /** Slot `i` after one valid input: the sample is created if missing, then the plug-in fills
      it; a failure leaves a created sample, and what the plug-in wrote, in the pool. */
  function Filled(plugin: Plugin, s: Pool, i: nat, data: Option<Content>, createFails: bool): (r: Attempt)
    requires i < |s.buffer| && Fillable(s)
    ensures Fillable(r.pool) && |r.pool.buffer| == |s.buffer| && r.pool.loaned == s.loaned
  {
    if s.buffer[i].None? && createFails then Attempt(false, s)
    else
      var s1 := if s.buffer[i].Some? then s else WithSample(s, i);
      var h := s1.buffer[i].value;
      if data.None? then Attempt(false, s1)
      else
        var o := plugin(data.value, s1.store[h]);
        Attempt(o.ok, WithContent(s1, h, o.content))
  }

  /** Slot `i` within a batch: nothing more happens after a failure, or for an invalid input. */
  function FilledNext(plugin: Plugin, r: Attempt, i: nat, x: In, createFails: bool): (r': Attempt)
    requires i < |r.pool.buffer| && Fillable(r.pool)
    ensures Fillable(r'.pool) && |r'.pool.buffer| == |r.pool.buffer| && r'.pool.loaned == r.pool.loaned
  {
    if r.ok && x.valid then Filled(plugin, r.pool, i, x.data, createFails) else r
  }

  /** Slots `0..n` processed in order; stops at the first failure. */
  function FilledUpTo(plugin: Plugin, s: Pool, b: Batch, n: nat): (r: Attempt)
    requires n <= |b.ins| <= |s.buffer| && Fillable(s)
    ensures Fillable(r.pool) && |r.pool.buffer| == |s.buffer| && r.pool.loaned == s.loaned
  {
    if n == 0 then Attempt(true, s)
    else FilledNext(plugin, FilledUpTo(plugin, s, b, n - 1), n - 1, b.ins[n - 1], b.createFails(n - 1))
  }

  function CountValid(ins: seq<In>): nat {
    if ins == [] then 0
    else CountValid(ins[..|ins| - 1]) + if ins[|ins| - 1].valid then 1 else 0
  }

  /** The count `transform` reports is the number of valid inputs. */
  lemma {:induction false} CountValidExactly(ins: seq<In>)
    ensures CountValid(ins) == |set i | 0 <= i < |ins| && ins[i].valid|
  {
    var all := set i | 0 <= i < |ins| && ins[i].valid;
    if ins != [] {
      var n := |ins| - 1;
      CountValidExactly(ins[..n]);
      assert all - {n} == set i | 0 <= i < |ins[..n]| && ins[..n][i].valid;
    }
  }

  function Transformed(plugin: Plugin, s: Pool, b: Batch): Attempt
    requires Fillable(s)
  {
    if s.loaned || b.growFails then Attempt(false, s)
    else
      var r := FilledUpTo(plugin, WithPadding(s, |b.ins|), b, |b.ins|);
      Attempt(r.ok, r.pool.(loaned := r.ok))
  }

  /** Clearing the first `n` slots; an empty slot is only reported. */
  function Cleared(s: Pool, n: nat): (r: Pool)
    requires n <= |s.buffer|
    ensures r.buffer == s.buffer && r.store.Keys == s.store.Keys
  {
    if n == 0 then s
    else
      var s1 := Cleared(s, n - 1);
      match s.buffer[n - 1]
      case None => s1
      case Some(h) => if h in s1.store then WithContent(s1, h, []) else s1
  }

  function Returned(s: Pool, count: nat): Pool
    requires count <= |s.buffer|
  {
    Cleared(s, count).(loaned := false)
  }

  function WithoutSample(s: Pool, i: nat): Pool
    requires i < |s.buffer|
  {
    match s.buffer[i]
    case None => s
    case Some(h) => s.(store := s.store - {h}, deleted := s.deleted + [h], buffer := s.buffer[i := None])
  }

  function DeletedUpTo(s: Pool, n: nat): (r: Pool)
    requires n <= |s.buffer|
    ensures |r.buffer| == |s.buffer| && r.buffer[n..] == s.buffer[n..] && r.created == s.created
  {
    if n == 0 then s else WithoutSample(DeletedUpTo(s, n - 1), n - 1)
  }

  function Finalized(s: Pool): Pool {
    DeletedUpTo(s, |s.buffer|).(buffer := [])
  }

  // ----- the invariant -------------------------------------------------------------------------

  predicate Distinct(buffer: seq<Option<Handle>>) {
    forall i, j :: 0 <= i < j < |buffer| && buffer[i].Some? ==> buffer[i] != buffer[j]
  }

  /** The pool lists every existing sample exactly once. */
  ghost predicate ListsSamples(s: Pool) {
    Distinct(s.buffer) && Fillable(s) && forall h :: h in s.store ==> Some(h) in s.buffer
  }

  /** Existing and deleted samples together are the created ones; none was deleted twice. */
  ghost predicate CountsSamples(s: Pool) {
    && (forall h :: h in s.store ==> h < s.created && h !in s.deleted)
    && (forall h :: 0 <= h < s.created ==> h in s.store || h in s.deleted)
    && (forall i :: 0 <= i < |s.deleted| ==> s.deleted[i] < s.created)
    && (forall i, j :: 0 <= i < j < |s.deleted| ==> s.deleted[i] != s.deleted[j])
  }

  ghost predicate Inv(s: Pool) {
    ListsSamples(s) && CountsSamples(s)
  }

  lemma WithSampleKeepsInv(s: Pool, i: nat)
    requires Inv(s) && i < |s.buffer| && s.buffer[i].None?
    ensures Inv(WithSample(s, i))
  {
    var s' := WithSample(s, i);
    assert s.created !in s.store && s.created !in s.deleted;
    assert s'.buffer[i] == Some(s.created);
    forall h | h in s.store ensures Some(h) in s'.buffer {
      var j :| 0 <= j < |s.buffer| && s.buffer[j] == Some(h);
      assert s'.buffer[j] == Some(h);
    }
    forall h | 0 <= h < s'.created ensures h in s'.store || h in s'.deleted {
      assert h == s.created || h in s.store || h in s.deleted;
    }
  }

  lemma WithContentKeepsInv(s: Pool, h: Handle, c: Content, s': Pool)
    requires Inv(s) && h in s.store && s' == WithContent(s, h, c)
    ensures Inv(s')
  {
    assert s'.store.Keys == s.store.Keys;
    forall g | g in s'.store ensures Some(g) in s'.buffer && g < s'.created && g !in s'.deleted {
      assert g in s.store;
    }
  }

  lemma FilledKeepsInv(plugin: Plugin, s: Pool, i: nat, data: Option<Content>, createFails: bool)
    requires Inv(s) && i < |s.buffer|
    ensures Inv(Filled(plugin, s, i, data, createFails).pool)
  {
    if s.buffer[i].Some? || !createFails {
      var s1 := s;
      if s.buffer[i].None? {
        WithSampleKeepsInv(s, i);
        s1 := WithSample(s, i);
      }
      if data.Some? {
        var h := s1.buffer[i].value;
        var c := plugin(data.value, s1.store[h]).content;
        WithContentKeepsInv(s1, h, c, WithContent(s1, h, c));
      }
    }
  }

  lemma FilledNextKeepsInv(plugin: Plugin, r: Attempt, i: nat, x: In, createFails: bool, r': Attempt)
    requires Inv(r.pool) && i < |r.pool.buffer| && r' == FilledNext(plugin, r, i, x, createFails)
    ensures Inv(r'.pool)
  {
    if r.ok && x.valid {
      FilledKeepsInv(plugin, r.pool, i, x.data, createFails);
    }
  }

  lemma {:induction false} FilledUpToKeepsInv(plugin: Plugin, s: Pool, b: Batch, n: nat, r: Attempt)
    requires Inv(s) && n <= |b.ins| <= |s.buffer| && r == FilledUpTo(plugin, s, b, n)
    ensures Inv(r.pool)
    decreases n
  {
    if n != 0 {
      var r0 := FilledUpTo(plugin, s, b, n - 1);
      FilledUpToKeepsInv(plugin, s, b, n - 1, r0);
      FilledNextKeepsInv(plugin, r0, n - 1, b.ins[n - 1], b.createFails(n - 1), r);
    }
  }

  lemma PaddedKeepsInv(s: Pool, n: nat)
    requires Inv(s)
    ensures Inv(WithPadding(s, n))
  {
    var b := Padded(s.buffer, n);
    forall h | h in s.store ensures Some(h) in b {
      var j :| 0 <= j < |s.buffer| && s.buffer[j] == Some(h);
      assert b[j] == Some(h);
    }
  }

  lemma TransformedKeepsInv(plugin: Plugin, s: Pool, b: Batch)
    requires Inv(s)
    ensures Inv(Transformed(plugin, s, b).pool)
  {
    if !s.loaned && !b.growFails {
      PaddedKeepsInv(s, |b.ins|);
      var s0 := WithPadding(s, |b.ins|);
      FilledUpToKeepsInv(plugin, s0, b, |b.ins|, FilledUpTo(plugin, s0, b, |b.ins|));
    }
  }

  lemma {:induction false} ClearedKeepsInv(s: Pool, n: nat, r: Pool)
    requires Inv(s) && n <= |s.buffer| && r == Cleared(s, n)
    ensures Inv(r)
    decreases n
  {
    if n != 0 {
      var r0 := Cleared(s, n - 1);
      ClearedKeepsInv(s, n - 1, r0);
      if s.buffer[n - 1].Some? {
        WithContentKeepsInv(r0, s.buffer[n - 1].value, [], r);
      }
    }
  }

  lemma WithoutSampleLists(s: Pool, i: nat)
    requires ListsSamples(s) && i < |s.buffer|
    ensures ListsSamples(WithoutSample(s, i))
  {
    if s.buffer[i].Some? {
      var s' := WithoutSample(s, i);
      forall g | g in s'.store ensures Some(g) in s'.buffer {
        assert g in s.store && Some(g) != s.buffer[i];
        var j :| 0 <= j < |s.buffer| && s.buffer[j] == Some(g);
        assert s'.buffer[j] == Some(g);
      }
    }
  }

  lemma WithoutSampleCounts(s: Pool, i: nat)
    requires CountsSamples(s) && i < |s.buffer| && (s.buffer[i].Some? ==> s.buffer[i].value in s.store)
    ensures CountsSamples(WithoutSample(s, i))
  {
    if s.buffer[i].Some? {
      var s', h := WithoutSample(s, i), s.buffer[i].value;
      forall g | 0 <= g < s'.created ensures g in s'.store || g in s'.deleted {
        assert g in s.store || g in s.deleted;
        assert s'.deleted[|s.deleted|] == h;
      }
    }
  }

  lemma WithoutSampleKeepsInv(s: Pool, i: nat, s': Pool)
    requires Inv(s) && i < |s.buffer| && s' == WithoutSample(s, i)
    ensures Inv(s')
  {
    WithoutSampleLists(s, i);
    WithoutSampleCounts(s, i);
  }

  lemma {:induction false} DeletedUpToKeepsInv(s: Pool, n: nat, r: Pool)
    requires Inv(s) && n <= |s.buffer| && r == DeletedUpTo(s, n)
    ensures Inv(r)
    decreases n
  {
    if n != 0 {
      var r0 := DeletedUpTo(s, n - 1);
      DeletedUpToKeepsInv(s, n - 1, r0);
      WithoutSampleKeepsInv(r0, n - 1, r);
    }
  }

  lemma {:induction false} DeletedSlots(s: Pool, n: nat, j: nat)
    requires j < n <= |s.buffer|
    ensures DeletedUpTo(s, n).buffer[j].None?
  {
    if j < n - 1 {
      DeletedSlots(s, n - 1, j);
    }
  }

  /** After `finalize` no sample exists: every sample ever created has been deleted. */
  lemma FinalizedKeepsInv(s: Pool)
    requires Inv(s)
    ensures Inv(Finalized(s)) && Finalized(s).store == map[]
  {
    var s1 := DeletedUpTo(s, |s.buffer|);
    DeletedUpToKeepsInv(s, |s.buffer|, s1);
    forall j | 0 <= j < |s1.buffer| ensures s1.buffer[j].None? {
      DeletedSlots(s, |s.buffer|, j);
    }
    forall h ensures h !in s1.store {
      assert h in s1.store ==> Some(h) in s1.buffer;
    }
  }

  // ----- implementation ------------------------------------------------------------------------

  lemma {:induction false} FailureStops(plugin: Plugin, s: Pool, b: Batch, k: nat, n: nat)
    requires k <= n <= |b.ins| <= |s.buffer| && Fillable(s) && !FilledUpTo(plugin, s, b, k).ok
    ensures FilledUpTo(plugin, s, b, n) == FilledUpTo(plugin, s, b, k)
  {
    if k < n {
      FailureStops(plugin, s, b, k, n - 1);
    }
  }

  class Transformation {
    const plugin: Plugin
    var readBuffer: seq<Option<Handle>>
    var readBufferLoaned: bool
    // the type support that owns the samples
    var store: map<Handle, Content>
    var created: nat
    ghost var deleted: seq<Handle>

    ghost function State(): Pool
      reads this
    {
      Pool(readBuffer, readBufferLoaned, store, created, deleted)
    }

    constructor (plugin: Plugin)
      ensures this.plugin == plugin && State() == EMPTY_POOL && Inv(State())
    {
      this.plugin := plugin;
      readBuffer := [];
      readBufferLoaned := false;
      store := map[];
      created := 0;
      deleted := [];
    }

    /** `transform`: the samples handed out are the pool's own; the count is that of the valid
        inputs. */
    method Transform(b: Batch) returns (ok: bool, count: nat)
      requires Inv(State())
      modifies this
      ensures Inv(State()) && Attempt(ok, State()) == Transformed(plugin, old(State()), b)
      ensures ok ==> count == CountValid(b.ins)
    {
      TransformedKeepsInv(plugin, State(), b);
      if readBufferLoaned {
        return false, 0;
      }
      if b.growFails {
        return false, 0;
      }
      readBuffer := Padded(readBuffer, |b.ins|);
      ok, count := FillSlots(b);
      if ok {
        readBufferLoaned := true;
      }
    }

    /** The loop over the inputs. */
    method FillSlots(b: Batch) returns (ok: bool, count: nat)
      requires Fillable(State()) && |b.ins| <= |readBuffer|
      modifies this
      ensures Attempt(ok, State()) == FilledUpTo(plugin, old(State()), b, |b.ins|)
      ensures ok ==> count == CountValid(b.ins)
    {
      count := 0;
      for i := 0 to |b.ins|
        invariant Attempt(true, State()) == FilledUpTo(plugin, old(State()), b, i)
        invariant count == CountValid(b.ins[..i])
      {
        assert b.ins[..i + 1][..i] == b.ins[..i];
        if !b.ins[i].valid {
          continue;
        }
        var filled := FillSlot(i, b.ins[i].data, b.createFails(i));
        if !filled {
          FailureStops(plugin, old(State()), b, i + 1, |b.ins|);
          return false, 0;
        }
        count := count + 1;
      }
      assert b.ins[..|b.ins|] == b.ins;
      return true, count;
    }

    method FillSlot(i: nat, data: Option<Content>, createFails: bool) returns (ok: bool)
      requires Fillable(State()) && i < |readBuffer|
      modifies this
      ensures Attempt(ok, State()) == Filled(plugin, old(State()), i, data, createFails)
    {
      if readBuffer[i].None? {
        if createFails {
          return false;
        }
        readBuffer, store, created := readBuffer[i := Some(created)], store[created := []], created + 1;
      }
      if data.None? {
        return false;
      }
      var h := readBuffer[i].value;
      var o := plugin(data.value, store[h]);
      store := store[h := o.content];
      return o.ok;
    }

    /** `return_loan`, given back the list and count that `transform` handed out. */
    method ReturnLoan(count: nat)
      requires Inv(State()) && count <= |readBuffer|
      modifies this
      ensures Inv(State()) && State() == Returned(old(State()), count)
    {
      ClearedKeepsInv(State(), count, Cleared(State(), count));
      ClearSlots(count);
      readBufferLoaned := false;
    }

    method ClearSlots(count: nat)
      requires Fillable(State()) && count <= |readBuffer|
      modifies this`store
      ensures State() == Cleared(old(State()), count)
    {
      for i := 0 to count
        invariant State() == Cleared(old(State()), i)
      {
        var slot := readBuffer[i];
        if slot.Some? {
          store := store[slot.value := []];
        }
      }
    }

    method Finalize()
      requires Inv(State())
      modifies this
      ensures Inv(State()) && State() == Finalized(old(State()))
    {
      FinalizedKeepsInv(State());
      DeleteSamples();
      readBuffer := [];
    }

    method DeleteSamples()
      modifies this
      ensures State() == DeletedUpTo(old(State()), |old(readBuffer)|)
    {
      for i := 0 to |readBuffer|
        invariant State() == DeletedUpTo(old(State()), i) && |readBuffer| == |old(readBuffer)|
      {
        var slot := readBuffer[i];
        if slot.Some? {
          store, deleted, readBuffer := store - {slot.value}, deleted + [slot.value], readBuffer[i := None];
        }
      }
    }
  }

  // ----- every run ----------------------------------------------------------------------------

  datatype Op = TransformOp(b: Batch) | ReturnOp(count: nat) | FinalizeOp

  function Step(plugin: Plugin, s: Pool, op: Op): (s': Pool)
    requires Fillable(s)
    ensures Fillable(s')
  {
    match op
    case TransformOp(b) => Transformed(plugin, s, b).pool
    case ReturnOp(n) => if n <= |s.buffer| then Returned(s, n) else s
    case FinalizeOp => Finalized(s)
  }

  lemma StepKeepsInv(plugin: Plugin, s: Pool, op: Op)
    requires Inv(s)
    ensures Inv(Step(plugin, s, op)) && s.created <= Step(plugin, s, op).created
    ensures s.deleted <= Step(plugin, s, op).deleted
  {
    match op
    case TransformOp(b) =>
      TransformedKeepsInv(plugin, s, b);
      if !s.loaned && !b.growFails {
        FilledGrows(plugin, WithPadding(s, |b.ins|), b, |b.ins|);
      }
    case ReturnOp(n) =>
      if n <= |s.buffer| {
        ClearedKeepsInv(s, n, Cleared(s, n));
        ClearedTouchesContentOnly(s, n);
      }
    case FinalizeOp =>
      FinalizedKeepsInv(s);
      DeletedGrows(s, |s.buffer|);
  }

  lemma {:induction false} FilledGrows(plugin: Plugin, s: Pool, b: Batch, n: nat)
    requires Fillable(s) && n <= |b.ins| <= |s.buffer|
    ensures var s' := FilledUpTo(plugin, s, b, n).pool;
            s.created <= s'.created && s'.deleted == s.deleted
  {
    if n != 0 {
      FilledGrows(plugin, s, b, n - 1);
    }
  }

  lemma {:induction false} ClearedTouchesContentOnly(s: Pool, n: nat)
    requires n <= |s.buffer|
    ensures Cleared(s, n).created == s.created && Cleared(s, n).deleted == s.deleted
  {
    if n != 0 {
      ClearedTouchesContentOnly(s, n - 1);
    }
  }

  lemma {:induction false} DeletedGrows(s: Pool, n: nat)
    requires n <= |s.buffer|
    ensures s.deleted <= DeletedUpTo(s, n).deleted
  {
    if n != 0 {
      DeletedGrows(s, n - 1);
    }
  }

  function After(plugin: Plugin, ops: seq<Op>): (s: Pool)
    ensures Fillable(s)
  {
    if ops == [] then EMPTY_POOL else Step(plugin, After(plugin, ops[..|ops| - 1]), ops[|ops| - 1])
  }

  /** Over every run the pool lists each existing sample once, and no sample is deleted twice. */
  lemma {:induction false} RunKeepsInv(plugin: Plugin, ops: seq<Op>, s: Pool)
    requires s == After(plugin, ops)
    ensures Inv(s)
    decreases |ops|
  {
    if ops != [] {
      var n := |ops| - 1;
      var s0 := After(plugin, ops[..n]);
      RunKeepsInv(plugin, ops[..n], s0);
      StepKeepsInv(plugin, s0, ops[n]);
    }
  }

  lemma {:induction false} OccursOnce(hs: seq<Handle>, i: nat)
    requires i < |hs| && forall a, b :: 0 <= a < b < |hs| ==> hs[a] != hs[b]
    ensures multiset(hs)[hs[i]] == 1
  {
    var n := |hs| - 1;
    assert hs == hs[..n] + [hs[n]];
    if i < n {
      OccursOnce(hs[..n], i);
    }
  }

  /** Whatever was run, finalizing leaves no sample behind, and each sample ever created has
      then been deleted exactly once. */
  lemma RunDeletesEachOnce(plugin: Plugin, ops: seq<Op>, h: Handle)
    ensures var s := Finalized(After(plugin, ops));
            && s.store == map[] && s.buffer == []
            && (h < s.created ==> multiset(s.deleted)[h] == 1)
            && (h >= s.created ==> h !in s.deleted)
  {
    var s := Finalized(After(plugin, ops));
    RunKeepsInv(plugin, ops, After(plugin, ops));
    FinalizedKeepsInv(After(plugin, ops));
    if h < s.created {
      assert h in s.store || h in s.deleted;
      var i :| 0 <= i < |s.deleted| && s.deleted[i] == h;
      OccursOnce(s.deleted, i);
    }
  }

  lemma AfterAppend(plugin: Plugin, ops: seq<Op>, op: Op)
    ensures After(plugin, ops + [op]) == Step(plugin, After(plugin, ops), op)
  {
    assert (ops + [op])[..|ops|] == ops;
  }

  lemma {:induction false} LoanKept(plugin: Plugin, ops: seq<Op>, more: seq<Op>, s: Pool)
    requires s == After(plugin, ops) && s.loaned && forall i :: 0 <= i < |more| ==> more[i].TransformOp?
    ensures After(plugin, ops + more) == s
    decreases |more|
  {
    if more == [] {
      assert ops + more == ops;
    } else {
      var n := |more| - 1;
      LoanKept(plugin, ops, more[..n], s);
      AfterAppend(plugin, ops + more[..n], more[n]);
      LoanedStep(plugin, s, more[n]);
      assert ops + more[..n] + [more[n]] == ops + more;
    }
  }

  lemma LoanedStep(plugin: Plugin, s: Pool, op: Op)
    requires Fillable(s) && s.loaned && op.TransformOp?
    ensures Step(plugin, s, op) == s
  {
  }

  /** From a successful `transform` on, further ones fail and change nothing, however many
      there are, until the loan is returned. */
  lemma LoanBlocksTransforms(plugin: Plugin, ops: seq<Op>, b: Batch, more: seq<Op>)
    requires Transformed(plugin, After(plugin, ops), b).ok
    requires forall i :: 0 <= i < |more| ==> more[i].TransformOp?
    ensures var lent := ops + [TransformOp(b)];
            && After(plugin, lent + more) == After(plugin, lent)
            && forall i :: 0 <= i < |more| ==> !Transformed(plugin, After(plugin, lent + more[..i]), more[i].b).ok
  {
    var lent := ops + [TransformOp(b)];
    AfterAppend(plugin, ops, TransformOp(b));
    var s := After(plugin, lent);
    LoanKept(plugin, lent, more, s);
    forall i | 0 <= i < |more| ensures !Transformed(plugin, After(plugin, lent + more[..i]), more[i].b).ok {
      LoanKept(plugin, lent, more[..i], s);
    }
  }

  // ----- what a batch leaves in each slot ------------------------------------------------------------

  /** The content of slot `j`; a missing sample will be created empty. */
  function Held(s: Pool, j: nat): Content
    requires Fillable(s)
  {
    if j < |s.buffer| && s.buffer[j].Some? then s.store[s.buffer[j].value] else []
  }

  predicate Present(s: Pool, j: nat) {
    j < |s.buffer| && s.buffer[j].Some?
  }

  /** The plug-in is called for input `j`, if the loop gets there. */
  predicate Attempted(s: Pool, b: Batch, j: nat)
    requires j < |b.ins|
  {
    b.ins[j].valid && b.ins[j].data.Some? && (Present(s, j) || !b.createFails(j))
  }

  function OutcomeAt(plugin: Plugin, s: Pool, b: Batch, j: nat): Outcome
    requires Fillable(s) && j < |b.ins| && Attempted(s, b, j)
  {
    plugin(b.ins[j].data.value, Held(s, j))
  }

  predicate Passes(plugin: Plugin, s: Pool, b: Batch, j: nat)
    requires Fillable(s) && j < |b.ins|
  {
    b.ins[j].valid ==> Attempted(s, b, j) && OutcomeAt(plugin, s, b, j).ok
  }

  /** The loop gets past the first `n` inputs. */
  predicate Reaches(plugin: Plugin, s: Pool, b: Batch, n: nat)
    requires Fillable(s) && n <= |b.ins|
  {
    forall i :: 0 <= i < n ==> Passes(plugin, s, b, i)
  }

  /** The plug-in writes into slot `j` during this batch. */
  predicate Writes(plugin: Plugin, s: Pool, b: Batch, j: nat)
    requires Fillable(s) && j < |b.ins|
  {
    !s.loaned && !b.growFails && Reaches(plugin, s, b, j) && Attempted(s, b, j)
  }

  predicate Succeeds(plugin: Plugin, s: Pool, b: Batch)
    requires Fillable(s)
  {
    !s.loaned && !b.growFails && Reaches(plugin, s, b, |b.ins|)
  }

  lemma ContentHeld(s: Pool, i: nat, c: Content, s': Pool, j: nat)
    requires Distinct(s.buffer) && Fillable(s) && Present(s, i) && s' == WithContent(s, s.buffer[i].value, c)
    ensures Fillable(s') && Held(s', j) == if j == i then c else Held(s, j)
  {
  }

  lemma SampleHeld(s: Pool, i: nat, s': Pool, j: nat)
    requires Inv(s) && i < |s.buffer| && s.buffer[i].None? && s' == WithSample(s, i)
    ensures Fillable(s') && Held(s', j) == Held(s, j) && (Present(s', j) <==> j == i || Present(s, j))
  {
    assert s.created !in s.store;
  }

  lemma FilledHeld(plugin: Plugin, s: Pool, i: nat, data: Option<Content>, createFails: bool, j: nat)
    requires Inv(s) && i < |s.buffer|
    ensures var r := Filled(plugin, s, i, data, createFails);
            var called := data.Some? && (Present(s, i) || !createFails);
            && (r.ok <==> called && plugin(data.value, Held(s, i)).ok)
            && (j != i ==> Held(r.pool, j) == Held(s, j) && (Present(r.pool, j) <==> Present(s, j)))
            && Held(r.pool, i) == if called then plugin(data.value, Held(s, i)).content else Held(s, i)
  {
    if Present(s, i) || !createFails {
      var s1 := s;
      if !Present(s, i) {
        WithSampleKeepsInv(s, i);
        s1 := WithSample(s, i);
        SampleHeld(s, i, s1, i);
        SampleHeld(s, i, s1, j);
      }
      if data.Some? {
        var c := plugin(data.value, Held(s1, i)).content;
        var s2 := WithContent(s1, s1.buffer[i].value, c);
        ContentHeld(s1, i, c, s2, i);
        ContentHeld(s1, i, c, s2, j);
      }
    }
  }

  /** Slot `j` once the loop is past the first `n` inputs, or has stopped before. */
  ghost predicate SlotAfter(plugin: Plugin, s: Pool, b: Batch, n: nat, r: Attempt, j: nat)
    requires Fillable(s) && Fillable(r.pool) && n <= |b.ins|
  {
    && (r.ok <==> Reaches(plugin, s, b, n))
    && (j >= n ==> (Present(r.pool, j) <==> Present(s, j)))
    && Held(r.pool, j) == if j < n && Reaches(plugin, s, b, j) && Attempted(s, b, j)
                          then OutcomeAt(plugin, s, b, j).content else Held(s, j)
  }

  lemma SlotAfterNext(plugin: Plugin, s: Pool, b: Batch, n: nat, r: Attempt, j: nat, r': Attempt)
    requires Inv(s) && Inv(r.pool) && n < |b.ins| <= |r.pool.buffer|
    requires SlotAfter(plugin, s, b, n, r, j) && SlotAfter(plugin, s, b, n, r, n)
    requires r' == FilledNext(plugin, r, n, b.ins[n], b.createFails(n))
    ensures SlotAfter(plugin, s, b, n + 1, r', j)
  {
    assert Reaches(plugin, s, b, n + 1) <==> Reaches(plugin, s, b, n) && Passes(plugin, s, b, n);
    if r.ok && b.ins[n].valid {
      FilledHeld(plugin, r.pool, n, b.ins[n].data, b.createFails(n), j);
    }
  }

  lemma {:induction false} FilledSlots(plugin: Plugin, s: Pool, b: Batch, n: nat, j: nat, r: Attempt)
    requires Inv(s) && n <= |b.ins| <= |s.buffer| && r == FilledUpTo(plugin, s, b, n)
    ensures SlotAfter(plugin, s, b, n, r, j)
    decreases n
  {
    if n != 0 {
      var r0 := FilledUpTo(plugin, s, b, n - 1);
      FilledSlots(plugin, s, b, n - 1, j, r0);
      FilledSlots(plugin, s, b, n - 1, n - 1, r0);
      FilledUpToKeepsInv(plugin, s, b, n - 1, r0);
      SlotAfterNext(plugin, s, b, n - 1, r0, j, r);
    }
  }

  /** Every batch, successful or not: it succeeds exactly when the plug-in succeeds on every
      valid input, and a slot holds what the plug-in made of its input and of what the slot
      held before if the loop got there, and its old content otherwise. */
  lemma BatchExact(plugin: Plugin, s: Pool, b: Batch, j: nat)
    requires Inv(s)
    ensures var r := Transformed(plugin, s, b);
            && Inv(r.pool)
            && (r.ok <==> Succeeds(plugin, s, b))
            && (r.pool.loaned <==> s.loaned || r.ok)
            && (r.ok ==> |b.ins| <= |r.pool.buffer|)
            && Held(r.pool, j) == if j < |b.ins| && Writes(plugin, s, b, j)
                                  then OutcomeAt(plugin, s, b, j).content else Held(s, j)
  {
    TransformedKeepsInv(plugin, s, b);
    if !s.loaned && !b.growFails {
      var s0 := WithPadding(s, |b.ins|);
      PaddedKeepsInv(s, |b.ins|);
      SameSlots(plugin, s, s0, b);
      FilledSlots(plugin, s0, b, |b.ins|, j, FilledUpTo(plugin, s0, b, |b.ins|));
    }
  }

  /** Padding changes no slot. */
  lemma SameSlots(plugin: Plugin, s: Pool, s0: Pool, b: Batch)
    requires Fillable(s) && s0 == WithPadding(s, |b.ins|) && Fillable(s0)
    ensures forall j: nat :: Held(s0, j) == Held(s, j) && (Present(s0, j) <==> Present(s, j))
    ensures forall n :: 0 <= n <= |b.ins| ==> (Reaches(plugin, s0, b, n) <==> Reaches(plugin, s, b, n))
  {
    forall i | 0 <= i < |b.ins| ensures Passes(plugin, s0, b, i) <==> Passes(plugin, s, b, i) {
      assert Held(s0, i) == Held(s, i);
    }
  }

  lemma {:induction false} CountValidBound(ins: seq<In>)
    ensures CountValid(ins) <= |ins|
    ensures CountValid(ins) == |ins| <==> forall i :: 0 <= i < |ins| ==> ins[i].valid
  {
    if ins != [] {
      var n := |ins| - 1;
      CountValidBound(ins[..n]);
      assert forall i :: 0 <= i < n ==> ins[..n][i] == ins[i];
    }
  }

  // ----- whole sessions ----------------------------------------------------------------------------

  /** What the routing service does with a batch: transform it and, if that succeeds, give the
      samples back. */
  function Round(plugin: Plugin, s: Pool, b: Batch): Pool
    requires Fillable(s)
  {
    var s' := Step(plugin, s, TransformOp(b));
    if Transformed(plugin, s, b).ok then Step(plugin, s', ReturnOp(CountValid(b.ins))) else s'
  }

  lemma {:induction false} ClearedHeld(s: Pool, n: nat, j: nat, r: Pool)
    requires Distinct(s.buffer) && Fillable(s) && n <= |s.buffer| && r == Cleared(s, n)
    ensures Fillable(r) && Held(r, j) == if j < n then [] else Held(s, j)
    decreases n
  {
    if n != 0 {
      var r0 := Cleared(s, n - 1);
      ClearedHeld(s, n - 1, j, r0);
      if Present(s, n - 1) {
        assert r == WithContent(r0, r0.buffer[n - 1].value, []);
        ContentHeld(r0, n - 1, [], r, j);
      } else {
        assert r == r0;
      }
    }
  }

  /** Every sample in the pool is as good as new, and none is lent. */
  ghost predicate Clean(s: Pool)
    requires Fillable(s)
  {
    !s.loaned && forall j: nat :: Held(s, j) == []
  }

  /** Nothing the plug-in wrote during the batch outlives it: the slots that are not given back
      to be cleared were not written, or written empty. */
  ghost predicate LeavesNothing(plugin: Plugin, s: Pool, b: Batch)
    requires Fillable(s)
  {
    forall j :: 0 <= j < |b.ins| && Writes(plugin, s, b, j) && !(Succeeds(plugin, s, b) && j < CountValid(b.ins)) ==>
      OutcomeAt(plugin, s, b, j).content == []
  }

  lemma RoundHeld(plugin: Plugin, s: Pool, b: Batch, j: nat)
    requires Inv(s) && !s.loaned
    ensures var s' := Round(plugin, s, b);
            && Inv(s') && !s'.loaned
            && Held(s', j) == if Succeeds(plugin, s, b) && j < CountValid(b.ins) then []
                              else if j < |b.ins| && Writes(plugin, s, b, j) then OutcomeAt(plugin, s, b, j).content
                              else Held(s, j)
  {
    BatchExact(plugin, s, b, j);
    CountValidBound(b.ins);
    var r := Transformed(plugin, s, b);
    if r.ok {
      ClearedKeepsInv(r.pool, CountValid(b.ins), Cleared(r.pool, CountValid(b.ins)));
      ClearedHeld(r.pool, CountValid(b.ins), j, Cleared(r.pool, CountValid(b.ins)));
    }
  }

  /** A round leaves a clean pool clean exactly when it leaves nothing. */
  lemma RoundKeepsClean(plugin: Plugin, s: Pool, b: Batch)
    requires Inv(s) && Clean(s)
    ensures Inv(Round(plugin, s, b))
    ensures Clean(Round(plugin, s, b)) <==> LeavesNothing(plugin, s, b)
  {
    var s' := Round(plugin, s, b);
    RoundHeld(plugin, s, b, 0);
    forall j: nat
      ensures Held(s', j) == if Succeeds(plugin, s, b) && j < CountValid(b.ins) then []
                             else if j < |b.ins| && Writes(plugin, s, b, j) then OutcomeAt(plugin, s, b, j).content
                             else []
    {
      RoundHeld(plugin, s, b, j);
    }
    if Clean(s') {
      forall j | 0 <= j < |b.ins| && Writes(plugin, s, b, j) && !(Succeeds(plugin, s, b) && j < CountValid(b.ins))
        ensures OutcomeAt(plugin, s, b, j).content == []
      {
        assert Held(s', j) == [];
      }
    }
  }

  ghost function AfterRounds(plugin: Plugin, bs: seq<Batch>): (s: Pool)
    ensures Inv(s) && !s.loaned
  {
    if bs == [] then EMPTY_POOL
    else
      var s, b := AfterRounds(plugin, bs[..|bs| - 1]), bs[|bs| - 1];
      RoundHeld(plugin, s, b, 0);
      Round(plugin, s, b)
  }

  ghost predicate AllLeaveNothing(plugin: Plugin, bs: seq<Batch>) {
    forall k :: 0 <= k < |bs| ==> LeavesNothing(plugin, AfterRounds(plugin, bs[..k]), bs[k])
  }

  lemma NextRound(plugin: Plugin, bs: seq<Batch>, k: nat)
    requires k < |bs|
    ensures AfterRounds(plugin, bs[..k + 1]) == Round(plugin, AfterRounds(plugin, bs[..k]), bs[k])
  {
    assert bs[..k + 1][..k] == bs[..k];
  }

  lemma {:induction false} CleanUpTo(plugin: Plugin, bs: seq<Batch>, k: nat)
    requires AllLeaveNothing(plugin, bs) && k <= |bs|
    ensures Clean(AfterRounds(plugin, bs[..k]))
  {
    if k != 0 {
      CleanUpTo(plugin, bs, k - 1);
      NextRound(plugin, bs, k - 1);
      RoundKeepsClean(plugin, AfterRounds(plugin, bs[..k - 1]), bs[k - 1]);
    }
  }

  /** The pool is clean before and after every batch of a session exactly when every batch
      leaves nothing. */
  lemma CleanRuns(plugin: Plugin, bs: seq<Batch>)
    ensures (forall k :: 0 <= k <= |bs| ==> Clean(AfterRounds(plugin, bs[..k]))) <==> AllLeaveNothing(plugin, bs)
  {
    if AllLeaveNothing(plugin, bs) {
      forall k | 0 <= k <= |bs| ensures Clean(AfterRounds(plugin, bs[..k])) {
        CleanUpTo(plugin, bs, k);
      }
    }
    if forall k :: 0 <= k <= |bs| ==> Clean(AfterRounds(plugin, bs[..k])) {
      forall k | 0 <= k < |bs| ensures LeavesNothing(plugin, AfterRounds(plugin, bs[..k]), bs[k]) {
        NextRound(plugin, bs, k);
        RoundKeepsClean(plugin, AfterRounds(plugin, bs[..k]), bs[k]);
      }
    }
  }

  /** In such a session a successful batch hands out, at the index of each valid input, what the
      plug-in makes of that input and an empty sample. */
  lemma BatchCorrect(plugin: Plugin, bs: seq<Batch>, b: Batch, j: nat)
    requires AllLeaveNothing(plugin, bs) && Transformed(plugin, AfterRounds(plugin, bs), b).ok
    requires j < |b.ins| && b.ins[j].valid
    ensures var s := Transformed(plugin, AfterRounds(plugin, bs), b).pool;
            && Fillable(s) && b.ins[j].data.Some?
            && Outcome(true, Held(s, j)) == plugin(b.ins[j].data.value, [])
    ensures CountValid(b.ins) == |b.ins| <==> forall i :: 0 <= i < |b.ins| ==> b.ins[i].valid
  {
    var s := AfterRounds(plugin, bs);
    assert bs[..|bs|] == bs;
    CleanUpTo(plugin, bs, |bs|);
    BatchExact(plugin, s, b, j);
    assert Passes(plugin, s, b, j) && Held(s, j) == [];
    CountValidBound(b.ins);
  }

  /** With a plug-in that ignores what the sample held, the same is true of every successful batch
      after any run whatsoever, failed batches and `finalize` included. */
  lemma OverwritingBatchCorrect(plugin: Plugin, ops: seq<Op>, b: Batch, j: nat)
    requires forall d, c :: plugin(d, c) == plugin(d, [])
    requires Transformed(plugin, After(plugin, ops), b).ok && j < |b.ins| && b.ins[j].valid
    ensures var s := Transformed(plugin, After(plugin, ops), b).pool;
            && Fillable(s) && b.ins[j].data.Some?
            && Outcome(true, Held(s, j)) == plugin(b.ins[j].data.value, [])
  {
    var s := After(plugin, ops);
    RunKeepsInv(plugin, ops, s);
    BatchExact(plugin, s, b, j);
    assert Passes(plugin, s, b, j);
  }

  // ----- which batches leave nothing ------------------------------------------------------------------

  /** The valid inputs come before the invalid ones. */
  predicate ValidFirst(ins: seq<In>) {
    forall i, j :: 0 <= i < j < |ins| && ins[j].valid ==> ins[i].valid
  }

  /** All valid inputs among the first `c`: there are at most `c`, and `c` only if all are. */
  lemma {:induction false} ValidWithin(ins: seq<In>, c: nat)
    requires c <= |ins| && forall j :: c <= j < |ins| ==> !ins[j].valid
    ensures CountValid(ins) <= c
    ensures CountValid(ins) == c <==> forall i :: 0 <= i < c ==> ins[i].valid
  {
    if c == |ins| {
      CountValidBound(ins);
    } else {
      var n := |ins| - 1;
      assert forall i :: 0 <= i < n ==> ins[..n][i] == ins[i];
      ValidWithin(ins[..n], c);
    }
  }

  /** More valid inputs at the front than are counted: impossible. */
  lemma {:induction false} TooManyValid(ins: seq<In>, k: nat)
    requires k < |ins| && forall i :: 0 <= i <= k ==> ins[i].valid
    ensures CountValid(ins) > k
  {
    var n := |ins| - 1;
    if k < n {
      assert forall i :: 0 <= i < n ==> ins[..n][i] == ins[i];
      TooManyValid(ins[..n], k);
    } else {
      CountValidBound(ins);
    }
  }

  /** As many valid inputs at the front as are counted: there are no others. */
  lemma {:induction false} NoneBeyond(ins: seq<In>, c: nat)
    requires c == CountValid(ins) <= |ins| && forall i :: 0 <= i < c ==> ins[i].valid
    ensures forall j :: c <= j < |ins| ==> !ins[j].valid
  {
    if c < |ins| {
      var n := |ins| - 1;
      assert forall i :: 0 <= i < n ==> ins[..n][i] == ins[i];
      if c > 0 {
        TooManyValid(ins[..n], c - 1);
      }
      NoneBeyond(ins[..n], c);
    }
  }

  lemma ValidFirstCounted(ins: seq<In>)
    requires ValidFirst(ins)
    ensures CountValid(ins) <= |ins|
    ensures forall j :: 0 <= j < |ins| ==> (ins[j].valid <==> j < CountValid(ins))
  {
    CountValidBound(ins);
    forall j | CountValid(ins) <= j < |ins| ensures !ins[j].valid {
      if ins[j].valid {
        TooManyValid(ins, j);
      }
    }
    ValidWithin(ins, CountValid(ins));
  }

  /** The routing service sees the first `CountValid` slots.  They all belong to valid inputs, and
      every valid input has its slot among them, exactly when the valid inputs come first. */
  lemma CountedSlotsAreValid(ins: seq<In>)
    ensures CountValid(ins) <= |ins|
    ensures (forall i :: 0 <= i < CountValid(ins) ==> ins[i].valid) <==> ValidFirst(ins)
    ensures (forall j :: CountValid(ins) <= j < |ins| ==> !ins[j].valid) <==> ValidFirst(ins)
  {
    CountValidBound(ins);
    if forall i :: 0 <= i < CountValid(ins) ==> ins[i].valid {
      NoneBeyond(ins, CountValid(ins));
    }
    if forall j :: CountValid(ins) <= j < |ins| ==> !ins[j].valid {
      ValidWithin(ins, CountValid(ins));
    }
    if ValidFirst(ins) {
      ValidFirstCounted(ins);
    }
  }

  /** A successful batch whose valid inputs come first leaves nothing.  With a plug-in that
      always writes something the converse holds, and a failed batch leaves nothing exactly
      when the plug-in was never called. */
  lemma LeavesNothingExactly(plugin: Plugin, s: Pool, b: Batch)
    requires Fillable(s)
    ensures Succeeds(plugin, s, b) && ValidFirst(b.ins) ==> LeavesNothing(plugin, s, b)
    ensures (forall d, c :: plugin(d, c).content != []) ==>
              (LeavesNothing(plugin, s, b) <==>
               if Succeeds(plugin, s, b) then ValidFirst(b.ins)
               else forall j :: 0 <= j < |b.ins| ==> !Writes(plugin, s, b, j))
  {
    CountedSlotsAreValid(b.ins);
    if Succeeds(plugin, s, b) {
      forall j | 0 <= j < |b.ins| ensures Writes(plugin, s, b, j) <==> b.ins[j].valid {
        assert Passes(plugin, s, b, j);
      }
    }
  }

  /** Sessions of successful batches with their valid inputs first: every output is new. */
  lemma OrderlySession(plugin: Plugin, bs: seq<Batch>)
    requires forall k :: 0 <= k < |bs| ==> ValidFirst(bs[k].ins)
    requires forall k :: 0 <= k < |bs| ==> Succeeds(plugin, AfterRounds(plugin, bs[..k]), bs[k])
    ensures AllLeaveNothing(plugin, bs)
  {
    forall k | 0 <= k < |bs| ensures LeavesNothing(plugin, AfterRounds(plugin, bs[..k]), bs[k]) {
      LeavesNothingExactly(plugin, AfterRounds(plugin, bs[..k]), bs[k]);
    }
  }

  // ----- and what happens otherwise ----------------------------------------------------------------------

  /** A plug-in that adds to what the sample holds. */
  const APPENDING: Plugin := (d, c) => Outcome(true, c + d)

  function Plain(ins: seq<In>): Batch {
    Batch(ins, false, _ => false)
  }

  function AllValid(ds: seq<Content>): Batch {
    Plain(seq(|ds|, i requires 0 <= i < |ds| => In(true, Some(ds[i]))))
  }

  lemma AppendsToOld(s: Pool, ds: seq<Content>, j: nat)
    requires Inv(s) && !s.loaned && j < |ds|
    ensures var r := Transformed(APPENDING, s, AllValid(ds));
            r.ok && Fillable(r.pool) && Held(r.pool, j) == Held(s, j) + ds[j]
  {
    var b := AllValid(ds);
    BatchExact(APPENDING, s, b, j);
    forall i | 0 <= i < |ds| ensures Passes(APPENDING, s, b, i) {
    }
  }

  lemma LeftInSlot(first: Batch, j: nat)
    requires !first.growFails && j < |first.ins| && Writes(APPENDING, EMPTY_POOL, first, j)
    requires !(Succeeds(APPENDING, EMPTY_POOL, first) && j < CountValid(first.ins))
    ensures Held(AfterRounds(APPENDING, [first]), j) == first.ins[j].data.value
  {
    assert [first][..0] == [];
    RoundHeld(APPENDING, EMPTY_POOL, first, j);
  }

  /** A batch that fails at its second input leaves what it made of the first, and the next batch
      gets to see it. */
  lemma FailedBatchLeaks(x: bv8, y: bv8)
    ensures var first := Plain([In(true, Some([x])), In(true, None)]);
            var r := Transformed(APPENDING, AfterRounds(APPENDING, [first]), AllValid([[y]]));
            r.ok && Fillable(r.pool) && Held(r.pool, 0) == [x, y]
  {
    var first := Plain([In(true, Some([x])), In(true, None)]);
    assert !Passes(APPENDING, EMPTY_POOL, first, 1);
    LeftInSlot(first, 0);
    AppendsToOld(AfterRounds(APPENDING, [first]), [[y]], 0);
  }

  /** A valid input behind an invalid one: its slot is not among those given back. */
  lemma InvalidFirstLeaks(x: bv8, y: bv8)
    ensures var first := Plain([In(false, None), In(true, Some([x]))]);
            var r := Transformed(APPENDING, AfterRounds(APPENDING, [first]), AllValid([[], [y]]));
            r.ok && Fillable(r.pool) && Held(r.pool, 1) == [x, y]
  {
    var first := Plain([In(false, None), In(true, Some([x]))]);
    var front := first.ins[..|first.ins| - 1];
    assert front[..0] == [] && !front[0].valid;
    assert CountValid(front) == CountValid(front[..0]) == 0;
    assert CountValid(first.ins) == 1;
    LeftInSlot(first, 1);
    AppendsToOld(AfterRounds(APPENDING, [first]), [[], [y]], 1);
  }
}
