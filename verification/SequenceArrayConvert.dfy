/**
  The two `convert_sample` functions, which differ only in the kind of collection they
  produce.  A sample is converted in place, member by member, into a newly created
  sample of the output type; here the sample being filled is a local value that the
  loops update.  An index beyond the capacity of a collection makes the library throw.
 */
module SequenceArrayConvert {
  import opened Wrappers
  import opened DynamicTypes
  import opened SequenceArray

  /** `convert_sample` on a struct, a union, or a collection that is itself an element. */
  method ConvertSample(dir: Direction, count: nat -> nat, tin: Ty, tout: Ty, v: Val, out: Val)
    returns (r: Result<Val>)
    requires Aligned(dir, tin, tout) && HasType(v, tin) && !tin.Prim? && out == Default(tout)
    ensures Conforms(v, tout)
    ensures r.Ok? <==> FitsIn(v, tout)
    ensures r.Ok? ==> r.value == Image(count, tout, v, false)
    decreases v, 1
  {
    AlignedConforms(dir, tin, tout, v);
    match v
    case Fields(fs) => r := ConvertFields(dir, count, tin, tout, v, out);
    case Choice(tag, body) =>
      if body.None? {
        return Ok(out);
      }
      SameCase(tin.cases, tout.cases, tag);
      var k := CaseAt(tin.cases, tag).value;
      var c := ConvertMember(dir, count, tin.cases[k].ty, tout.cases[k].ty, body.value, Default(tout.cases[k].ty));
      if c.Err? {
        return Err;
      }
      r := Ok(Choice(tag, Some(c.value)));
    case Elems(es) => r := ConvertElements(dir, count, tin, tout, v, out);
  }

  /** The first `i` fields are converted, the others as created. */
  ghost predicate FieldsDone(count: nat -> nat, t: Ty, v: Val, fields: seq<Option<Val>>, i: nat)
    requires t.Struct? && Conforms(v, t) && i <= |v.fs|
  {
    && |fields| == |v.fs|
    && (forall j :: i <= j < |v.fs| ==> fields[j] == Default(t).fs[j])
    && (forall j :: 0 <= j < i && v.fs[j].None? ==> fields[j] == None)
    && (forall j :: 0 <= j < i && v.fs[j].Some? ==>
          FitsIn(v.fs[j].value, t.members[j].ty) &&
          fields[j] == Some(Image(count, t.members[j].ty, v.fs[j].value, true)))
  }

  lemma AllFieldsDone(count: nat -> nat, t: Ty, v: Val, fields: seq<Option<Val>>)
    requires t.Struct? && Conforms(v, t) && FieldsDone(count, t, v, fields, |v.fs|)
    ensures FitsIn(v, t) && Image(count, t, v, false) == Fields(fields)
  {
    assert FitsIn(v, t);
    assert fields == Image(count, t, v, false).fs;
  }

  method ConvertFields(dir: Direction, count: nat -> nat, tin: Ty, tout: Ty, v: Val, out: Val)
    returns (r: Result<Val>)
    requires Aligned(dir, tin, tout) && HasType(v, tin) && tin.Struct? && out == Default(tout)
    requires Conforms(v, tout)
    ensures r.Ok? <==> FitsIn(v, tout)
    ensures r.Ok? ==> r.value == Image(count, tout, v, false)
    decreases v, 0
  {
    var fields := out.fs;
    for i := 0 to |v.fs|
      invariant FieldsDone(count, tout, v, fields, i)
    {
      if v.fs[i].Some? {
        // loaning an optional member that is not set creates it
        var start := if fields[i].Some? then fields[i].value else Default(tout.members[i].ty);
        var c := ConvertMember(dir, count, tin.members[i].ty, tout.members[i].ty, v.fs[i].value, start);
        if c.Err? {
          return Err;
        }
        fields := fields[i := Some(c.value)];
      }
    }
    AllFieldsDone(count, tout, v, fields);
    return Ok(Fields(fields));
  }

  /** The first `i` elements are converted, the others as created. */
  ghost predicate ElementsDone(count: nat -> nat, t: Ty, es: seq<Val>, elems: seq<Val>, i: nat, asMember: bool)
    requires IsCollection(t) && i <= |es| && forall j :: 0 <= j < |es| ==> Conforms(es[j], t.elem)
  {
    && |elems| == (if t.Arr? then t.len else i) && i <= |elems|
    && (forall j :: i <= j < |elems| ==> elems[j] == Default(t.elem))
    && (forall j :: 0 <= j < i ==> FitsIn(es[j], t.elem) && elems[j] == Image(count, t.elem, es[j], asMember))
  }

  lemma NextElementDone(count: nat -> nat, t: Ty, es: seq<Val>, elems: seq<Val>, i: nat, asMember: bool, c: Val)
    requires IsCollection(t) && i < |es| && forall j :: 0 <= j < |es| ==> Conforms(es[j], t.elem)
    requires ElementsDone(count, t, es, elems, i, asMember) && (t.Arr? ==> i < t.len)
    requires FitsIn(es[i], t.elem) && c == Image(count, t.elem, es[i], asMember)
    ensures var elems' := if i < |elems| then elems[i := c] else elems + [c];
            ElementsDone(count, t, es, elems', i + 1, asMember)
  {
  }

  lemma AllElementsDone(count: nat -> nat, t: Ty, v: Val, elems: seq<Val>, asMember: bool)
    requires IsCollection(t) && Conforms(v, t) && |v.es| <= Capacity(t) && !(asMember && t.elem.Prim?)
    requires ElementsDone(count, t, v.es, elems, |v.es|, !asMember)
    ensures FitsIn(v, t) && Image(count, t, v, asMember) == Elems(elems)
  {
    assert FitsIn(v, t);
    assert elems == Image(count, t, v, asMember).es;
  }

  /** A collection walked as a sample: its elements are treated as members. */
  method ConvertElements(dir: Direction, count: nat -> nat, tin: Ty, tout: Ty, v: Val, out: Val)
    returns (r: Result<Val>)
    requires Aligned(dir, tin, tout) && HasType(v, tin) && IsCollection(tin) && out == Default(tout)
    requires Conforms(v, tout)
    ensures r.Ok? <==> FitsIn(v, tout)
    ensures r.Ok? ==> r.value == Image(count, tout, v, false)
    decreases v, 0
  {
    var elems := out.es;
    for i := 0 to |v.es|
      invariant i <= Capacity(tout) && ElementsDone(count, tout, v.es, elems, i, true)
    {
      if i >= Capacity(tout) {
        return Err;
      }
      var start := if i < |elems| then elems[i] else Default(tout.elem);
      var c := ConvertMember(dir, count, tin.elem, tout.elem, v.es[i], start);
      if c.Err? {
        return Err;
      }
      NextElementDone(count, tout, v.es, elems, i, true, c.value);
      elems := if i < |elems| then elems[i := c.value] else elems + [c.value];
    }
    AllElementsDone(count, tout, v, elems, false);
    return Ok(Elems(elems));
  }

  /** Setting the values of a collection member: an array keeps what is not overwritten, a
      sequence takes the length of the vector. */
  function SetValues(t: Ty, current: seq<Val>, values: seq<Val>): seq<Val>
    requires IsCollection(t) && (t.Arr? ==> |values| <= |current|)
  {
    if t.Arr? then values + current[|values|..] else values
  }

  /** `copy_primitive_array_elements` and `copy_primitive_sequence_elements`: the vector is
      resized to the element count of the output member and set; floating-point vectors are
      then set once more as they came. */
  method CopyPrimitiveElements(count: nat -> nat, tout: Ty, es: seq<Val>, current: seq<Val>)
    returns (stored: seq<Val>)
    requires IsCollection(tout) && tout.elem.Prim? && |es| <= Capacity(tout)
    requires tout.Arr? ==> |current| == tout.len
    ensures stored == BulkCopy(count, tout, es)
    ensures LeavesCopied(count, tout, es, stored)
  {
    BulkCopyExactly(count, tout, es, BulkCopy(count, tout, es));
    var elementCount := if tout.Arr? then tout.len else count(tout.bound);
    stored := SetValues(tout, current, Resize(es, elementCount));
    if tout.elem.float {
      stored := SetValues(tout, stored, es);
    }
  }

  /** One round of the loop of `convert_sample`: a member of any kind. */
  method ConvertMember(dir: Direction, count: nat -> nat, tin: Ty, tout: Ty, v: Val, out: Val)
    returns (r: Result<Val>)
    requires Aligned(dir, tin, tout) && HasType(v, tin) && out == Default(tout)
    ensures Conforms(v, tout)
    ensures r.Ok? <==> FitsIn(v, tout)
    ensures r.Ok? ==> r.value == Image(count, tout, v, true)
    decreases v, 2
  {
    AlignedConforms(dir, tin, tout, v);
    if tin.Prim? {
      r := Ok(v);
    } else if IsCollection(tin) {
      if |v.es| > Capacity(tout) {
        return Err;
      }
      if tin.elem.Prim? {
        var leaves := CopyPrimitiveElements(count, tout, v.es, out.es);
        r := Ok(Elems(leaves));
      } else {
        r := ConvertCollection(dir, count, tin, tout, v, out);
      }
    } else {
      r := ConvertSample(dir, count, tin, tout, v, out);
    }
  }

  /** A member collection whose elements are composite: each is converted as a sample. */
  method ConvertCollection(dir: Direction, count: nat -> nat, tin: Ty, tout: Ty, v: Val, out: Val)
    returns (r: Result<Val>)
    requires Aligned(dir, tin, tout) && HasType(v, tin) && IsCollection(tin) && !tin.elem.Prim?
    requires out == Default(tout) && Conforms(v, tout) && |v.es| <= Capacity(tout)
    ensures r.Ok? <==> FitsIn(v, tout)
    ensures r.Ok? ==> r.value == Image(count, tout, v, true)
    decreases v, 0
  {
    var elems := out.es;
    for i := 0 to |v.es|
      invariant ElementsDone(count, tout, v.es, elems, i, false)
    {
      var start := if i < |elems| then elems[i] else Default(tout.elem);
      var c := ConvertSample(dir, count, tin.elem, tout.elem, v.es[i], start);
      if c.Err? {
        return Err;
      }
      NextElementDone(count, tout, v.es, elems, i, false, c.value);
      elems := if i < |elems| then elems[i := c.value] else elems + [c.value];
    }
    AllElementsDone(count, tout, v, elems, true);
    return Ok(Elems(elems));
  }

  /** `transform`: every sample of a batch is converted into a new sample; one that does not
      fit makes the whole call throw. */
  method Transform(dir: Direction, count: nat -> nat, tin: Ty, tout: Ty, samples: seq<Val>)
    returns (r: Result<seq<Val>>)
    requires Aligned(dir, tin, tout) && !tin.Prim?
    requires forall i :: 0 <= i < |samples| ==> HasType(samples[i], tin)
    ensures forall i :: 0 <= i < |samples| ==> Conforms(samples[i], tout)
    ensures r.Ok? <==> forall i :: 0 <= i < |samples| ==> FitsIn(samples[i], tout)
    ensures r.Ok? ==> |r.value| == |samples|
    ensures r.Ok? ==> forall i :: 0 <= i < |samples| ==> r.value[i] == Image(count, tout, samples[i], false)
    ensures r.Ok? ==> forall i :: 0 <= i < |samples| ==> Converted(count, tout, samples[i], r.value[i], false)
  {
    forall i | 0 <= i < |samples| ensures Conforms(samples[i], tout) {
      AlignedConforms(dir, tin, tout, samples[i]);
    }
    var outputs: seq<Val> := [];
    for i := 0 to |samples|
      invariant |outputs| == i
      invariant forall j :: 0 <= j < i ==> FitsIn(samples[j], tout)
      invariant forall j :: 0 <= j < i ==> outputs[j] == Image(count, tout, samples[j], false)
    {
      var c := ConvertSample(dir, count, tin, tout, samples[i], Default(tout));
      if c.Err? {
        return Err;
      }
      outputs := outputs + [c.value];
    }
    forall i | 0 <= i < |samples| ensures Converted(count, tout, samples[i], outputs[i], false) {
      ImageExactly(count, tout, samples[i], outputs[i], false);
    }
    return Ok(outputs);
  }
}
