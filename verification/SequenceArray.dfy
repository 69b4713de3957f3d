/**
  Conversion between samples with sequences and samples with arrays: what the result
  means (`Image`), when there is one (`FitsIn`), the two `convert_sample` functions, and
  the round trip.
 */
module SequenceArray {
  import opened Wrappers
  import opened DynamicTypes

  datatype Direction = ToArrays | ToSequences

  /** Same structure, same leaves; every collection of the output type is of the kind the
      direction produces. */
  predicate Aligned(dir: Direction, tin: Ty, tout: Ty) {
    match tin
    case Prim(_, _, _) => tout == tin
    case Struct(ms) =>
      tout.Struct? && |tout.members| == |ms| &&
      forall i :: 0 <= i < |ms| ==>
        ms[i].optional == tout.members[i].optional && Aligned(dir, ms[i].ty, tout.members[i].ty)
    case Union(_, cs) =>
      tout.Union? && |tout.cases| == |cs| &&
      forall i :: 0 <= i < |cs| ==>
        cs[i].tag == tout.cases[i].tag && Aligned(dir, cs[i].ty, tout.cases[i].ty)
    case Arr(e, _) => (if dir.ToArrays? then tout.Arr? else tout.Sequence?) && Aligned(dir, e, tout.elem)
    case Sequence(e, _) => (if dir.ToArrays? then tout.Arr? else tout.Sequence?) && Aligned(dir, e, tout.elem)
  }

  /** `v` has the structure of `t`, whatever the sizes of its collections. */
  predicate Conforms(v: Val, t: Ty)
    decreases v
  {
    match t
    case Prim(_, _, _) => v.Leaf?
    case Struct(ms) =>
      v.Fields? && |v.fs| == |ms| &&
      forall i :: 0 <= i < |ms| ==>
        if v.fs[i].None? then ms[i].optional else Conforms(v.fs[i].value, ms[i].ty)
    case Union(_, cs) =>
      v.Choice? && (v.body.Some? <==> CaseAt(cs, v.tag).Some?) &&
      (v.body.Some? ==> Conforms(v.body.value, cs[CaseAt(cs, v.tag).value].ty))
    case Arr(e, _) => v.Elems? && forall i :: 0 <= i < |v.es| ==> Conforms(v.es[i], e)
    case Sequence(e, _) => v.Elems? && forall i :: 0 <= i < |v.es| ==> Conforms(v.es[i], e)
  }

  /** Every collection in `v`, at every depth, has room in the corresponding one of `t`. */
  predicate FitsIn(v: Val, t: Ty)
    requires Conforms(v, t)
    decreases v
  {
    match t
    case Prim(_, _, _) => true
    case Struct(ms) => forall i :: 0 <= i < |ms| && v.fs[i].Some? ==> FitsIn(v.fs[i].value, ms[i].ty)
    case Union(_, cs) => v.body.Some? ==> FitsIn(v.body.value, cs[CaseAt(cs, v.tag).value].ty)
    case Arr(e, n) => |v.es| <= n && forall i :: 0 <= i < |v.es| ==> FitsIn(v.es[i], e)
    case Sequence(e, b) => |v.es| <= b && forall i :: 0 <= i < |v.es| ==> FitsIn(v.es[i], e)
  }

  // ----- the meaning of a conversion ----------------------------------------------------

  /** The elements of a new collection beyond the first `k`. */
  function Rest(t: Ty, k: nat): seq<Val>
    requires IsCollection(t)
  {
    if t.Arr? && k < t.len then Copies(Default(t.elem), t.len - k) else []
  }

  /** `std::vector::resize`: cut off, or filled with zeros. */
  function Resize(es: seq<Val>, k: nat): (r: seq<Val>)
    ensures |r| == k
  {
    if k <= |es| then es[..k] else es + Copies(Leaf(0), k - |es|)
  }

  /** Copying all leaves of a collection at once.  An array is filled up with zeros; a
      sequence takes the size `count` reports for its bound, except that floating-point
      values are set a second time, unresized. */
  function BulkCopy(count: nat -> nat, t: Ty, es: seq<Val>): seq<Val>
    requires IsCollection(t) && |es| <= Capacity(t)
  {
    if t.Arr? then Resize(es, t.len)
    else if t.elem.Prim? && t.elem.float then es
    else Resize(es, count(t.bound))
  }

  /** The converted value.  A collection met as a member has its leaves copied in bulk; one
      that is itself an element of such a collection is walked element by element. */
  function Image(count: nat -> nat, t: Ty, v: Val, asMember: bool): Val
    requires Conforms(v, t) && FitsIn(v, t)
    decreases v
  {
    match t
    case Prim(_, _, _) => v
    case Struct(ms) =>
      Fields(seq(|ms|, i requires 0 <= i < |ms| =>
        if v.fs[i].None? then None else Some(Image(count, ms[i].ty, v.fs[i].value, true))))
    case Union(_, cs) =>
      if v.body.None? then Default(t)
      else Choice(v.tag, Some(Image(count, cs[CaseAt(cs, v.tag).value].ty, v.body.value, true)))
    case Arr(e, _) =>
      if asMember && e.Prim? then Elems(BulkCopy(count, t, v.es))
      else Elems(seq(|v.es|, i requires 0 <= i < |v.es| => Image(count, e, v.es[i], !asMember)) + Rest(t, |v.es|))
    case Sequence(e, _) =>
      if asMember && e.Prim? then Elems(BulkCopy(count, t, v.es))
      else Elems(seq(|v.es|, i requires 0 <= i < |v.es| => Image(count, e, v.es[i], !asMember)))
  }

  // ----- the same, position by position -----------------------------------------------------

  /** Leaves copied at once: each stays at its position, zeros stand behind the last, and the length
      is the array's, that of the source for a floating-point sequence, or the reported one. */
  predicate LeavesCopied(count: nat -> nat, t: Ty, es: seq<Val>, ws: seq<Val>)
    requires IsCollection(t) && t.elem.Prim?
  {
    && |ws| == (if t.Arr? then t.len else if t.elem.float then |es| else count(t.bound))
    && forall i :: 0 <= i < |ws| ==> ws[i] == if i < |es| then es[i] else Leaf(0)
  }

  /** `w` is `v` converted to `t`, said of each position by itself. */
  predicate Converted(count: nat -> nat, t: Ty, v: Val, w: Val, asMember: bool)
    requires Conforms(v, t)
    decreases v
  {
    match t
    case Prim(_, _, _) => w == v
    case Struct(ms) =>
      w.Fields? && |w.fs| == |ms| &&
      forall i :: 0 <= i < |ms| ==>
        if v.fs[i].None? then w.fs[i] == None
        else w.fs[i].Some? && Converted(count, ms[i].ty, v.fs[i].value, w.fs[i].value, true)
    case Union(_, cs) =>
      if v.body.None? then w == Default(t)
      else
        && w.Choice? && w.tag == v.tag && w.body.Some?
        && Converted(count, cs[CaseAt(cs, v.tag).value].ty, v.body.value, w.body.value, true)
    case Arr(e, n) =>
      if asMember && e.Prim? then w.Elems? && LeavesCopied(count, t, v.es, w.es)
      else
        && w.Elems? && |v.es| <= |w.es| == n
        && (forall i :: 0 <= i < |v.es| ==> Converted(count, e, v.es[i], w.es[i], !asMember))
        && (forall i :: |v.es| <= i < n ==> w.es[i] == Default(e))
    case Sequence(e, _) =>
      if asMember && e.Prim? then w.Elems? && LeavesCopied(count, t, v.es, w.es)
      else
        && w.Elems? && |w.es| == |v.es|
        && forall i :: 0 <= i < |v.es| ==> Converted(count, e, v.es[i], w.es[i], !asMember)
  }

  lemma BulkCopyExactly(count: nat -> nat, t: Ty, es: seq<Val>, ws: seq<Val>)
    requires IsCollection(t) && t.elem.Prim? && |es| <= Capacity(t)
    ensures ws == BulkCopy(count, t, es) <==> LeavesCopied(count, t, es, ws)
  {
    var k := if t.Arr? then t.len else if t.elem.float then |es| else count(t.bound);
    assert BulkCopy(count, t, es) == Resize(es, k);
  }

  /** A value is the converted one exactly if every position of it is. */
  lemma {:induction false} ImageExactly(count: nat -> nat, t: Ty, v: Val, w: Val, asMember: bool)
    requires Conforms(v, t) && FitsIn(v, t)
    ensures w == Image(count, t, v, asMember) <==> Converted(count, t, v, w, asMember)
    decreases v, 1
  {
    var image := Image(count, t, v, asMember);
    match t
    case Prim(_, _, _) =>
    case Struct(ms) =>
      if w.Fields? && |w.fs| == |ms| {
        forall i | 0 <= i < |ms| && v.fs[i].Some? && w.fs[i].Some?
          ensures w.fs[i] == image.fs[i] <==> Converted(count, ms[i].ty, v.fs[i].value, w.fs[i].value, true)
        {
          ImageExactly(count, ms[i].ty, v.fs[i].value, w.fs[i].value, true);
        }
        assert Converted(count, t, v, w, asMember) ==> w.fs == image.fs;
      }
    case Union(_, cs) =>
      if v.body.Some? && w.Choice? && w.body.Some? {
        ImageExactly(count, cs[CaseAt(cs, v.tag).value].ty, v.body.value, w.body.value, true);
      }
    case Arr(e, _) =>
      CollectionExactly(count, t, v, w, asMember);
    case Sequence(e, _) =>
      CollectionExactly(count, t, v, w, asMember);
  }

  lemma {:induction false} CollectionExactly(count: nat -> nat, t: Ty, v: Val, w: Val, asMember: bool)
    requires IsCollection(t) && Conforms(v, t) && FitsIn(v, t)
    ensures w == Image(count, t, v, asMember) <==> Converted(count, t, v, w, asMember)
    decreases v, 0
  {
    var image := Image(count, t, v, asMember);
    if asMember && t.elem.Prim? {
      if w.Elems? {
        BulkCopyExactly(count, t, v.es, w.es);
      }
    } else if w.Elems? && |w.es| == |image.es| {
      forall i | 0 <= i < |v.es|
        ensures w.es[i] == image.es[i] <==> Converted(count, t.elem, v.es[i], w.es[i], !asMember)
      {
        ImageExactly(count, t.elem, v.es[i], w.es[i], !asMember);
      }
      assert Converted(count, t, v, w, asMember) ==> w.es == image.es;
    }
  }

  // ----- alignment ------------------------------------------------------------------------

  lemma {:induction false} SameCase(cs: seq<Case>, ds: seq<Case>, tag: int)
    requires |cs| == |ds| && forall i :: 0 <= i < |cs| ==> cs[i].tag == ds[i].tag
    ensures CaseAt(cs, tag) == CaseAt(ds, tag)
  {
    if cs != [] {
      SameCase(cs[..|cs| - 1], ds[..|ds| - 1], tag);
    }
  }

  lemma {:induction false} AlignedConforms(dir: Direction, tin: Ty, tout: Ty, v: Val)
    requires Aligned(dir, tin, tout) && HasType(v, tin)
    ensures Conforms(v, tout)
    decreases v
  {
    match tin
    case Prim(_, _, _) =>
    case Struct(ms) =>
      forall i | 0 <= i < |ms| && v.fs[i].Some? ensures Conforms(v.fs[i].value, tout.members[i].ty) {
        AlignedConforms(dir, ms[i].ty, tout.members[i].ty, v.fs[i].value);
      }
    case Union(_, cs) =>
      SameCase(cs, tout.cases, v.tag);
      if v.body.Some? {
        var k := CaseAt(cs, v.tag).value;
        AlignedConforms(dir, cs[k].ty, tout.cases[k].ty, v.body.value);
      }
    case Arr(e, _) =>
      forall i | 0 <= i < |v.es| ensures Conforms(v.es[i], tout.elem) {
        AlignedConforms(dir, e, tout.elem, v.es[i]);
      }
    case Sequence(e, _) =>
      forall i | 0 <= i < |v.es| ensures Conforms(v.es[i], tout.elem) {
        AlignedConforms(dir, e, tout.elem, v.es[i]);
      }
  }

  // ----- the result has the output type -----------------------------------------------------

  /** The reported element count never exceeds a sequence's bound. */
  ghost predicate CountWithinBound(count: nat -> nat) {
    forall b :: count(b) <= b
  }

  lemma {:induction false} ImageHasType(count: nat -> nat, t: Ty, v: Val, asMember: bool)
    requires Conforms(v, t) && FitsIn(v, t) && CountWithinBound(count)
    ensures HasType(Image(count, t, v, asMember), t)
    decreases v
  {
    match t
    case Prim(_, _, _) =>
    case Struct(ms) =>
      forall i | 0 <= i < |ms| && v.fs[i].Some?
        ensures HasType(Image(count, ms[i].ty, v.fs[i].value, true), ms[i].ty)
      {
        ImageHasType(count, ms[i].ty, v.fs[i].value, true);
      }
    case Union(_, cs) =>
      if v.body.None? {
        DefaultHasType(t);
      } else {
        ImageHasType(count, cs[CaseAt(cs, v.tag).value].ty, v.body.value, true);
      }
    case Arr(e, _) =>
      DefaultHasType(e);
      forall i | 0 <= i < |v.es| ensures HasType(Image(count, e, v.es[i], !asMember), e) {
        ImageHasType(count, e, v.es[i], !asMember);
      }
    case Sequence(e, _) =>
      forall i | 0 <= i < |v.es| ensures HasType(Image(count, e, v.es[i], !asMember), e) {
        ImageHasType(count, e, v.es[i], !asMember);
      }
  }

  // ----- arrays to sequences and back ----------------------------------------------------------

  /** `ts` is `ta` with every array replaced by a sequence bounded by the array's size. */
  predicate Mirror(ta: Ty, ts: Ty) {
    match ta
    case Prim(_, _, _) => ts == ta
    case Struct(ms) =>
      ts.Struct? && |ts.members| == |ms| &&
      forall i :: 0 <= i < |ms| ==>
        ms[i].optional == ts.members[i].optional && Mirror(ms[i].ty, ts.members[i].ty)
    case Union(_, cs) =>
      ts.Union? && |ts.cases| == |cs| &&
      forall i :: 0 <= i < |cs| ==> cs[i].tag == ts.cases[i].tag && Mirror(cs[i].ty, ts.cases[i].ty)
    case Arr(e, n) => ts.Sequence? && ts.bound == n && Mirror(e, ts.elem)
    case Sequence(_, _) => false
  }

  lemma {:induction false} MirrorAligned(ta: Ty, ts: Ty)
    requires Mirror(ta, ts)
    ensures Aligned(ToSequences, ta, ts) && Aligned(ToArrays, ts, ta)
  {
    match ta
    case Prim(_, _, _) =>
    case Struct(ms) =>
      forall i | 0 <= i < |ms|
        ensures Aligned(ToSequences, ms[i].ty, ts.members[i].ty) && Aligned(ToArrays, ts.members[i].ty, ms[i].ty)
      {
        MirrorAligned(ms[i].ty, ts.members[i].ty);
      }
    case Union(_, cs) =>
      forall i | 0 <= i < |cs|
        ensures Aligned(ToSequences, cs[i].ty, ts.cases[i].ty) && Aligned(ToArrays, ts.cases[i].ty, cs[i].ty)
      {
        MirrorAligned(cs[i].ty, ts.cases[i].ty);
      }
    case Arr(e, _) =>
      MirrorAligned(e, ts.elem);
  }

  lemma {:induction false} MirrorFits(ta: Ty, ts: Ty, v: Val)
    requires Mirror(ta, ts) && HasType(v, ta)
    ensures Conforms(v, ts) && FitsIn(v, ts)
    decreases v
  {
    MirrorAligned(ta, ts);
    AlignedConforms(ToSequences, ta, ts, v);
    match ta
    case Prim(_, _, _) =>
    case Struct(ms) =>
      forall i | 0 <= i < |ms| && v.fs[i].Some? ensures FitsIn(v.fs[i].value, ts.members[i].ty) {
        MirrorFits(ms[i].ty, ts.members[i].ty, v.fs[i].value);
      }
    case Union(_, cs) =>
      SameCase(cs, ts.cases, v.tag);
      if v.body.Some? {
        var k := CaseAt(cs, v.tag).value;
        MirrorFits(cs[k].ty, ts.cases[k].ty, v.body.value);
      }
    case Arr(e, _) =>
      forall i | 0 <= i < |v.es| ensures FitsIn(v.es[i], ts.elem) {
        MirrorFits(e, ts.elem, v.es[i]);
      }
  }

  lemma {:induction false} MirrorFitsBack(ta: Ty, ts: Ty, w: Val)
    requires Mirror(ta, ts) && HasType(w, ts)
    ensures Conforms(w, ta) && FitsIn(w, ta)
    decreases w
  {
    MirrorAligned(ta, ts);
    AlignedConforms(ToArrays, ts, ta, w);
    match ta
    case Prim(_, _, _) =>
    case Struct(ms) =>
      forall i | 0 <= i < |ms| && w.fs[i].Some? ensures FitsIn(w.fs[i].value, ms[i].ty) {
        MirrorFitsBack(ms[i].ty, ts.members[i].ty, w.fs[i].value);
      }
    case Union(_, cs) =>
      SameCase(cs, ts.cases, w.tag);
      if w.body.Some? {
        var k := CaseAt(cs, w.tag).value;
        MirrorFitsBack(cs[k].ty, ts.cases[k].ty, w.body.value);
      }
    case Arr(e, _) =>
      forall i | 0 <= i < |w.es| ensures FitsIn(w.es[i], e) {
        MirrorFitsBack(e, ts.elem, w.es[i]);
      }
  }

  /** To sequences, and back. */
  ghost function Restored(count: nat -> nat, ta: Ty, ts: Ty, v: Val, asMember: bool): Val
    requires Mirror(ta, ts) && HasType(v, ta) && CountWithinBound(count)
  {
    MirrorFits(ta, ts, v);
    var w := Image(count, ts, v, asMember);
    ImageHasType(count, ts, v, asMember);
    MirrorFitsBack(ta, ts, w);
    Image(count, ta, w, asMember)
  }

  // ----- exactly when the round trip restores the sample ------------------------------------------

  /** What the round trip keeps.  A union needs its selected member, unless it can have none
      and is new.  A member array of integers loses what lies beyond the element count that is
      reported for the sequence; floating-point numbers are copied without it. */
  predicate Survives(count: nat -> nat, t: Ty, v: Val, asMember: bool)
    requires HasType(v, t)
    decreases v
  {
    match t
    case Prim(_, _, _) => true
    case Struct(ms) =>
      forall i :: 0 <= i < |ms| && v.fs[i].Some? ==> Survives(count, ms[i].ty, v.fs[i].value, true)
    case Union(_, cs) =>
      if v.body.None? then cs == [] && v.tag == 0
      else Survives(count, cs[CaseAt(cs, v.tag).value].ty, v.body.value, true)
    case Arr(e, n) =>
      if asMember && e.Prim? then e.float || forall i :: count(n) <= i < n ==> v.es[i] == Leaf(0)
      else forall i :: 0 <= i < |v.es| ==> Survives(count, e, v.es[i], !asMember)
    case Sequence(_, _) => false
  }

  lemma RestoredStruct(count: nat -> nat, ta: Ty, ts: Ty, v: Val, asMember: bool)
    requires ta.Struct? && Mirror(ta, ts) && HasType(v, ta) && CountWithinBound(count)
    ensures var r := Restored(count, ta, ts, v, asMember);
            && r.Fields? && |r.fs| == |v.fs|
            && forall i :: 0 <= i < |v.fs| ==>
                 r.fs[i] == if v.fs[i].None? then None
                            else Some(Restored(count, ta.members[i].ty, ts.members[i].ty, v.fs[i].value, true))
  {
    MirrorFits(ta, ts, v);
    var w := Image(count, ts, v, asMember);
    ImageHasType(count, ts, v, asMember);
    MirrorFitsBack(ta, ts, w);
  }

  lemma RestoredUnion(count: nat -> nat, ta: Ty, ts: Ty, v: Val, asMember: bool)
    requires ta.Union? && Mirror(ta, ts) && HasType(v, ta) && CountWithinBound(count)
    ensures var r, k, cs, ds := Restored(count, ta, ts, v, asMember), CaseAt(ta.cases, v.tag), ta.cases, ts.cases;
            && (v.body.None? && ta.cases == [] ==> r == Choice(0, None))
            && (v.body.None? && ta.cases != [] ==> r.Choice? && r.body.Some?)
            && (v.body.Some? ==>
                  r == Choice(v.tag, Some(Restored(count, cs[k.value].ty, ds[k.value].ty, v.body.value, true))))
  {
    MirrorFits(ta, ts, v);
    SameCase(ta.cases, ts.cases, v.tag);
    var w := Image(count, ts, v, asMember);
    ImageHasType(count, ts, v, asMember);
    MirrorFitsBack(ta, ts, w);
    SameCase(ta.cases, ts.cases, w.tag);
  }

  lemma RestoredElements(count: nat -> nat, ta: Ty, ts: Ty, v: Val, asMember: bool)
    requires ta.Arr? && Mirror(ta, ts) && HasType(v, ta) && CountWithinBound(count) && !(asMember && ta.elem.Prim?)
    ensures var r := Restored(count, ta, ts, v, asMember);
            && r.Elems? && |r.es| == |v.es|
            && forall i :: 0 <= i < |v.es| ==> r.es[i] == Restored(count, ta.elem, ts.elem, v.es[i], !asMember)
  {
    MirrorFits(ta, ts, v);
    var w := Image(count, ts, v, asMember);
    ImageHasType(count, ts, v, asMember);
    MirrorFitsBack(ta, ts, w);
    assert |w.es| == |v.es|;
  }

  lemma LeafArrayRestored(count: nat -> nat, ta: Ty, ts: Ty, v: Val)
    requires ta.Arr? && ta.elem.Prim? && Mirror(ta, ts) && HasType(v, ta) && CountWithinBound(count)
    ensures Restored(count, ta, ts, v, true) == v <==> Survives(count, ta, v, true)
  {
    var n := ta.len;
    MirrorFits(ta, ts, v);
    var w := Image(count, ts, v, true);
    var r := Restored(count, ta, ts, v, true);
    assert r == Image(count, ta, w, true);
    if ta.elem.float {
      assert r.es == v.es;
    } else {
      assert w.es == v.es[..count(n)];
      assert r.es == v.es[..count(n)] + Copies(Leaf(0), n - count(n));
      if Survives(count, ta, v, true) {
        assert r.es == v.es;
      }
      if r == v {
        forall i | count(n) <= i < n ensures v.es[i] == Leaf(0) {
          assert v.es[i] == r.es[i];
        }
      }
    }
  }

  /** Converting an array-typed sample to sequences and back restores it exactly when it
      survives, at every nesting depth and whatever element counts the library reports. */
  lemma {:induction false} RoundTripExact(count: nat -> nat, ta: Ty, ts: Ty, v: Val, asMember: bool)
    requires Mirror(ta, ts) && HasType(v, ta) && CountWithinBound(count)
    ensures Restored(count, ta, ts, v, asMember) == v <==> Survives(count, ta, v, asMember)
    decreases v
  {
    var r := Restored(count, ta, ts, v, asMember);
    match ta
    case Prim(_, _, _) =>
    case Struct(ms) =>
      RestoredStruct(count, ta, ts, v, asMember);
      forall i | 0 <= i < |ms| && v.fs[i].Some?
        ensures r.fs[i] == v.fs[i] <==> Survives(count, ms[i].ty, v.fs[i].value, true)
      {
        RoundTripExact(count, ms[i].ty, ts.members[i].ty, v.fs[i].value, true);
      }
      assert r == v <==> r.fs == v.fs;
    case Union(_, cs) =>
      RestoredUnion(count, ta, ts, v, asMember);
      if v.body.Some? {
        var k := CaseAt(cs, v.tag).value;
        RoundTripExact(count, cs[k].ty, ts.cases[k].ty, v.body.value, true);
      }
    case Arr(e, _) =>
      if asMember && e.Prim? {
        LeafArrayRestored(count, ta, ts, v);
      } else {
        RestoredElements(count, ta, ts, v, asMember);
        forall i | 0 <= i < |v.es| ensures r.es[i] == v.es[i] <==> Survives(count, e, v.es[i], !asMember) {
          RoundTripExact(count, e, ts.elem, v.es[i], !asMember);
        }
        assert r == v <==> r.es == v.es;
      }
  }

  // ----- a library that reports the bound -----------------------------------------------------------

  /** Every union in `v` has its selected member. */
  predicate AllSelected(v: Val) {
    match v
    case Leaf(_) => true
    case Fields(fs) => forall i :: 0 <= i < |fs| && fs[i].Some? ==> AllSelected(fs[i].value)
    case Choice(_, body) => body.Some? && AllSelected(body.value)
    case Elems(es) => forall i :: 0 <= i < |es| ==> AllSelected(es[i])
  }

  ghost predicate ReportsBound(count: nat -> nat) {
    forall b :: count(b) == b
  }

  /** Every union type has a member. */
  predicate CasesNonEmpty(t: Ty) {
    match t
    case Prim(_, _, _) => true
    case Struct(ms) => forall i :: 0 <= i < |ms| ==> CasesNonEmpty(ms[i].ty)
    case Union(_, cs) => cs != [] && forall i :: 0 <= i < |cs| ==> CasesNonEmpty(cs[i].ty)
    case Arr(e, _) => CasesNonEmpty(e)
    case Sequence(e, _) => CasesNonEmpty(e)
  }

  lemma {:induction false} SelectedSurvives(count: nat -> nat, ta: Ty, ts: Ty, v: Val, asMember: bool)
    requires Mirror(ta, ts) && HasType(v, ta) && CasesNonEmpty(ta) && ReportsBound(count)
    ensures Survives(count, ta, v, asMember) <==> AllSelected(v)
    decreases v
  {
    match ta
    case Prim(_, _, _) =>
    case Struct(ms) =>
      forall i | 0 <= i < |ms| && v.fs[i].Some?
        ensures Survives(count, ms[i].ty, v.fs[i].value, true) <==> AllSelected(v.fs[i].value)
      {
        SelectedSurvives(count, ms[i].ty, ts.members[i].ty, v.fs[i].value, true);
      }
    case Union(_, cs) =>
      if v.body.Some? {
        var k := CaseAt(cs, v.tag).value;
        SelectedSurvives(count, cs[k].ty, ts.cases[k].ty, v.body.value, true);
      }
    case Arr(e, _) =>
      forall i | 0 <= i < |v.es| ensures Survives(count, e, v.es[i], !asMember) <==> AllSelected(v.es[i]) {
        SelectedSurvives(count, e, ts.elem, v.es[i], !asMember);
      }
  }

  /** With element counts equal to the bounds, exactly those samples come back whose unions all
      have their selected members. */
  lemma RoundTrip(count: nat -> nat, ta: Ty, ts: Ty, v: Val, asMember: bool)
    requires Mirror(ta, ts) && HasType(v, ta) && CasesNonEmpty(ta) && ReportsBound(count)
    ensures Restored(count, ta, ts, v, asMember) == v <==> AllSelected(v)
  {
    SelectedSurvives(count, ta, ts, v, asMember);
    RoundTripExact(count, ta, ts, v, asMember);
  }

  // ----- the other way round --------------------------------------------------------------------------

  /** To arrays, and back. */
  ghost function Rebuilt(count: nat -> nat, ta: Ty, ts: Ty, v: Val, asMember: bool): Val
    requires Mirror(ta, ts) && HasType(v, ts) && CountWithinBound(count)
  {
    MirrorFitsBack(ta, ts, v);
    var w := Image(count, ta, v, asMember);
    ImageHasType(count, ta, v, asMember);
    MirrorFits(ta, ts, w);
    Image(count, ts, w, asMember)
  }

  /** What survives sequence-to-array-to-sequence: an array forgets how long the sequence was.  A
      member sequence of integers comes back with the reported element count, any other with its
      full bound. */
  predicate KeepsLength(count: nat -> nat, t: Ty, v: Val, asMember: bool)
    requires HasType(v, t)
    decreases v
  {
    match t
    case Prim(_, _, _) => true
    case Struct(ms) =>
      forall i :: 0 <= i < |ms| && v.fs[i].Some? ==> KeepsLength(count, ms[i].ty, v.fs[i].value, true)
    case Union(_, cs) =>
      if v.body.None? then cs == [] && v.tag == 0
      else KeepsLength(count, cs[CaseAt(cs, v.tag).value].ty, v.body.value, true)
    case Arr(_, _) => false
    case Sequence(e, b) =>
      if asMember && e.Prim? then |v.es| == if e.float then b else count(b)
      else |v.es| == b && forall i :: 0 <= i < |v.es| ==> KeepsLength(count, e, v.es[i], !asMember)
  }

  lemma RebuiltStruct(count: nat -> nat, ta: Ty, ts: Ty, v: Val, asMember: bool)
    requires ta.Struct? && Mirror(ta, ts) && HasType(v, ts) && CountWithinBound(count)
    ensures var r := Rebuilt(count, ta, ts, v, asMember);
            && r.Fields? && |r.fs| == |v.fs|
            && forall i :: 0 <= i < |v.fs| ==>
                 r.fs[i] == if v.fs[i].None? then None
                            else Some(Rebuilt(count, ta.members[i].ty, ts.members[i].ty, v.fs[i].value, true))
  {
    MirrorFitsBack(ta, ts, v);
    var w := Image(count, ta, v, asMember);
    ImageHasType(count, ta, v, asMember);
    MirrorFits(ta, ts, w);
  }

  lemma RebuiltUnion(count: nat -> nat, ta: Ty, ts: Ty, v: Val, asMember: bool)
    requires ta.Union? && Mirror(ta, ts) && HasType(v, ts) && CountWithinBound(count)
    ensures var r, k, cs, ds := Rebuilt(count, ta, ts, v, asMember), CaseAt(ts.cases, v.tag), ta.cases, ts.cases;
            && (v.body.None? && ds == [] ==> r == Choice(0, None))
            && (v.body.None? && ds != [] ==> r.Choice? && r.body.Some?)
            && (v.body.Some? ==>
                  r == Choice(v.tag, Some(Rebuilt(count, cs[k.value].ty, ds[k.value].ty, v.body.value, true))))
  {
    MirrorFitsBack(ta, ts, v);
    SameCase(ta.cases, ts.cases, v.tag);
    var w := Image(count, ta, v, asMember);
    ImageHasType(count, ta, v, asMember);
    MirrorFits(ta, ts, w);
    SameCase(ta.cases, ts.cases, w.tag);
  }

  lemma RebuiltElements(count: nat -> nat, ta: Ty, ts: Ty, v: Val, asMember: bool)
    requires ta.Arr? && Mirror(ta, ts) && HasType(v, ts) && CountWithinBound(count) && !(asMember && ta.elem.Prim?)
    ensures var r := Rebuilt(count, ta, ts, v, asMember);
            && r.Elems? && |r.es| == ts.bound && |v.es| <= ts.bound
            && forall i :: 0 <= i < |v.es| ==> r.es[i] == Rebuilt(count, ta.elem, ts.elem, v.es[i], !asMember)
  {
    MirrorFitsBack(ta, ts, v);
    var w := Image(count, ta, v, asMember);
    ImageHasType(count, ta, v, asMember);
    MirrorFits(ta, ts, w);
    assert |w.es| == ta.len;
  }

  lemma LeafSequenceRebuilt(count: nat -> nat, ta: Ty, ts: Ty, v: Val)
    requires ta.Arr? && ta.elem.Prim? && Mirror(ta, ts) && HasType(v, ts) && CountWithinBound(count)
    ensures Rebuilt(count, ta, ts, v, true) == v <==> KeepsLength(count, ts, v, true)
  {
    MirrorFitsBack(ta, ts, v);
    var w := Image(count, ta, v, true);
    var r := Rebuilt(count, ta, ts, v, true);
    assert r == Image(count, ts, w, true);
    assert w.es == Resize(v.es, ta.len);
    if ta.elem.float {
      assert r.es == w.es;
      assert |v.es| == ta.len ==> w.es == v.es;
    } else {
      assert r.es == w.es[..count(ta.len)];
      assert |v.es| == count(ta.len) ==> w.es[..|v.es|] == v.es;
    }
    assert r == v <==> r.es == v.es;
  }

  /** Converting a sequence-typed sample to arrays and back restores it exactly when its sequences
      have the lengths the way back produces, at every depth. */
  lemma {:induction false} RebuiltExact(count: nat -> nat, ta: Ty, ts: Ty, v: Val, asMember: bool)
    requires Mirror(ta, ts) && HasType(v, ts) && CountWithinBound(count)
    ensures Rebuilt(count, ta, ts, v, asMember) == v <==> KeepsLength(count, ts, v, asMember)
    decreases v
  {
    var r := Rebuilt(count, ta, ts, v, asMember);
    match ta
    case Prim(_, _, _) =>
    case Struct(ms) =>
      RebuiltStruct(count, ta, ts, v, asMember);
      forall i | 0 <= i < |ms| && v.fs[i].Some?
        ensures r.fs[i] == v.fs[i] <==> KeepsLength(count, ts.members[i].ty, v.fs[i].value, true)
      {
        RebuiltExact(count, ms[i].ty, ts.members[i].ty, v.fs[i].value, true);
      }
      assert r == v <==> r.fs == v.fs;
    case Union(_, cs) =>
      RebuiltUnion(count, ta, ts, v, asMember);
      if v.body.Some? {
        var k := CaseAt(ts.cases, v.tag).value;
        RebuiltExact(count, cs[k].ty, ts.cases[k].ty, v.body.value, true);
      }
    case Arr(e, _) =>
      if asMember && e.Prim? {
        LeafSequenceRebuilt(count, ta, ts, v);
      } else {
        RebuiltElements(count, ta, ts, v, asMember);
        forall i | 0 <= i < |v.es| ensures r.es[i] == v.es[i] <==> KeepsLength(count, ts.elem, v.es[i], !asMember) {
          RebuiltExact(count, e, ts.elem, v.es[i], !asMember);
        }
        assert r == v <==> r.es == v.es;
      }
  }
}
