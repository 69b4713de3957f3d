/**
  Dynamic types and samples as the sequence/array converters see them: numeric, enum
  and boolean leaves, structs with optional members, unions, one-dimensional arrays and
  bounded sequences, nested to any depth.
 */
module DynamicTypes {
  import opened Wrappers

  datatype Ty =
    | Prim(kind: string, float: bool, initial: int)   // `initial`: the value a new sample holds
    | Struct(members: seq<Member>)
    | Union(discriminator: string, cases: seq<Case>)
    | Arr(elem: Ty, len: nat)
    | Sequence(elem: Ty, bound: nat)

  datatype Member = Member(name: string, ty: Ty, optional: bool)
  datatype Case = Case(tag: int, name: string, ty: Ty)

  datatype Val =
    | Leaf(x: int)
    | Fields(fs: seq<Option<Val>>)            // None: an optional member that is not set
    | Choice(tag: int, body: Option<Val>)   // None: the discriminator selects no member
    | Elems(es: seq<Val>)

  predicate IsCollection(t: Ty) {
    t.Arr? || t.Sequence?
  }

  /** How many elements a collection of this type can hold. */
  function Capacity(t: Ty): nat
    requires IsCollection(t)
  {
    if t.Arr? then t.len else t.bound
  }

  /** Index of the case a discriminator value selects. */
  function CaseAt(cases: seq<Case>, tag: int): (r: Option<nat>)
    ensures r.Some? ==> r.value < |cases| && cases[r.value].tag == tag
    ensures r.None? ==> forall i :: 0 <= i < |cases| ==> cases[i].tag != tag
  {
    if cases == [] then None
    else if cases[|cases| - 1].tag == tag && CaseAt(cases[..|cases| - 1], tag).None? then Some(|cases| - 1)
    else CaseAt(cases[..|cases| - 1], tag)
  }

  /** The names of the members of a struct or union, in order. */
  function MemberNames(t: Ty): seq<string> {
    match t
    case Struct(ms) => seq(|ms|, i requires 0 <= i < |ms| => ms[i].name)
    case Union(_, cs) => seq(|cs|, i requires 0 <= i < |cs| => cs[i].name)
    case _ => []
  }

  function NameIndex(names: seq<string>, name: string): (r: Option<nat>)
    ensures r.Some? ==> r.value < |names| && names[r.value] == name
    ensures r.None? ==> name !in names
  {
    if names == [] then None
    else if names[|names| - 1] == name then Some(|names| - 1)
    else NameIndex(names[..|names| - 1], name)
  }

  /** Index of the member of a struct or union with this name. */
  function MemberIndex(t: Ty, name: string): Option<nat> {
    NameIndex(MemberNames(t), name)
  }

  predicate Distinct(names: seq<string>) {
    forall i, j :: 0 <= i < j < |names| ==> names[i] != names[j]
  }

  lemma DistinctIndex(names: seq<string>, i: nat)
    requires Distinct(names) && i < |names|
    ensures NameIndex(names, names[i]) == Some(i)
  {
  }

  predicate HasType(v: Val, t: Ty)
    decreases v
  {
    match t
    case Prim(_, _, _) => v.Leaf?
    case Struct(ms) =>
      v.Fields? && |v.fs| == |ms| &&
      forall i :: 0 <= i < |ms| ==>
        if v.fs[i].None? then ms[i].optional else HasType(v.fs[i].value, ms[i].ty)
    case Union(_, cs) =>
      v.Choice? && (v.body.Some? <==> CaseAt(cs, v.tag).Some?) &&
      (v.body.Some? ==> HasType(v.body.value, cs[CaseAt(cs, v.tag).value].ty))
    case Arr(e, n) => v.Elems? && |v.es| == n && forall i :: 0 <= i < |v.es| ==> HasType(v.es[i], e)
    case Sequence(e, b) => v.Elems? && |v.es| <= b && forall i :: 0 <= i < |v.es| ==> HasType(v.es[i], e)
  }

  function Copies(v: Val, n: nat): (s: seq<Val>)
    ensures |s| == n && forall i :: 0 <= i < n ==> s[i] == v
  {
    seq(n, _ => v)
  }

  /** What a newly created sample holds. */
  function Default(t: Ty): Val {
    match t
    case Prim(_, _, initial) => Leaf(initial)
    case Struct(ms) =>
      Fields(seq(|ms|, i requires 0 <= i < |ms| => if ms[i].optional then None else Some(Default(ms[i].ty))))
    case Union(_, cs) => if cs == [] then Choice(0, None) else Choice(cs[0].tag, Some(Default(cs[0].ty)))
    case Arr(e, n) => Elems(Copies(Default(e), n))
    case Sequence(_, _) => Elems([])
  }

  lemma {:induction false} FirstCase(cases: seq<Case>)
    requires cases != []
    ensures CaseAt(cases, cases[0].tag) == Some(0)
  {
    if |cases| > 1 {
      assert cases[..|cases| - 1][0] == cases[0];
      FirstCase(cases[..|cases| - 1]);
    }
  }

  lemma {:induction false} DefaultHasType(t: Ty)
    ensures HasType(Default(t), t)
  {
    match t
    case Prim(_, _, _) =>
    case Struct(ms) =>
      forall i | 0 <= i < |ms| ensures HasType(Default(ms[i].ty), ms[i].ty) {
        DefaultHasType(ms[i].ty);
      }
    case Union(_, cs) =>
      if cs != [] {
        FirstCase(cs);
        DefaultHasType(cs[0].ty);
      }
    case Arr(e, n) =>
      DefaultHasType(e);
    case Sequence(_, _) =>
  }

  /** Nothing has been set yet: leaves hold their initial values, optional members are unset,
      a union has its first member, arrays are full of new elements and sequences empty. */
  predicate IsNew(v: Val, t: Ty)
    decreases v
  {
    match v
    case Leaf(x) => t.Prim? && x == t.initial
    case Fields(fs) =>
      t.Struct? && |fs| == |t.members| &&
      forall i :: 0 <= i < |fs| ==>
        (fs[i].None? <==> t.members[i].optional) && (fs[i].Some? ==> IsNew(fs[i].value, t.members[i].ty))
    case Choice(tag, body) =>
      t.Union? && (body.None? <==> t.cases == []) &&
      (body.Some? ==> tag == t.cases[0].tag && IsNew(body.value, t.cases[0].ty))
    case Elems(es) =>
      if t.Arr? then |es| == t.len && forall i :: 0 <= i < |es| ==> IsNew(es[i], t.elem)
      else t.Sequence? && es == []
  }

  lemma {:induction false} DefaultIsNew(t: Ty)
    ensures IsNew(Default(t), t)
  {
    match t
    case Prim(_, _, _) =>
    case Struct(ms) =>
      forall i | 0 <= i < |ms| ensures IsNew(Default(ms[i].ty), ms[i].ty) {
        DefaultIsNew(ms[i].ty);
      }
    case Union(_, cs) =>
      if cs != [] {
        DefaultIsNew(cs[0].ty);
      }
    case Arr(e, _) =>
      DefaultIsNew(e);
    case Sequence(_, _) =>
  }
}
