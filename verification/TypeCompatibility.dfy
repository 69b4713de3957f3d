/**
  `are_types_compatible`, which decides at start-up whether a converter accepts a pair of
  types, against what the converters rely on.
 */
module TypeCompatibility {
  import opened Wrappers
  import opened DynamicTypes
  import opened SequenceArray

  /** A member of `t` against the member of the same name of the output type; a missing
      name throws, which also refuses the pair. */
  predicate PairCompatible(t: Ty, u: Ty)
    decreases t, 1
  {
    if t.Prim? then t == u else Compatible(t, u)
  }

  /** The element types of two collections.  `strict` is the array-to-array case; elsewhere
      two different leaf types are let through. */
  predicate ContentCompatible(t: Ty, u: Ty, strict: bool)
    decreases t, 1
  {
    t == u || (if t.Prim? then !strict else Compatible(t, u))
  }

  predicate Compatible(t: Ty, u: Ty)
    decreases t, 0
  {
    match t
    case Struct(ms) =>
      // a pair of different kinds is reported as an error, and accepted
      !u.Struct? ||
      (|ms| == |u.members| &&
       (t == u || forall i :: 0 <= i < |ms| ==>
         var k := MemberIndex(u, ms[i].name);
         k.Some? && PairCompatible(ms[i].ty, u.members[k.value].ty)))
    case Union(d, cs) =>
      !u.Union? ||
      (d == u.discriminator && |cs| == |u.cases| &&
       (t == u || forall i :: 0 <= i < |cs| ==>
         var k := MemberIndex(u, cs[i].name);
         k.Some? && PairCompatible(cs[i].ty, u.cases[k.value].ty)))
    case Arr(e, n) =>
      IsCollection(u) && (u.Arr? ==> u.len == n) && ContentCompatible(e, u.elem, u.Arr?)
    case Sequence(e, _) =>
      IsCollection(u) && ContentCompatible(e, u.elem, false)
    case Prim(_, _, _) => false
  }

  // ----- what the converters rely on, and what the check overlooks -----------------------------------

  /** No struct or union declares a member name twice. */
  predicate ProperNames(t: Ty) {
    match t
    case Prim(_, _, _) => true
    case Struct(ms) => Distinct(MemberNames(t)) && forall i :: 0 <= i < |ms| ==> ProperNames(ms[i].ty)
    case Union(_, cs) => Distinct(MemberNames(t)) && forall i :: 0 <= i < |cs| ==> ProperNames(cs[i].ty)
    case Arr(e, _) => ProperNames(e)
    case Sequence(e, _) => ProperNames(e)
  }

  /** Copying by position is copying by name: members carry the same names in the same order,
      discriminators agree, and arrays that stay arrays keep their size. */
  predicate SameNames(t: Ty, u: Ty) {
    match t
    case Prim(_, _, _) => true
    case Struct(ms) =>
      u.Struct? && |u.members| == |ms| &&
      forall i :: 0 <= i < |ms| ==> ms[i].name == u.members[i].name && SameNames(ms[i].ty, u.members[i].ty)
    case Union(d, cs) =>
      u.Union? && d == u.discriminator && |u.cases| == |cs| &&
      forall i :: 0 <= i < |cs| ==> cs[i].name == u.cases[i].name && SameNames(cs[i].ty, u.cases[i].ty)
    case Arr(e, n) => IsCollection(u) && (u.Arr? ==> u.len == n) && SameNames(e, u.elem)
    case Sequence(e, _) => IsCollection(u) && SameNames(e, u.elem)
  }

  /** Everything the converters need and the check never looks at: that a struct meets a struct
      and a union a union, the order of members, which are optional, the labels of union
      members, the kind of output collection, and the leaf type of its elements unless both
      are arrays. */
  predicate Unchecked(dir: Direction, t: Ty, u: Ty) {
    match t
    case Prim(_, _, _) => true
    case Struct(ms) =>
      u.Struct? &&
      forall i :: 0 <= i < |ms| && i < |u.members| ==>
        && ms[i].name == u.members[i].name && ms[i].optional == u.members[i].optional
        && Unchecked(dir, ms[i].ty, u.members[i].ty)
    case Union(_, cs) =>
      u.Union? &&
      forall i :: 0 <= i < |cs| && i < |u.cases| ==>
        && cs[i].name == u.cases[i].name && cs[i].tag == u.cases[i].tag
        && Unchecked(dir, cs[i].ty, u.cases[i].ty)
    case Arr(e, _) =>
      if dir.ToArrays? then u.Arr? && Unchecked(dir, e, u.elem)
      else u.Sequence? && (e.Prim? ==> e == u.elem) && Unchecked(dir, e, u.elem)
    case Sequence(e, _) =>
      && (if dir.ToArrays? then u.Arr? else u.Sequence?)
      && (e.Prim? ==> e == u.elem) && Unchecked(dir, e, u.elem)
  }

  lemma SameTypeAccepted(t: Ty)
    ensures PairCompatible(t, t)
  {
  }

  /** Against a member of the same name at the same position, the check is on that member. */
  lemma MemberAccepted(t: Ty, u: Ty, i: nat)
    requires t.Struct? && u.Struct? && |t.members| == |u.members| && i < |t.members|
    requires t.members[i].name == u.members[i].name && Distinct(MemberNames(u)) && Compatible(t, u)
    ensures PairCompatible(t.members[i].ty, u.members[i].ty)
  {
    DistinctIndex(MemberNames(u), i);
    SameTypeAccepted(t.members[i].ty);
  }

  lemma CaseAccepted(t: Ty, u: Ty, i: nat)
    requires t.Union? && u.Union? && |t.cases| == |u.cases| && i < |t.cases|
    requires t.cases[i].name == u.cases[i].name && Distinct(MemberNames(u)) && Compatible(t, u)
    ensures PairCompatible(t.cases[i].ty, u.cases[i].ty)
  {
    DistinctIndex(MemberNames(u), i);
    SameTypeAccepted(t.cases[i].ty);
  }

  lemma ContentAccepted(t: Ty, u: Ty)
    requires IsCollection(t) && Compatible(t, u)
    ensures IsCollection(u)
    ensures !t.elem.Prim? || t.elem == u.elem || (t.Arr? && u.Arr?) ==> PairCompatible(t.elem, u.elem)
  {
    SameTypeAccepted(t.elem);
    assert ContentCompatible(t.elem, u.elem, t.Arr? && u.Arr?);
  }

  /** Every pair the converters handle, name by name, is accepted. */
  lemma {:induction false} AlignedAccepted(dir: Direction, t: Ty, u: Ty)
    requires ProperNames(u) && Aligned(dir, t, u) && SameNames(t, u)
    ensures PairCompatible(t, u) && Unchecked(dir, t, u)
  {
    match t
    case Prim(_, _, _) =>
    case Struct(ms) =>
      forall i | 0 <= i < |ms|
        ensures MemberIndex(u, ms[i].name) == Some(i)
        ensures PairCompatible(ms[i].ty, u.members[i].ty) && Unchecked(dir, ms[i].ty, u.members[i].ty)
      {
        DistinctIndex(MemberNames(u), i);
        AlignedAccepted(dir, ms[i].ty, u.members[i].ty);
      }
    case Union(_, cs) =>
      forall i | 0 <= i < |cs|
        ensures MemberIndex(u, cs[i].name) == Some(i)
        ensures PairCompatible(cs[i].ty, u.cases[i].ty) && Unchecked(dir, cs[i].ty, u.cases[i].ty)
      {
        DistinctIndex(MemberNames(u), i);
        AlignedAccepted(dir, cs[i].ty, u.cases[i].ty);
      }
    case Arr(e, _) => AlignedAccepted(dir, e, u.elem);
    case Sequence(e, _) => AlignedAccepted(dir, e, u.elem);
  }

  /** And an accepted pair that meets what the check overlooks is one the converters handle. */
  lemma {:induction false} AcceptedAligned(dir: Direction, t: Ty, u: Ty)
    requires ProperNames(u) && PairCompatible(t, u) && Unchecked(dir, t, u)
    ensures Aligned(dir, t, u) && SameNames(t, u)
  {
    match t
    case Prim(_, _, _) =>
    case Struct(ms) =>
      forall i | 0 <= i < |ms|
        ensures Aligned(dir, ms[i].ty, u.members[i].ty) && SameNames(ms[i].ty, u.members[i].ty)
      {
        MemberAccepted(t, u, i);
        AcceptedAligned(dir, ms[i].ty, u.members[i].ty);
      }
    case Union(_, cs) =>
      forall i | 0 <= i < |cs|
        ensures Aligned(dir, cs[i].ty, u.cases[i].ty) && SameNames(cs[i].ty, u.cases[i].ty)
      {
        CaseAccepted(t, u, i);
        AcceptedAligned(dir, cs[i].ty, u.cases[i].ty);
      }
    case Arr(e, _) =>
      ContentAccepted(t, u);
      AcceptedAligned(dir, e, u.elem);
    case Sequence(e, _) =>
      ContentAccepted(t, u);
      AcceptedAligned(dir, e, u.elem);
  }

  /** A pair is one the converters handle exactly when it is accepted and meets what the check
      overlooks. */
  lemma AcceptedExactly(dir: Direction, t: Ty, u: Ty)
    requires ProperNames(u)
    ensures Aligned(dir, t, u) && SameNames(t, u) <==> PairCompatible(t, u) && Unchecked(dir, t, u)
  {
    if Aligned(dir, t, u) && SameNames(t, u) {
      AlignedAccepted(dir, t, u);
    }
    if PairCompatible(t, u) && Unchecked(dir, t, u) {
      AcceptedAligned(dir, t, u);
    }
  }

  // ----- accepted pairs no converter can handle ------------------------------------------------------

  const INT32 := Prim("int32", false, 0)
  const FLOAT32 := Prim("float32", true, 0)

  /** A struct paired with a union, or with a leaf, is accepted; so are collections of
      different leaf types. */
  lemma AcceptsMismatchedPairs(dir: Direction, ms: seq<Member>, u: Ty, n: nat, b: nat)
    requires !u.Struct?
    ensures Compatible(Struct(ms), u) && !Aligned(dir, Struct(ms), u)
    ensures Compatible(Arr(INT32, n), Sequence(FLOAT32, b)) && !Aligned(dir, Arr(INT32, n), Sequence(FLOAT32, b))
    ensures Compatible(Sequence(INT32, b), Arr(FLOAT32, n)) && !Aligned(dir, Sequence(INT32, b), Arr(FLOAT32, n))
  {
    assert INT32.kind[0] != FLOAT32.kind[0];
    assert !Aligned(dir, INT32, FLOAT32);
  }

  /** Any reordering of the members is accepted. */
  lemma PermutedMembersAccepted(ms: seq<Member>, ns: seq<Member>)
    requires multiset(ms) == multiset(ns) && Distinct(MemberNames(Struct(ns)))
    ensures Compatible(Struct(ms), Struct(ns))
  {
    assert |ms| == |multiset(ms)| == |multiset(ns)| == |ns|;
    var u := Struct(ns);
    forall i | 0 <= i < |ms|
      ensures var k := MemberIndex(u, ms[i].name); k.Some? && PairCompatible(ms[i].ty, ns[k.value].ty)
    {
      assert ms[i] in multiset(ns);
      var k :| 0 <= k < |ns| && ns[k] == ms[i];
      DistinctIndex(MemberNames(u), k);
      SameTypeAccepted(ms[i].ty);
    }
  }

  function Pair(x: string, p: Ty, y: string, q: Ty): Ty {
    Struct([Member(x, p, false), Member(y, q, false)])
  }

  lemma ReorderedPairAccepted(x: string, p: Ty, y: string, q: Ty, t: Ty, u: Ty)
    requires x != y && t == Pair(x, p, y, q) && u == Pair(y, q, x, p)
    ensures Compatible(t, u)
  {
    assert MemberNames(u) == [y, x];
    PermutedMembersAccepted(t.members, u.members);
  }

  lemma ReorderedPairNotByName(dir: Direction, x: string, p: Ty, y: string, q: Ty, t: Ty, u: Ty)
    requires x != y && p.Prim? && q.Prim? && t == Pair(x, p, y, q) && u == Pair(y, q, x, p)
    ensures !SameNames(t, u)
    ensures Aligned(dir, t, u) <==> p == q
  {
    assert t.members[0].name == x;
    if Aligned(dir, t, u) {
      assert Aligned(dir, t.members[0].ty, u.members[0].ty);
    }
  }

  /** Two leaf members in the other order are accepted, but not copied by name, and can be
      converted only if their types are the same. */
  lemma ReorderedMembersMisplaced(dir: Direction, x: string, y: string, p: Ty, q: Ty, t: Ty, u: Ty)
    requires x != y && p.Prim? && q.Prim? && t == Pair(x, p, y, q) && u == Pair(y, q, x, p)
    ensures Compatible(t, u)
    ensures !SameNames(t, u)
    ensures Aligned(dir, t, u) <==> p == q
  {
    ReorderedPairAccepted(x, p, y, q, t, u);
    ReorderedPairNotByName(dir, x, p, y, q, t, u);
  }

  /** Then each value ends up under the other's name. */
  lemma ReorderedMembersSwapped(count: nat -> nat, x: string, y: string, p: Ty, a: int, b: int)
    requires p.Prim?
    ensures var u, v := Pair(y, p, x, p), Fields([Some(Leaf(a)), Some(Leaf(b))]);
            && HasType(v, Pair(x, p, y, p)) && Conforms(v, u) && FitsIn(v, u)
            && Image(count, u, v, false) == v
  {
    var u, v := Pair(y, p, x, p), Fields([Some(Leaf(a)), Some(Leaf(b))]);
    assert Conforms(v, u) && FitsIn(v, u);
    assert Image(count, u, v, false).fs == v.fs;
  }
}
