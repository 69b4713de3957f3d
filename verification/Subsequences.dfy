/** Sequences obtained from others in order: by leaving elements out, or element by element. */
module Subsequences {

  ghost predicate IsSubsequence<T(!new)>(xs: seq<T>, ys: seq<T>) {
    if xs == [] then true
    else if ys == [] then false
    else
      || IsSubsequence(xs, ys[..|ys| - 1])
      || (xs[|xs| - 1] == ys[|ys| - 1] && IsSubsequence(xs[..|xs| - 1], ys[..|ys| - 1]))
  }

  lemma SubsequenceAppend<T(!new)>(xs: seq<T>, ys: seq<T>, p: T)
    requires IsSubsequence(xs, ys)
    ensures IsSubsequence(xs, ys + [p]) && IsSubsequence(xs + [p], ys + [p])
  {
    assert (ys + [p])[..|ys|] == ys && (xs + [p])[..|xs|] == xs;
  }

  lemma {:induction false} SubsequenceConcat<T(!new)>(a: seq<T>, b: seq<T>, c: seq<T>, d: seq<T>)
    requires IsSubsequence(a, b) && IsSubsequence(c, d)
    ensures IsSubsequence(a + c, b + d)
    decreases |d|
  {
    if d == [] {
      assert a + c == a && b + d == b;
    } else {
      var d', p := d[..|d| - 1], d[|d| - 1];
      assert b + d == (b + d') + [p];
      if IsSubsequence(c, d') {
        SubsequenceConcat(a, b, c, d');
        SubsequenceAppend(a + c, b + d', p);
      } else {
        var c' := c[..|c| - 1];
        SubsequenceConcat(a, b, c', d');
        SubsequenceAppend(a + c', b + d', p);
        assert a + c == (a + c') + [p];
      }
    }
  }

  lemma ConcatAssociative<T>(a: seq<T>, b: seq<T>, c: seq<T>)
    ensures a + (b + c) == a + b + c
  {
  }

  /** What `f` yields for each element, one after the other. */
  function FlatMap<A, B>(f: A -> seq<B>, xs: seq<A>): seq<B> {
    if xs == [] then [] else FlatMap(f, xs[..|xs| - 1]) + f(xs[|xs| - 1])
  }

  lemma FlatMapAppend<A, B>(f: A -> seq<B>, xs: seq<A>, x: A)
    ensures FlatMap(f, xs + [x]) == FlatMap(f, xs) + f(x)
  {
    assert (xs + [x])[..|xs|] == xs;
  }

  lemma {:induction false} FlatMapConcat<A, B>(f: A -> seq<B>, a: seq<A>, b: seq<A>)
    ensures FlatMap(f, a + b) == FlatMap(f, a) + FlatMap(f, b)
    decreases |b|
  {
    if b == [] {
      assert a + b == a;
    } else {
      var front, x := b[..|b| - 1], b[|b| - 1];
      FlatMapConcat(f, a, front);
      FlatMapAppend(f, a + front, x);
      assert a + front + [x] == a + b;
      ConcatAssociative(FlatMap(f, a), FlatMap(f, front), f(x));
    }
  }

  lemma FlatMapDrops<A, B>(f: A -> seq<B>, front: seq<A>, x: A, tail: seq<A>)
    requires f(x) == []
    ensures FlatMap(f, front + [x] + tail) == FlatMap(f, front + tail)
  {
    FlatMapAppend(f, front, x);
    FlatMapConcat(f, front + [x], tail);
    FlatMapConcat(f, front, tail);
  }

  /** An element that yields nothing may be left out. */
  lemma FlatMapSkips<A, B>(f: A -> seq<B>, xs: seq<A>, i: nat)
    requires i < |xs| && f(xs[i]) == []
    ensures FlatMap(f, xs[..i] + xs[i + 1..]) == FlatMap(f, xs)
  {
    assert xs == xs[..i] + [xs[i]] + xs[i + 1..];
    FlatMapDrops(f, xs[..i], xs[i], xs[i + 1..]);
  }

  lemma FlatMapOne<A, B>(f: A -> seq<B>, x: A)
    ensures FlatMap(f, [x]) == f(x)
  {
    FlatMapAppend(f, [], x);
    assert [] + [x] == [x];
  }

  /** Two passes in one. */
  lemma {:induction false} FlatMapCompose<A, B, C>(f: A -> seq<B>, g: B -> seq<C>, h: A -> seq<C>, xs: seq<A>)
    requires forall i :: 0 <= i < |xs| ==> FlatMap(g, f(xs[i])) == h(xs[i])
    ensures FlatMap(g, FlatMap(f, xs)) == FlatMap(h, xs)
  {
    if xs != [] {
      var n := |xs| - 1;
      FlatMapCompose(f, g, h, xs[..n]);
      FlatMapConcat(g, FlatMap(f, xs[..n]), f(xs[n]));
    }
  }

  // ----- where the elements come from ---------------------------------------------------

  predicate Increasing(ks: seq<nat>) {
    forall i, j :: 0 <= i < j < |ks| ==> ks[i] < ks[j]
  }

  /** For the positions `ks` of `xs`, `f` yields exactly `ys`. */
  ghost predicate Yields<A, B>(f: A -> seq<B>, xs: seq<A>, ks: seq<nat>, ys: seq<B>) {
    |ys| == |ks| && forall m :: 0 <= m < |ks| ==> ks[m] < |xs| && f(xs[ks[m]]) == [ys[m]]
  }

  /** For the others it yields nothing. */
  ghost predicate Complete<A, B>(f: A -> seq<B>, xs: seq<A>, ks: seq<nat>) {
    forall k: nat :: k < |xs| && f(xs[k]) != [] ==> k in ks
  }

  /** `ks` are the positions of `xs` for which `f` yields something, and `ys` what it yields. */
  ghost predicate Picked<A, B>(f: A -> seq<B>, xs: seq<A>, ks: seq<nat>, ys: seq<B>) {
    Increasing(ks) && Yields(f, xs, ks, ys) && Complete(f, xs, ks)
  }

  lemma {:induction false} FlatMapPositions<A, B>(f: A -> seq<B>, xs: seq<A>, ys: seq<B>) returns (ks: seq<nat>)
    requires ys == FlatMap(f, xs) && forall i :: 0 <= i < |xs| ==> |f(xs[i])| <= 1
    ensures Picked(f, xs, ks, ys)
    decreases |xs|
  {
    if xs == [] {
      ks := [];
    } else {
      var n := |xs| - 1;
      var front := FlatMapPositions(f, xs[..n], FlatMap(f, xs[..n]));
      assert xs[..n] + [xs[n]] == xs;
      if f(xs[n]) == [] {
        ks := front;
        assert ys == FlatMap(f, xs[..n]);
        NothingPicked(f, xs[..n], front, ys, xs[n], xs);
      } else {
        var y := f(xs[n])[0];
        ks := front + [n];
        OnePicked(f, xs[..n], front, FlatMap(f, xs[..n]), xs[n], y, xs, ks, ys);
      }
    }
  }

  lemma NothingPicked<A, B>(f: A -> seq<B>, xs: seq<A>, ks: seq<nat>, ys: seq<B>, x: A, xs': seq<A>)
    requires Picked(f, xs, ks, ys) && f(x) == [] && xs' == xs + [x]
    ensures Picked(f, xs', ks, ys)
  {
    forall k: nat | k < |xs'| && f(xs'[k]) != [] ensures k in ks {
      assert k < |xs| && xs[k] == xs'[k];
    }
  }

  lemma OnePicked<A, B>(f: A -> seq<B>, xs: seq<A>, ks: seq<nat>, ys: seq<B>, x: A, y: B,
                        xs': seq<A>, ks': seq<nat>, ys': seq<B>)
    requires Picked(f, xs, ks, ys) && f(x) == [y]
    requires xs' == xs + [x] && ks' == ks + [|xs|] && ys' == ys + [y]
    ensures Picked(f, xs', ks', ys')
  {
    forall k: nat | k < |xs'| && f(xs'[k]) != [] ensures k in ks' {
      if k < |xs| {
        assert xs[k] == xs'[k];
      } else {
        assert ks'[|ks|] == k;
      }
    }
  }

  /** Positions in a table of rows, read row by row. */
  type Position = (nat, nat)

  predicate Before(p: Position, q: Position) {
    p.0 < q.0 || (p.0 == q.0 && p.1 < q.1)
  }

  predicate Ordered(ps: seq<Position>) {
    forall i, j :: 0 <= i < j < |ps| ==> Before(ps[i], ps[j])
  }

  /** The positions `ks` of row `i`. */
  function InRow(i: nat, ks: seq<nat>): (ps: seq<Position>)
    ensures |ps| == |ks| && forall m :: 0 <= m < |ks| ==> ps[m] == (i, ks[m])
  {
    seq(|ks|, m requires 0 <= m < |ks| => (i, ks[m]))
  }

  /** Another row behind the others. */
  lemma OrderedRows(ps: seq<Position>, i: nat, ks: seq<nat>)
    requires Ordered(ps) && Increasing(ks) && forall m :: 0 <= m < |ps| ==> ps[m].0 < i
    ensures Ordered(ps + InRow(i, ks))
    ensures forall q: Position :: q in ps + InRow(i, ks) <==> q in ps || (q.0 == i && q.1 in ks)
  {
    var row := InRow(i, ks);
    forall q: Position ensures q in row <==> q.0 == i && q.1 in ks {
      if q.0 == i && q.1 in ks {
        var m :| 0 <= m < |ks| && ks[m] == q.1;
        assert row[m] == q;
      }
    }
  }
}
