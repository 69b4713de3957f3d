/**
  Filename-style patterns, as section 2.13 of the POSIX.1-2017 Shell Command Language
  defines them for a matcher called without flags.
 */
module Glob {

  datatype Token =
    | Star
    | AnyChar
    | Literal(c: char)
    | Bracket(negated: bool, ranges: seq<(char, char)>)

  /** Position of the bracket that ends a bracket expression, or 0 when there is none. */
  function ClosingBracket(p: string, i: nat): (k: nat)
    requires 0 < i
    ensures k == 0 || (i <= k < |p| && p[k] == ']')
    decreases |p| - i
  {
    if i >= |p| then 0 else if p[i] == ']' then i else ClosingBracket(p, i + 1)
  }

  function Ranges(s: string): seq<(char, char)> {
    if s == [] then []
    else if |s| >= 3 && s[1] == '-' then [(s[0], s[2])] + Ranges(s[3..])
    else [(s[0], s[0])] + Ranges(s[1..])
  }

  function Tokenize(p: string): seq<Token> {
    if p == [] then []
    else if p[0] == '*' then [Star] + Tokenize(p[1..])
    else if p[0] == '?' then [AnyChar] + Tokenize(p[1..])
    else if p[0] == '\\' && |p| > 1 then [Literal(p[1])] + Tokenize(p[2..])
    else if p[0] == '[' then
      var negated := |p| > 1 && p[1] == '!';
      var first := if negated then 2 else 1;
      var k := ClosingBracket(p, first + 1);
      if k == 0 then [Literal('[')] + Tokenize(p[1..])
      else [Bracket(negated, Ranges(p[first..k]))] + Tokenize(p[k + 1..])
    else [Literal(p[0])] + Tokenize(p[1..])
  }

  predicate Accepts(t: Token, c: char) {
    match t
    case Star => false
    case AnyChar => true
    case Literal(d) => c == d
    case Bracket(negated, ranges) => negated != exists r :: r in ranges && r.0 <= c <= r.1
  }

  predicate MatchTokens(ts: seq<Token>, s: string)
    decreases |ts| + |s|
  {
    if ts == [] then s == []
    else if ts[0].Star? then MatchTokens(ts[1..], s) || (s != [] && MatchTokens(ts, s[1..]))
    else s != [] && Accepts(ts[0], s[0]) && MatchTokens(ts[1..], s[1..])
  }

  predicate Matches(p: string, s: string) {
    MatchTokens(Tokenize(p), s)
  }

  // ----- bracket expressions and escapes -----------------------------------------

  /** The first token stands for one character, the others match the rest. */
  lemma MatchesFirst(p: string, t: Token, rest: string, s: string)
    requires Tokenize(p) == [t] + Tokenize(rest) && !t.Star?
    ensures Matches(p, s) <==> s != [] && Accepts(t, s[0]) && Matches(rest, s[1..])
  {
    assert ([t] + Tokenize(rest))[1..] == Tokenize(rest);
  }

  /** A range matches one character between its ends. */
  lemma RangeMatches(low: char, high: char, rest: string, s: string)
    requires low != '!' && high != ']'
    ensures Matches(['[', low, '-', high, ']'] + rest, s) <==>
            s != [] && low <= s[0] <= high && Matches(rest, s[1..])
  {
    var p := ['[', low, '-', high, ']'] + rest;
    assert ClosingBracket(p, 4) == 4 && ClosingBracket(p, 3) == 4 && ClosingBracket(p, 2) == 4;
    assert p[1..4] == [low, '-', high] && p[5..] == rest;
    OneRange(low, high);
    var t := Bracket(false, [(low, high)]);
    assert (low, high) in t.ranges;
    MatchesFirst(p, t, rest, s);
  }

  lemma OneRange(low: char, high: char)
    ensures Ranges([low, '-', high]) == [(low, high)]
  {
    assert [low, '-', high][3..] == [];
  }

  /** A negated expression matches one other character. */
  lemma NegatedMatches(c: char, rest: string, s: string)
    ensures Matches(['[', '!', c, ']'] + rest, s) <==> s != [] && s[0] != c && Matches(rest, s[1..])
  {
    var p := ['[', '!', c, ']'] + rest;
    assert ClosingBracket(p, 3) == 3;
    assert p[2..3] == [c] && p[4..] == rest;
    assert [c][1..] == [];
    assert Ranges([c]) == [(c, c)];
    var t := Bracket(true, [(c, c)]);
    assert (c, c) in t.ranges;
    MatchesFirst(p, t, rest, s);
  }

  /** An escaped character matches itself, whatever it is. */
  lemma EscapeMatches(c: char, rest: string, s: string)
    ensures Matches(['\\', c] + rest, s) <==> s != [] && s[0] == c && Matches(rest, s[1..])
  {
    var p := ['\\', c] + rest;
    assert p[2..] == rest;
    MatchesFirst(p, Literal(c), rest, s);
  }

  /** An opening bracket that nothing closes matches itself. */
  lemma UnclosedMatches(rest: string, s: string)
    requires ']' !in rest
    ensures Matches(['['] + rest, s) <==> s != [] && s[0] == '[' && Matches(rest, s[1..])
  {
    var p := ['['] + rest;
    assert p[1..] == rest;
    var first := if |p| > 1 && p[1] == '!' then 2 else 1;
    forall i | 0 <= i < |p| ensures p[i] != ']' {
      assert i > 0 ==> p[i] == rest[i - 1] && rest[i - 1] in rest;
    }
    assert ClosingBracket(p, first + 1) == 0;
    MatchesFirst(p, Literal('['), rest, s);
  }

  // ----- patterns without bracket expressions or escapes -----------------------

  /** The only special characters are `*` and `?`. */
  predicate Simple(p: string) {
    '[' !in p && '\\' !in p
  }

  /** The only special character is `*`. */
  predicate StarOnly(p: string) {
    Simple(p) && '?' !in p
  }

  /** The same relation read off the text of a simple pattern. */
  predicate SimpleMatch(p: string, s: string)
    decreases |p| + |s|
  {
    if p == [] then s == []
    else if p[0] == '*' then SimpleMatch(p[1..], s) || (s != [] && SimpleMatch(p, s[1..]))
    else s != [] && (p[0] == '?' || p[0] == s[0]) && SimpleMatch(p[1..], s[1..])
  }

  lemma {:induction false} SimpleMatches(p: string, s: string)
    requires Simple(p)
    ensures Matches(p, s) <==> SimpleMatch(p, s)
    decreases |p| + |s|
  {
    if p != [] {
      assert p[0] in p;
      assert Simple(p[1..]);
      var ts := Tokenize(p);
      assert ts[1..] == Tokenize(p[1..]);
      SimpleMatches(p[1..], s);
      if s != [] {
        SimpleMatches(p, s[1..]);
        SimpleMatches(p[1..], s[1..]);
      }
    }
  }

  /** Every simple pattern matches its own text. */
  lemma {:induction false} SimpleReflexive(p: string)
    ensures SimpleMatch(p, p)
  {
    if p != [] {
      SimpleReflexive(p[1..]);
      if p[0] == '*' {
        assert SimpleMatch(p, p[1..]);
      }
    }
  }

  /** `p` matches the text of pattern `q` with no `?` of `p` standing for a `*` of `q`. */
  predicate Subsumes(p: string, q: string)
    decreases |p| + |q|
  {
    if p == [] then q == []
    else if p[0] == '*' then Subsumes(p[1..], q) || (q != [] && Subsumes(p, q[1..]))
    else q != [] && (p[0] == q[0] || (p[0] == '?' && q[0] != '*')) && Subsumes(p[1..], q[1..])
  }

  lemma {:induction false} StarOnlySubsumes(p: string, q: string)
    requires StarOnly(p) && SimpleMatch(p, q)
    ensures Subsumes(p, q)
    decreases |p| + |q|
  {
    if p != [] {
      assert p[0] in p;
      if p[0] == '*' {
        if SimpleMatch(p[1..], q) {
          StarOnlySubsumes(p[1..], q);
        } else {
          StarOnlySubsumes(p, q[1..]);
        }
      } else {
        StarOnlySubsumes(p[1..], q[1..]);
      }
    }
  }

  /** If `p` subsumes `q`, it matches everything `q` matches. */
  lemma {:induction false} SubsumesSound(p: string, q: string, k: string)
    requires Subsumes(p, q) && SimpleMatch(q, k)
    ensures SimpleMatch(p, k)
    decreases |p| + |q| + |k|
  {
    if p == [] {
    } else if p[0] == '*' {
      if Subsumes(p[1..], q) {
        SubsumesSound(p[1..], q, k);
      } else if q[0] == '*' {
        if SimpleMatch(q[1..], k) {
          SubsumesSound(p, q[1..], k);
        } else {
          SubsumesSound(p, q, k[1..]);
        }
      } else {
        SubsumesSound(p, q[1..], k[1..]);
      }
    } else {
      SubsumesSound(p[1..], q[1..], k[1..]);
    }
  }

  // ----- when exactly one pattern covers another ----------------------------------

  function Repeat(f: char, n: nat): (s: string)
    ensures |s| == n
  {
    if n == 0 then [] else [f] + Repeat(f, n - 1)
  }

  /** Finitely many instances of `q`: every `?` becomes `f`, every `*` becomes up to `n`
      copies of `f`. */
  function Instances(q: string, f: char, n: nat): set<string> {
    if q == [] then {[]}
    else if q[0] == '*' then
      set i, e | 0 <= i <= n && e in Instances(q[1..], f, n) :: Repeat(f, i) + e
    else
      set e | e in Instances(q[1..], f, n) :: [if q[0] == '?' then f else q[0]] + e
  }

  lemma {:induction false} InstanceMatches(q: string, f: char, n: nat, e: string)
    requires e in Instances(q, f, n)
    ensures SimpleMatch(q, e)
  {
    if q != [] {
      if q[0] == '*' {
        var i, e' :| 0 <= i <= n && e' in Instances(q[1..], f, n) && e == Repeat(f, i) + e';
        InstanceMatches(q[1..], f, n, e');
        assert [] + e' == e';
        StarAbsorbs(q, Repeat(f, i), e');
      } else {
        var e' :| e' in Instances(q[1..], f, n) && e == [if q[0] == '?' then f else q[0]] + e';
        InstanceMatches(q[1..], f, n, e');
        assert e[1..] == e';
      }
    }
  }

  /** A leading `*` may stand for any text. */
  lemma {:induction false} StarAbsorbs(q: string, w: string, s: string)
    requires q != [] && q[0] == '*' && SimpleMatch(q[1..], s)
    ensures SimpleMatch(q, w + s)
    decreases |w|
  {
    if w == [] {
      assert w + s == s;
    } else {
      StarAbsorbs(q, w[1..], s);
      assert (w + s)[1..] == w[1..] + s;
    }
  }

  /** What a leading `*` stood for. */
  lemma {:induction false} StarSplits(q: string, k: string) returns (w: string, s: string)
    requires q != [] && q[0] == '*' && SimpleMatch(q, k)
    ensures k == w + s && SimpleMatch(q[1..], s)
    decreases |k|
  {
    if SimpleMatch(q[1..], k) {
      w, s := [], k;
    } else {
      w, s := StarSplits(q, k[1..]);
      w := [k[0]] + w;
    }
  }

  /** A character foreign to the pattern was matched by a wildcard, so any other would be. */
  lemma {:induction false} ForeignReplaced(p: string, u: string, f: char, d: char, v: string)
    requires f !in p && SimpleMatch(p, u + [f] + v)
    ensures SimpleMatch(p, u + [d] + v)
    decreases |p| + |u|
  {
    var s, s' := u + [f] + v, u + [d] + v;
    if p != [] {
      assert p[0] in p;
      if u == [] {
        assert s[1..] == v && s'[1..] == v;
        if p[0] == '*' && SimpleMatch(p[1..], s) {
          ForeignReplaced(p[1..], u, f, d, v);
        }
      } else {
        assert s[1..] == u[1..] + [f] + v && s'[1..] == u[1..] + [d] + v;
        if p[0] == '*' {
          if SimpleMatch(p[1..], s) {
            ForeignReplaced(p[1..], u, f, d, v);
          } else {
            ForeignReplaced(p, u[1..], f, d, v);
          }
        } else {
          ForeignReplaced(p[1..], u[1..], f, d, v);
        }
      }
    }
  }

  lemma {:induction false} RunReplaced(p: string, u: string, f: char, w: string, v: string)
    requires f !in p && SimpleMatch(p, u + Repeat(f, |w|) + v)
    ensures SimpleMatch(p, u + w + v)
    decreases |w|
  {
    if w == [] {
      assert Repeat(f, 0) == w;
    } else {
      var rest := Repeat(f, |w| - 1) + v;
      assert u + Repeat(f, |w|) + v == u + [f] + rest;
      ForeignReplaced(p, u, f, w[0], rest);
      assert u + [w[0]] + rest == (u + [w[0]]) + Repeat(f, |w| - 1) + v;
      RunReplaced(p, u + [w[0]], f, w[1..], v);
      assert (u + [w[0]]) + w[1..] + v == u + w + v;
    }
  }

  lemma RunRest(f: char, n: nat, v: string)
    requires n > 0
    ensures (Repeat(f, n) + v)[1..] == Repeat(f, n - 1) + v && (Repeat(f, n) + v)[0] == f
  {
  }

  /** More foreign characters in a row than the pattern is long: some `*` took one, and
      would take another. */
  lemma {:induction false} LeadingRunPumped(p: string, f: char, n: nat, v: string)
    requires f !in p && n > |p| && SimpleMatch(p, Repeat(f, n) + v)
    ensures SimpleMatch(p, Repeat(f, n + 1) + v)
    decreases |p|
  {
    if p != [] {
      RunRest(f, n, v);
      RunRest(f, n + 1, v);
      assert p[0] in p;
      if p[0] != '*' {
        LeadingRunPumped(p[1..], f, n - 1, v);
      }
    }
  }

  lemma {:induction false} RunPumped(p: string, u: string, f: char, n: nat, v: string, x: string, y: string)
    requires f !in p && n > |p| && x == Repeat(f, n) + v && y == Repeat(f, n + 1) + v
    requires SimpleMatch(p, u + x)
    ensures SimpleMatch(p, u + y)
    decreases |p| + |u|
  {
    if u == [] {
      assert u + x == x && u + y == y;
      LeadingRunPumped(p, f, n, v);
    } else if p != [] {
      assert (u + x)[1..] == u[1..] + x && (u + y)[1..] == u[1..] + y;
      if p[0] == '*' {
        if SimpleMatch(p[1..], u + x) {
          RunPumped(p[1..], u, f, n, v, x, y);
        } else {
          RunPumped(p, u[1..], f, n, v, x, y);
        }
      } else {
        RunPumped(p[1..], u[1..], f, n, v, x, y);
      }
    }
  }

  lemma {:induction false} RunExtended(p: string, u: string, f: char, n: nat, m: nat, v: string)
    requires f !in p && |p| < n <= m && SimpleMatch(p, u + Repeat(f, n) + v)
    ensures SimpleMatch(p, u + Repeat(f, m) + v)
    decreases m - n
  {
    if n < m {
      var x, y := Repeat(f, n) + v, Repeat(f, n + 1) + v;
      assert u + Repeat(f, n) + v == u + x && u + Repeat(f, n + 1) + v == u + y;
      RunPumped(p, u, f, n, v, x, y);
      RunExtended(p, u, f, n + 1, m, v);
    }
  }

  /** One step towards the instance: what the head of `q` stood for, replaced by `f`s. */
  lemma HeadReplaced(p: string, q: string, f: char, n: nat, u: string, w: string, h: string, v: string)
    requires f !in p && |p| < n && q != [] && SimpleMatch(p, u + h + v)
    requires q[0] == '*' ==> h == Repeat(f, if |w| <= n then |w| else n)
    requires q[0] != '*' ==> |w| == 1 && h == [if q[0] == '?' then f else w[0]]
    ensures SimpleMatch(p, u + w + v)
  {
    if q[0] == '*' {
      if |w| > n {
        RunExtended(p, u, f, n, |w|, v);
      }
      RunReplaced(p, u, f, w, v);
    } else if q[0] == '?' {
      ForeignReplaced(p, u, f, w[0], v);
      assert w == [w[0]];
    } else {
      assert w == h;
    }
  }

  /** Every pattern that is short enough and does not mention `f` matches `u + k` if it
      matches `u + e`. */
  ghost predicate StandsIn(f: char, n: nat, u: string, e: string, k: string) {
    forall p :: f !in p && |p| < n && SimpleMatch(p, u + e) ==> SimpleMatch(p, u + k)
  }

  lemma StandsInStep(q: string, f: char, n: nat, u: string, w: string, h: string, e: string, k: string)
    requires StandsIn(f, n, u + w, e, k) && q != []
    requires q[0] == '*' ==> h == Repeat(f, if |w| <= n then |w| else n)
    requires q[0] != '*' ==> |w| == 1 && h == [if q[0] == '?' then f else w[0]]
    ensures StandsIn(f, n, u, h + e, w + k)
  {
    forall p | f !in p && |p| < n && SimpleMatch(p, u + (h + e)) ensures SimpleMatch(p, u + (w + k)) {
      assert u + (h + e) == u + h + e;
      HeadReplaced(p, q, f, n, u, w, h, e);
      assert (u + w) + k == u + (w + k);
    }
  }

  /** Every text `q` matches has an instance of `q` that stands in for it. */
  lemma {:induction false} InstanceFor(q: string, f: char, n: nat, u: string, k: string) returns (e: string)
    requires SimpleMatch(q, k)
    ensures e in Instances(q, f, n) && StandsIn(f, n, u, e, k)
    decreases |q|
  {
    if q == [] {
      return [];
    }
    var w, k', h;
    if q[0] == '*' {
      w, k' := StarSplits(q, k);
      h := Repeat(f, if |w| <= n then |w| else n);
    } else {
      w, k' := [k[0]], k[1..];
      h := [if q[0] == '?' then f else q[0]];
    }
    var e' := InstanceFor(q[1..], f, n, u + w, k');
    e := h + e';
    StandsInStep(q, f, n, u, w, h, e', k');
    assert k == w + k';
  }

  /** `p` matches everything `q` matches. */
  ghost predicate Covers(p: string, q: string) {
    forall k :: SimpleMatch(q, k) ==> SimpleMatch(p, k)
  }

  predicate MatchesInstances(p: string, q: string, f: char) {
    forall e :: e in Instances(q, f, |p| + 1) ==> SimpleMatch(p, e)
  }

  /** One simple pattern covers another exactly when it matches finitely many instances
      of it, built from a character it does not mention. */
  lemma CoverageDecided(p: string, q: string, f: char)
    requires f !in p
    ensures Covers(p, q) <==> MatchesInstances(p, q, f)
  {
    if Covers(p, q) {
      forall e | e in Instances(q, f, |p| + 1) ensures SimpleMatch(p, e) {
        InstanceMatches(q, f, |p| + 1, e);
      }
    }
    if MatchesInstances(p, q, f) {
      forall k | SimpleMatch(q, k) ensures SimpleMatch(p, k) {
        var e := InstanceFor(q, f, |p| + 1, [], k);
        assert [] + e == e && [] + k == k;
      }
    }
  }
}
