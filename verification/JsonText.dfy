/**
  Newline rewriting on JSON text.  With `indent` 0 the serializer turns every newline of
  the formatted text into a space, in place.  Tokens are those of sections 2 and 7 of
  RFC 8259: structural characters, strings, and maximal runs of other characters.
 */
module JsonText {
  import opened Wrappers
  import opened CStrings

  function Replaced(s: string): (r: string)
    ensures |r| == |s|
    ensures forall i :: 0 <= i < |s| ==> r[i] == if s[i] == '\n' then ' ' else s[i]
  {
    seq(|s|, i requires 0 <= i < |s| => if s[i] == '\n' then ' ' else s[i])
  }

  // ----- tokens --------------------------------------------------------------------------

  datatype Token = Structural(c: char) | Quoted(text: string) | Word(text: string)

  predicate IsSpace(c: char) {
    c == ' ' || c == '\t' || c == '\n' || c == '\r'
  }

  predicate IsStructural(c: char) {
    c == '{' || c == '}' || c == '[' || c == ']' || c == ':' || c == ','
  }

  /** Position after the quote that ends the string running at `i`; the end of the text if
      the string is not terminated.  A backslash protects the character after it. */
  function StringEnd(s: string, i: nat): (n: nat)
    requires i <= |s|
    ensures i <= n <= |s|
    decreases |s| - i
  {
    if i == |s| then i
    else if s[i] == '"' then i + 1
    else if s[i] == '\\' && i + 1 < |s| then StringEnd(s, i + 2)
    else StringEnd(s, i + 1)
  }

  function WordEnd(s: string, i: nat): (n: nat)
    requires i <= |s|
    ensures i <= n <= |s| && forall k :: i <= k < n ==> !IsSpace(s[k])
    decreases |s| - i
  {
    if i == |s| || IsSpace(s[i]) || IsStructural(s[i]) || s[i] == '"' then i else WordEnd(s, i + 1)
  }

  /** Where the first token, or the space before it, ends. */
  function LexemeEnd(s: string): (n: nat)
    requires s != []
    ensures 1 <= n <= |s|
  {
    if IsSpace(s[0]) || IsStructural(s[0]) then 1
    else if s[0] == '"' then StringEnd(s, 1)
    else WordEnd(s, 1)
  }

  function FirstToken(s: string): seq<Token>
    requires s != []
  {
    var n := LexemeEnd(s);
    if IsSpace(s[0]) then []
    else if IsStructural(s[0]) then [Structural(s[0])]
    else if s[0] == '"' then [Quoted(s[..n])]
    else [Word(s[..n])]
  }

  function Tokens(s: string): seq<Token>
    decreases |s|
  {
    if s == [] then [] else FirstToken(s) + Tokens(s[LexemeEnd(s)..])
  }

  /** No string literal of the text contains a raw newline. */
  predicate NoNewlineInStrings(s: string)
    decreases |s|
  {
    s == [] ||
    ((s[0] == '"' ==> '\n' !in s[..LexemeEnd(s)]) && NoNewlineInStrings(s[LexemeEnd(s)..]))
  }

  // ----- string literals --------------------------------------------------------------------

  /** One character of a string literal: itself, or behind a backslash. */
  datatype Unit = Plain(c: char) | Escaped(c: char)

  predicate ProperUnit(u: Unit) {
    u.Plain? ==> u.c != '"' && u.c != '\\'
  }

  function Spelled(us: seq<Unit>): string {
    if us == [] then []
    else (if us[0].Plain? then [us[0].c] else ['\\', us[0].c]) + Spelled(us[1..])
  }

  lemma {:induction false} SpelledEnd(before: string, us: seq<Unit>, rest: string)
    requires forall i :: 0 <= i < |us| ==> ProperUnit(us[i])
    ensures StringEnd(before + Spelled(us) + ['"'] + rest, |before|) == |before| + |Spelled(us)| + 1
    decreases |us|
  {
    var s := before + Spelled(us) + ['"'] + rest;
    if us == [] {
      assert s[|before|] == '"';
    } else {
      var first := if us[0].Plain? then [us[0].c] else ['\\', us[0].c];
      assert ProperUnit(us[0]);
      SpelledEnd(before + first, us[1..], rest);
      assert s == before + first + Spelled(us[1..]) + ['"'] + rest;
      assert s[|before|..|before| + |first|] == first;
      assert s[|before|] == first[0];
      if us[0].Escaped? {
        assert StringEnd(s, |before|) == StringEnd(s, |before| + 2);
      }
    }
  }

  /** A string literal, escaped quotes and backslashes included, is one token. */
  lemma LiteralIsOneToken(us: seq<Unit>, rest: string)
    requires forall i :: 0 <= i < |us| ==> ProperUnit(us[i])
    ensures var literal := ['"'] + Spelled(us) + ['"'];
            Tokens(literal + rest) == [Quoted(literal)] + Tokens(rest)
  {
    var literal := ['"'] + Spelled(us) + ['"'];
    SpelledEnd(['"'], us, rest);
    assert literal + rest == ['"'] + Spelled(us) + ['"'] + rest;
    assert (literal + rest)[..|literal|] == literal && (literal + rest)[|literal|..] == rest;
    assert LexemeEnd(literal + rest) == |literal|;
  }

  predicate IsWordChar(c: char) {
    !IsSpace(c) && !IsStructural(c) && c != '"'
  }

  lemma {:induction false} WordEnds(s: string, i: nat, n: nat)
    requires i <= n <= |s| && (forall k :: i <= k < n ==> IsWordChar(s[k])) && (n < |s| ==> !IsWordChar(s[n]))
    ensures WordEnd(s, i) == n
    decreases n - i
  {
    if i < n {
      WordEnds(s, i + 1, n);
    }
  }

  /** Any other maximal run of characters is one token; structural characters stand alone and space
      only separates. */
  lemma RunIsOneToken(word: string, rest: string)
    requires word != [] && (forall k :: 0 <= k < |word| ==> IsWordChar(word[k]))
    requires rest != [] ==> !IsWordChar(rest[0])
    ensures Tokens(word + rest) == [Word(word)] + Tokens(rest)
    ensures rest != [] && IsStructural(rest[0]) ==> Tokens(rest) == [Structural(rest[0])] + Tokens(rest[1..])
    ensures rest != [] && IsSpace(rest[0]) ==> Tokens(rest) == Tokens(rest[1..])
  {
    WordEnds(word + rest, 1, |word|);
    assert (word + rest)[..|word|] == word && (word + rest)[|word|..] == rest;
  }

  // ----- rewriting keeps the boundaries of tokens ---------------------------------------------

  lemma {:induction false} ReplacedStringEnd(s: string, i: nat)
    requires i <= |s|
    ensures StringEnd(Replaced(s), i) == StringEnd(s, i)
    decreases |s| - i
  {
    if i < |s| && s[i] != '"' {
      if s[i] == '\\' && i + 1 < |s| {
        ReplacedStringEnd(s, i + 2);
      } else {
        ReplacedStringEnd(s, i + 1);
      }
    }
  }

  lemma {:induction false} ReplacedWordEnd(s: string, i: nat)
    requires i <= |s|
    ensures WordEnd(Replaced(s), i) == WordEnd(s, i)
    decreases |s| - i
  {
    if i < |s| {
      ReplacedWordEnd(s, i + 1);
    }
  }

  lemma ReplacedLexemeEnd(s: string)
    requires s != []
    ensures LexemeEnd(Replaced(s)) == LexemeEnd(s)
  {
    ReplacedStringEnd(s, 1);
    ReplacedWordEnd(s, 1);
  }

  lemma ReplacedParts(s: string, n: nat)
    requires n <= |s|
    ensures Replaced(s)[..n] == Replaced(s[..n]) && Replaced(s)[n..] == Replaced(s[n..])
  {
  }

  lemma ReplacedSame(s: string)
    ensures Replaced(s) == s <==> '\n' !in s
  {
    if '\n' in s {
      var i :| 0 <= i < |s| && s[i] == '\n';
      assert Replaced(s)[i] == ' ';
    } else {
      assert forall i :: 0 <= i < |s| ==> s[i] in s;
    }
  }

  lemma ReplacedFirstToken(s: string)
    requires s != []
    ensures |FirstToken(Replaced(s))| == |FirstToken(s)|
    ensures FirstToken(Replaced(s)) == FirstToken(s) <==> (s[0] == '"' ==> '\n' !in s[..LexemeEnd(s)])
  {
    var n := LexemeEnd(s);
    ReplacedLexemeEnd(s);
    ReplacedParts(s, n);
    ReplacedSame(s[..n]);
    if !IsSpace(s[0]) && !IsStructural(s[0]) && s[0] != '"' {
      assert forall k :: 0 <= k < n ==> s[..n][k] != '\n';
    }
  }

  /** Rewriting newlines preserves the token sequence exactly when no string literal holds one. */
  lemma {:induction false} RewritingKeepsTokens(s: string)
    ensures |Tokens(Replaced(s))| == |Tokens(s)|
    ensures Tokens(Replaced(s)) == Tokens(s) <==> NoNewlineInStrings(s)
    decreases |s|
  {
    if s != [] {
      var n := LexemeEnd(s);
      ReplacedLexemeEnd(s);
      ReplacedParts(s, n);
      ReplacedFirstToken(s);
      RewritingKeepsTokens(s[n..]);
      var a, b := FirstToken(s), Tokens(s[n..]);
      var a', b' := FirstToken(Replaced(s)), Tokens(Replaced(s[n..]));
      assert Tokens(Replaced(s)) == a' + b' && Tokens(s) == a + b;
      ConcatEqual(a, b, a', b');
    }
  }

  lemma ConcatEqual(a: seq<Token>, b: seq<Token>, a': seq<Token>, b': seq<Token>)
    requires |a| == |a'| && |b| == |b'|
    ensures a + b == a' + b' <==> a == a' && b == b'
  {
    if a + b == a' + b' {
      assert a == (a + b)[..|a|] && a' == (a' + b')[..|a|];
      assert b == (a + b)[|a|..] && b' == (a' + b')[|a|..];
    }
  }

  // ----- C strings in a buffer ------------------------------------------------------------------

  /** The length of a C string depends only on where the terminators are. */
  lemma SameTerminators(b: seq<char>, b': seq<char>)
    requires |b| == |b'| && forall k :: 0 <= k < |b| ==> (b[k] == NUL <==> b'[k] == NUL)
    ensures |CString(b)| == |CString(b')|
  {
    var n, n' := |CString(b)|, |CString(b')|;
    assert forall k :: 0 <= k < n ==> b[k] == CString(b)[k] && b[k] != NUL;
    assert forall k :: 0 <= k < n' ==> b'[k] == CString(b')[k] && b'[k] != NUL;
  }

  lemma InsideCString(b: seq<char>, i: nat)
    requires i <= |CString(b)| && i < |b| && b[i] != NUL
    ensures i < |CString(b)|
  {
  }

  ghost predicate Absent(c: char, b: seq<char>, lo: nat, hi: nat) {
    forall k :: lo <= k < hi && k < |b| ==> b[k] != c
  }

  /** `strchr` from position `p`. */
  method StrChr(buf: array<char>, p: nat, c: char) returns (hit: Option<nat>)
    requires c != NUL && p <= |CString(buf[..])|
    ensures hit.Some? ==> p <= hit.value < |CString(buf[..])| && buf[..][hit.value] == c
    ensures hit.Some? ==> Absent(c, buf[..], p, hit.value)
    ensures hit.None? ==> Absent(c, buf[..], p, |CString(buf[..])|)
  {
    ghost var b := buf[..];
    var i := p;
    while i < buf.Length && buf[i] != NUL
      invariant p <= i <= |CString(b)| && Absent(c, b, p, i)
    {
      InsideCString(b, i);
      if buf[i] == c {
        return Some(i);
      }
      i := i + 1;
    }
    return None;
  }

  /** `now` is `before` with the newlines of its first `p` characters rewritten. */
  ghost predicate RewrittenUpTo(before: seq<char>, now: seq<char>, p: nat) {
    && |now| == |before| && p <= |CString(before)|
    && forall k :: 0 <= k < |now| ==> now[k] == if k < p && before[k] == '\n' then ' ' else before[k]
  }

  lemma RewritingStep(before: seq<char>, now: seq<char>, p: nat, i: nat)
    requires RewrittenUpTo(before, now, p) && p <= i < |CString(before)| && now[i] == '\n'
    requires Absent('\n', now, p, i)
    ensures RewrittenUpTo(before, now[i := ' '], i + 1)
  {
  }

  lemma RewritingKeepsLength(before: seq<char>, now: seq<char>, p: nat)
    requires RewrittenUpTo(before, now, p)
    ensures |CString(now)| == |CString(before)|
  {
    SameTerminators(before, now);
  }

  lemma RewritingDone(before: seq<char>, now: seq<char>, p: nat)
    requires RewrittenUpTo(before, now, p)
    requires Absent('\n', now, p, |CString(before)|)
    ensures CString(now) == Replaced(CString(before))
    ensures now == Replaced(CString(before)) + before[|CString(before)|..]
    ensures NUL in before ==> NUL in now
  {
    var text := CString(before);
    SameTerminators(before, now);
    assert now[..|text|] == Replaced(text);
    assert NUL in before ==> now[|text|] == NUL;
  }

  /** Every newline of the C string becomes a space; nothing else changes, nor its length. */
  method ReplaceNewlines(buf: array<char>)
    modifies buf
    ensures CString(buf[..]) == Replaced(old(CString(buf[..])))
    ensures NUL in old(buf[..]) ==> NUL in buf[..]
    ensures buf[..] == Replaced(old(CString(buf[..]))) + old(buf[..])[|old(CString(buf[..]))|..]
  {
    ghost var before, p := buf[..], 0;
    var hit := StrChr(buf, 0, '\n');
    while hit.Some?
      invariant RewrittenUpTo(before, buf[..], p)
      invariant hit.Some? ==> p <= hit.value < |CString(before)| && buf[..][hit.value] == '\n'
      invariant hit.Some? ==> Absent('\n', buf[..], p, hit.value)
      invariant hit.None? ==> Absent('\n', buf[..], p, |CString(before)|)
      decreases buf.Length - p
    {
      var i := hit.value;
      ghost var now := buf[..];
      RewritingStep(before, now, p, i);
      buf[i] := ' ';
      assert buf[..] == now[i := ' '];
      p := i + 1;
      RewritingKeepsLength(before, buf[..], p);
      hit := StrChr(buf, i + 1, '\n');
    }
    RewritingDone(before, buf[..], p);
  }
}
