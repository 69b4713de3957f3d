/**
  Dotted member paths: splitting a string at a delimiter, and the two functions that look
  up the type of a nested member, one splitting the path, the other tokenizing it.
 */
module DottedPath {
  import opened Wrappers
  import opened DynamicTypes

  /** `find` from a position on. */
  function FindFrom(s: string, d: char, i: nat): (r: Option<nat>)
    requires i <= |s|
    ensures r.Some? ==> i <= r.value < |s| && s[r.value] == d && forall k :: i <= k < r.value ==> s[k] != d
    ensures r.None? ==> forall k :: i <= k < |s| ==> s[k] != d
    decreases |s| - i
  {
    if i == |s| then None else if s[i] == d then Some(i) else FindFrom(s, d, i + 1)
  }

  /** The parts of `s` from position `p` on. */
  function SplitFrom(s: string, d: char, p: nat): (parts: seq<string>)
    requires p <= |s|
    ensures parts != []
    decreases |s| - p
  {
    match FindFrom(s, d, p)
    case None => [s[p..]]
    case Some(i) => [s[p..i]] + SplitFrom(s, d, i + 1)
  }

  function Split(s: string, d: char): seq<string> {
    SplitFrom(s, d, 0)
  }

  function Join(parts: seq<string>, d: char): string
    requires parts != []
  {
    if |parts| == 1 then parts[0] else parts[0] + [d] + Join(parts[1..], d)
  }

  predicate FreeOf(parts: seq<string>, d: char) {
    forall i :: 0 <= i < |parts| ==> d !in parts[i]
  }

  lemma NextPart(before: seq<string>, part: string, rest: seq<string>)
    ensures before + ([part] + rest) == before + [part] + rest
  {
  }

  /** `split`. */
  method SplitString(input: string, delim: char) returns (output: seq<string>)
    ensures output == Split(input, delim)
  {
    output := [];
    var prev: Option<nat> := Some(0);
    while prev.Some?
      invariant prev.Some? ==> prev.value <= |input|
      invariant prev.Some? ==> output + SplitFrom(input, delim, prev.value) == Split(input, delim)
      invariant prev.None? ==> output == Split(input, delim)
      decreases prev.Some?, if prev.Some? then |input| - prev.value else 0
    {
      var p := prev.value;
      var found := FindFrom(input, delim, p);
      ghost var before := output;
      if found.Some? {
        var part := input[p..found.value];
        output := output + [part];
        prev := Some(found.value + 1);
        NextPart(before, part, SplitFrom(input, delim, found.value + 1));
      } else {
        output := output + [input[p..]];
        prev := None;
      }
    }
  }

  lemma {:induction false} JoinSplitFrom(s: string, d: char, p: nat)
    requires p <= |s|
    ensures Join(SplitFrom(s, d, p), d) == s[p..] && FreeOf(SplitFrom(s, d, p), d)
    decreases |s| - p
  {
    match FindFrom(s, d, p)
    case None =>
    case Some(i) =>
      JoinSplitFrom(s, d, i + 1);
      assert s[p..] == s[p..i] + [d] + s[i + 1..];
  }

  /** Joining the parts restores the string, and no part contains the delimiter. */
  lemma JoinSplit(s: string, d: char)
    ensures Join(Split(s, d), d) == s && FreeOf(Split(s, d), d)
  {
    JoinSplitFrom(s, d, 0);
    assert s[0..] == s;
  }

  lemma {:induction false} JoinInjective(a: seq<string>, b: seq<string>, d: char)
    requires a != [] && b != [] && FreeOf(a, d) && FreeOf(b, d) && Join(a, d) == Join(b, d)
    ensures a == b
    decreases |a|
  {
    var s := Join(a, d);
    FirstPart(a, d);
    FirstPart(b, d);
    assert |a[0]| == |b[0]|;
    assert a[0] == s[..|a[0]|] == b[0];
    if |a| > 1 {
      assert Join(a[1..], d) == s[|a[0]| + 1..] == Join(b[1..], d);
      JoinInjective(a[1..], b[1..], d);
      assert a == [a[0]] + a[1..] && b == [b[0]] + b[1..];
    }
  }

  /** The first part of a join ends at the first delimiter. */
  lemma FirstPart(a: seq<string>, d: char)
    requires a != [] && FreeOf(a, d)
    ensures var s, n := Join(a, d), |a[0]|;
            && n <= |s| && s[..n] == a[0] && (forall k :: 0 <= k < n ==> s[k] != d)
            && (|a| == 1 <==> n == |s|) && (|a| > 1 ==> s[n] == d)
  {
    assert forall k :: 0 <= k < |a[0]| ==> a[0][k] in a[0];
  }

  /** And splitting a join gives back the parts. */
  lemma SplitJoin(parts: seq<string>, d: char)
    requires parts != [] && FreeOf(parts, d)
    ensures Split(Join(parts, d), d) == parts
  {
    var s := Join(parts, d);
    JoinSplit(s, d);
    JoinInjective(Split(s, d), parts, d);
  }

  // ----- tokenizing ----------------------------------------------------------------------------

  predicate NoEmptyPart(parts: seq<string>) {
    forall i :: 0 <= i < |parts| ==> parts[i] != []
  }

  function NonEmpty(parts: seq<string>): seq<string> {
    if parts == [] then []
    else (if parts[0] == [] then [] else [parts[0]]) + NonEmpty(parts[1..])
  }

  lemma {:induction false} NonEmptySame(parts: seq<string>)
    requires NoEmptyPart(parts)
    ensures NonEmpty(parts) == parts
  {
    if parts != [] {
      NonEmptySame(parts[1..]);
    }
  }

  lemma NonEmptyCons(part: string, rest: seq<string>)
    ensures NonEmpty([part] + rest) == (if part == [] then [] else [part]) + NonEmpty(rest)
  {
    assert ([part] + rest)[1..] == rest;
  }

  datatype Token = Token(text: string, next: nat)

  /** `strToken` from position `p`: skip delimiters, then take everything up to the next one. */
  function NextToken(s: string, d: char, p: nat): (t: Option<Token>)
    requires p <= |s|
    ensures t.Some? ==> p < t.value.next <= |s|
    decreases |s| - p
  {
    if p == |s| then None
    else if s[p] == d then NextToken(s, d, p + 1)
    else
      match FindFrom(s, d, p)
      case None => Some(Token(s[p..], |s|))
      case Some(i) => Some(Token(s[p..i], i + 1))
  }

  /** Tokens are the non-empty parts. */
  lemma {:induction false} NextTokenIsNextPart(s: string, d: char, p: nat)
    requires p <= |s|
    ensures NonEmpty(SplitFrom(s, d, p)) ==
            match NextToken(s, d, p)
            case None => []
            case Some(t) => [t.text] + NonEmpty(SplitFrom(s, d, t.next))
    decreases |s| - p
  {
    var empty: string := [];
    if p == |s| {
      NonEmptyCons(empty, []);
      assert s[p..] == empty && [empty] + [] == [empty];
    } else if s[p] == d {
      assert s[p..p] == empty;
      NonEmptyCons(empty, SplitFrom(s, d, p + 1));
      NextTokenIsNextPart(s, d, p + 1);
    } else {
      match FindFrom(s, d, p)
      case None =>
        NonEmptyCons(s[p..], []);
        assert [s[p..]] + [] == [s[p..]];
        NextTokenIsNextPart(s, d, |s|);
      case Some(i) =>
        NonEmptyCons(s[p..i], SplitFrom(s, d, i + 1));
    }
  }

  // ----- type lookup ------------------------------------------------------------------------------

  /** A member of a struct, by name. */
  function StructMember(t: Ty, name: string): Option<Ty> {
    if !t.Struct? then None
    else
      match MemberIndex(t, name)
      case None => None
      case Some(i) => Some(t.members[i].ty)
  }

  /** A member of a struct or union: what the type-code functions of the C API accept. */
  function AnyMember(t: Ty, name: string): Option<Ty> {
    if t.Union? then
      match MemberIndex(t, name)
      case None => None
      case Some(i) => Some(t.cases[i].ty)
    else StructMember(t, name)
  }

  function FollowStructs(t: Ty, names: seq<string>): Option<Ty> {
    if names == [] then Some(t)
    else
      match StructMember(t, names[0])
      case None => None
      case Some(u) => FollowStructs(u, names[1..])
  }

  function FollowAny(t: Ty, names: seq<string>): Option<Ty> {
    if names == [] then Some(t)
    else
      match AnyMember(t, names[0])
      case None => None
      case Some(u) => FollowAny(u, names[1..])
  }

  /** `get_member_type` of the C++ helpers: None stands for the exception. */
  method GetMemberTypeBySplitting(t: Ty, path: string) returns (r: Option<Ty>)
    requires t.Struct?
    ensures r == FollowStructs(t, Split(path, '.'))
  {
    if '.' in path {
      var parts := SplitString(path, '.');
      r := StructMember(t, parts[0]);
      if r.None? {
        return None;
      }
      var i := 1;
      while i < |parts|
        invariant 1 <= i <= |parts| && r.Some?
        invariant FollowStructs(t, parts) == FollowStructs(r.value, parts[i..])
      {
        if !r.value.Struct? {
          return None;
        }
        r := StructMember(r.value, parts[i]);
        if r.None? {
          return None;
        }
        assert parts[i..][1..] == parts[i + 1..];
        i := i + 1;
      }
    } else {
      assert FindFrom(path, '.', 0).None? && path[0..] == path;
      assert Split(path, '.') == [path] && [path][1..] == [];
      r := StructMember(t, path);
    }
  }

  /** The names the C helper follows: a path without dots is one name; otherwise its tokens. */
  function PathNames(path: string): seq<string> {
    if '.' in path then NonEmpty(Split(path, '.')) else [path]
  }

  /** `RTI_COMMON_TypeCode_get_member_type`. */
  method GetMemberTypeByTokens(t: Ty, path: string) returns (r: Option<Ty>)
    ensures r == FollowAny(t, PathNames(path))
  {
    if '.' !in path {
      r := AnyMember(t, path);
      assert [path][1..] == [];
      return;
    }
    var position := 0;
    var current := t;
    var token := NextToken(path, '.', 0);
    while token.Some?
      invariant position <= |path| && token == NextToken(path, '.', position)
      invariant FollowAny(t, PathNames(path)) == FollowAny(current, NonEmpty(SplitFrom(path, '.', position)))
      decreases |path| - position
    {
      NextTokenIsNextPart(path, '.', position);
      var rest := NonEmpty(SplitFrom(path, '.', token.value.next));
      assert ([token.value.text] + rest)[1..] == rest;
      var next := AnyMember(current, token.value.text);
      if next.None? {
        return None;
      }
      current := next.value;
      position := token.value.next;
      token := NextToken(path, '.', position);
    }
    NextTokenIsNextPart(path, '.', position);
    return Some(current);
  }

  // ----- what a path names --------------------------------------------------------------------------

  /** `u` is the type of the member called `name`. */
  predicate NamesMember(t: Ty, name: string, u: Ty) {
    match t
    case Struct(ms) => exists i :: 0 <= i < |ms| && ms[i].name == name && ms[i].ty == u
    case Union(_, cs) => exists i :: 0 <= i < |cs| && cs[i].name == name && cs[i].ty == u
    case _ => false
  }

  lemma MemberFound(t: Ty, name: string, u: Ty)
    requires Distinct(MemberNames(t)) && NamesMember(t, name, u)
    ensures AnyMember(t, name) == Some(u)
    ensures StructMember(t, name) == if t.Struct? then Some(u) else None
  {
    var i :| 0 <= i < |MemberNames(t)| && MemberNames(t)[i] == name
               && u == if t.Struct? then t.members[i].ty else t.cases[i].ty;
    DistinctIndex(MemberNames(t), i);
  }

  /** Splitting a path behind its first name. */
  lemma SplitPath(name: string, rest: string)
    requires '.' !in name
    ensures Split(name, '.') == [name]
    ensures Split(name + "." + rest, '.') == [name] + Split(rest, '.')
  {
    SplitJoin([name], '.');
    var parts := Split(rest, '.');
    JoinSplit(rest, '.');
    assert ([name] + parts)[1..] == parts;
    SplitJoin([name] + parts, '.');
  }

  /** A member's name names its type, and behind a dot follows a path of that type: a struct's in
      both lookups, a union's in the tokenizing one. */
  lemma PathNamesMember(t: Ty, name: string, u: Ty, rest: string)
    requires Distinct(MemberNames(t)) && NamesMember(t, name, u) && '.' !in name
    ensures FollowAny(t, PathNames(name)) == Some(u)
    ensures name != [] && rest != [] ==>
            FollowAny(t, PathNames(name + "." + rest)) == FollowAny(u, PathNames(rest))
    ensures t.Struct? ==> FollowStructs(t, Split(name, '.')) == Some(u)
    ensures t.Struct? ==>
            FollowStructs(t, Split(name + "." + rest, '.')) == FollowStructs(u, Split(rest, '.'))
  {
    MemberFound(t, name, u);
    SplitPath(name, rest);
    assert [name][1..] == [];
    assert ([name] + Split(rest, '.'))[1..] == Split(rest, '.');
    if name != [] && rest != [] {
      NamesBehind(name, rest);
      assert ([name] + PathNames(rest))[1..] == PathNames(rest);
    }
  }

  lemma NamesBehind(name: string, rest: string)
    requires '.' !in name && name != [] && rest != []
    ensures PathNames(name + "." + rest) == [name] + PathNames(rest)
  {
    SplitPath(name, rest);
    assert (name + "." + rest)[|name|] == '.';
    NonEmptyCons(name, Split(rest, '.'));
    if '.' !in rest {
      SplitPath(rest, []);
      NonEmptyCons(rest, []);
      assert [rest] + [] == [rest];
    }
  }

  /** A name that no member has, and a path that starts with one, name nothing. */
  lemma PathNamesNothing(t: Ty, name: string, rest: string)
    requires '.' !in name && name !in MemberNames(t)
    ensures FollowAny(t, PathNames(name)) == None && FollowStructs(t, Split(name, '.')) == None
    ensures FollowStructs(t, Split(name + "." + rest, '.')) == None
    ensures name != [] && rest != [] ==> FollowAny(t, PathNames(name + "." + rest)) == None
  {
    SplitPath(name, rest);
    if name != [] && rest != [] {
      NamesBehind(name, rest);
    }
  }

  // ----- when the two lookups agree -----------------------------------------------------------------

  /** Following the names goes through a member of a union. */
  predicate ThroughUnion(t: Ty, names: seq<string>) {
    names != [] &&
    (t.Union? ||
     match AnyMember(t, names[0])
     case None => false
     case Some(u) => ThroughUnion(u, names[1..]))
  }

  lemma {:induction false} FollowAgrees(t: Ty, names: seq<string>)
    ensures FollowStructs(t, names) == if ThroughUnion(t, names) then None else FollowAny(t, names)
    decreases |names|
  {
    if names != [] && AnyMember(t, names[0]).Some? {
      FollowAgrees(AnyMember(t, names[0]).value, names[1..]);
    }
  }

  /** No member, at any depth, has an empty name. */
  predicate NamesNonEmpty(t: Ty) {
    match t
    case Prim(_, _, _) => true
    case Struct(ms) => forall i :: 0 <= i < |ms| ==> ms[i].name != [] && NamesNonEmpty(ms[i].ty)
    case Union(_, cs) => forall i :: 0 <= i < |cs| ==> cs[i].name != [] && NamesNonEmpty(cs[i].ty)
    case Arr(e, _) => NamesNonEmpty(e)
    case Sequence(e, _) => NamesNonEmpty(e)
  }

  lemma {:induction false} EmptyNameFails(t: Ty, names: seq<string>)
    requires NamesNonEmpty(t) && !NoEmptyPart(names)
    ensures FollowStructs(t, names).None?
    decreases |names|
  {
    var u := StructMember(t, names[0]);
    if u.Some? {
      var i :| 0 <= i < |names| && names[i] == [];
      assert names[1..][i - 1] == [];
      EmptyNameFails(u.value, names[1..]);
    }
  }

  /** For every path: the two lookups agree exactly when tokenizing finds nothing, or the path has
      no empty part and stays clear of unions.  Where they differ, splitting finds nothing. */
  lemma LookupsAgreeExactly(t: Ty, path: string)
    requires NamesNonEmpty(t)
    ensures var byParts, byTokens := FollowStructs(t, Split(path, '.')), FollowAny(t, PathNames(path));
            && (byParts == byTokens <==>
                  byTokens.None? || (NoEmptyPart(Split(path, '.')) && !ThroughUnion(t, Split(path, '.'))))
            && (byParts == byTokens || byParts.None?)
  {
    var parts := Split(path, '.');
    if NoEmptyPart(parts) {
      NonEmptySame(parts);
      if '.' !in path {
        assert FindFrom(path, '.', 0).None? && path[0..] == path;
      }
      FollowAgrees(t, parts);
    } else {
      EmptyNameFails(t, parts);
    }
  }

  /** Whatever the path without empty parts, a type found by splitting is found by tokenizing. */
  lemma SplittingImpliesTokenizing(t: Ty, path: string)
    requires NoEmptyPart(Split(path, '.')) && FollowStructs(t, Split(path, '.')).Some?
    ensures FollowAny(t, PathNames(path)) == FollowStructs(t, Split(path, '.'))
  {
    NonEmptySame(Split(path, '.'));
    if '.' !in path {
      assert FindFrom(path, '.', 0).None? && path[0..] == path;
    }
    FollowAgrees(t, Split(path, '.'));
  }

  /** With empty parts the two differ: tokenizing skips them, and "." names the type itself. */
  lemma EmptyPartsDiffer(t: Ty)
    requires t.Struct? && MemberIndex(t, []).None?
    ensures FollowStructs(t, Split(".", '.')).None?
    ensures FollowAny(t, PathNames(".")) == Some(t)
  {
    var empty: string := [];
    assert FindFrom(".", '.', 0) == Some(0) && FindFrom(".", '.', 1).None?;
    assert "."[1..] == empty;
    assert SplitFrom(".", '.', 1) == [empty];
    assert Split(".", '.') == [empty, empty];
    assert [empty, empty][1..] == [empty] && [empty][1..] == [];
    assert NonEmpty([empty]) == [];
  }
}
