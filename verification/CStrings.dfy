/** Text in a buffer, as C sees it: everything before the first terminator. */
module CStrings {

  const NUL: char := '\0'

  /** The text before the first terminator. */
  function CString(b: seq<char>): (s: string)
    ensures |s| <= |b| && s == b[..|s|] && NUL !in s
    ensures NUL in b ==> |s| < |b| && b[|s|] == NUL
    ensures NUL !in b ==> s == b
  {
    if b == [] || b[0] == NUL then [] else [b[0]] + CString(b[1..])
  }

  lemma {:induction false} CStringOf(s: string, rest: seq<char>)
    requires NUL !in s
    ensures CString(s + [NUL] + rest) == s
  {
    var b := s + [NUL] + rest;
    if s != [] {
      assert s[0] in s;
      assert b[1..] == s[1..] + [NUL] + rest;
      CStringOf(s[1..], rest);
    }
  }
}
