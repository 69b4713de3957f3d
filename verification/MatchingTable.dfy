/**
  The forwarding table: rules are looked up by the first entry whose pattern matches,
  and adding a rule whose pattern text is itself matched by an existing entry only
  replaces that entry's output.  The match relation is a parameter, since the library
  function behind it is not part of this model; `Glob` supplies the documented one.
 */
module MatchingTable {
  import opened Wrappers
  import Glob

  datatype Entry = Entry(inKey: string, outName: string)

  type Relation = (string, string) -> bool

  // ----- specification ----------------------------------------------------------

  /** Index of the first entry from `i` on whose pattern matches the key. */
  function FindFrom(m: Relation, es: seq<Entry>, key: string, i: nat): (r: Option<nat>)
    requires i <= |es|
    ensures r.Some? ==> i <= r.value < |es| && m(es[r.value].inKey, key)
                        && forall j :: i <= j < r.value ==> !m(es[j].inKey, key)
    ensures r.None? ==> forall j :: i <= j < |es| ==> !m(es[j].inKey, key)
    decreases |es| - i
  {
    if i == |es| then None
    else if m(es[i].inKey, key) then Some(i)
    else FindFrom(m, es, key, i + 1)
  }

  function Find(m: Relation, es: seq<Entry>, key: string): Option<nat> {
    FindFrom(m, es, key, 0)
  }

  function Added(m: Relation, es: seq<Entry>, rule: Entry): seq<Entry> {
    match Find(m, es, rule.inKey)
    case Some(i) => es[i := Entry(es[i].inKey, rule.outName)]
    case None => es + [rule]
  }

  function Built(m: Relation, rules: seq<Entry>): seq<Entry> {
    if rules == [] then []
    else Added(m, Built(m, rules[..|rules| - 1]), rules[|rules| - 1])
  }

  /** The output a key is forwarded to. */
  function Lookup(m: Relation, es: seq<Entry>, key: string): Option<string> {
    match Find(m, es, key)
    case None => None
    case Some(i) => Some(es[i].outName)
  }

  // ----- implementation ------------------------------------------------------------

  class Table {
    const matches: Relation
    var entries: seq<Entry>

    constructor (m: Relation)
      ensures matches == m && entries == []
    {
      matches := m;
      entries := [];
    }

    /** `find`: None stands for the exception. */
    method FindEntry(key: string) returns (r: Option<nat>)
      ensures r == Find(matches, entries, key)
    {
      for i := 0 to |entries|
        invariant Find(matches, entries, key) == FindFrom(matches, entries, key, i)
      {
        if matches(entries[i].inKey, key) {
          return Some(i);
        }
      }
      return None;
    }

    method Add(inKey: string, outName: string)
      modifies this
      ensures entries == Added(matches, old(entries), Entry(inKey, outName))
    {
      var found := FindEntry(inKey);
      if found.Some? {
        entries := entries[found.value := entries[found.value].(outName := outName)];
      } else {
        entries := entries + [Entry(inKey, outName)];
      }
    }

    constructor FromMatchingTable(m: Relation, rules: seq<Entry>)
      ensures matches == m && entries == Built(m, rules)
    {
      matches := m;
      entries := [];
      new;
      for i := 0 to |rules|
        invariant entries == Built(m, rules[..i])
      {
        Add(rules[i].inKey, rules[i].outName);
        assert rules[..i + 1][..i] == rules[..i];
      }
      assert rules[..|rules|] == rules;
    }
  }

  // ----- shape of a built table -------------------------------------------------------

  /** No entry's pattern matches the text of a later entry's pattern. */
  ghost predicate NoneShadowed(m: Relation, es: seq<Entry>) {
    forall i, j :: 0 <= i < j < |es| ==> !m(es[i].inKey, es[j].inKey)
  }

  lemma {:induction false} BuiltNoneShadowed(m: Relation, rules: seq<Entry>)
    ensures NoneShadowed(m, Built(m, rules))
  {
    if rules != [] {
      BuiltNoneShadowed(m, rules[..|rules| - 1]);
    }
  }

  /** Adding a rule appends at most one entry and never changes a pattern. */
  lemma AddedKeepsKeys(m: Relation, es: seq<Entry>, rule: Entry)
    ensures |es| <= |Added(m, es, rule)| <= |es| + 1
    ensures forall i :: 0 <= i < |es| ==> Added(m, es, rule)[i].inKey == es[i].inKey
    ensures |Added(m, es, rule)| == |es| + 1 ==> Added(m, es, rule)[|es|] == rule
  {
  }

  lemma {:induction false} FindStable(m: Relation, es: seq<Entry>, es': seq<Entry>, key: string, i: nat)
    requires |es| <= |es'| && i <= |es| && forall j :: 0 <= j < |es| ==> es'[j].inKey == es[j].inKey
    ensures FindFrom(m, es, key, i).Some? ==> FindFrom(m, es', key, i) == FindFrom(m, es, key, i)
    decreases |es| - i
  {
    if i < |es| && !m(es[i].inKey, key) {
      FindStable(m, es, es', key, i + 1);
    }
  }

  /** The rule that last decided the output of entry `i`. */
  ghost predicate LastRuleFor(m: Relation, es: seq<Entry>, rules: seq<Entry>, i: nat, r: nat) {
    && r < |rules| && Find(m, es, rules[r].inKey) == Some(i)
    && forall q :: r < q < |rules| ==> Find(m, es, rules[q].inKey) != Some(i)
  }

  /** In a table whose patterns match their own texts, an entry carries the output of the
      last configured rule whose text has that entry as its first match. */
  lemma {:induction false} EntryHasLastOutput(m: Relation, rules: seq<Entry>, i: nat) returns (r: nat)
    requires forall q :: 0 <= q < |rules| ==> m(rules[q].inKey, rules[q].inKey)
    requires i < |Built(m, rules)|
    ensures LastRuleFor(m, Built(m, rules), rules, i, r)
    ensures Built(m, rules)[i].outName == rules[r].outName
  {
    var n := |rules| - 1;
    var es, es', rule := Built(m, rules[..n]), Built(m, rules), rules[n];
    AddedKeepsKeys(m, es, rule);
    RuleFound(m, rules, n);
    FindStable(m, es, es', rule.inKey, 0);
    if Find(m, es', rule.inKey) == Some(i) {
      r := n;
    } else {
      r := EntryHasLastOutput(m, rules[..n], i);
      forall q | 0 <= q < n ensures Find(m, es', rules[..n][q].inKey) == Find(m, es, rules[..n][q].inKey) {
        EarlierRuleStable(m, rules, q);
      }
      LastRuleStays(m, es, es', rules[..n], rule, i, r);
      assert rules[..n] + [rule] == rules;
    }
  }

  lemma LastRuleStays(m: Relation, es: seq<Entry>, es': seq<Entry>, rules: seq<Entry>, rule: Entry, i: nat, r: nat)
    requires LastRuleFor(m, es, rules, i, r) && Find(m, es', rule.inKey) != Some(i)
    requires forall q :: 0 <= q < |rules| ==> Find(m, es', rules[q].inKey) == Find(m, es, rules[q].inKey)
    ensures LastRuleFor(m, es', rules + [rule], i, r)
  {
    var all := rules + [rule];
    forall q | r < q < |all| ensures Find(m, es', all[q].inKey) != Some(i) {
      assert q < |rules| ==> all[q] == rules[q];
    }
  }

  /** Adding the last rule does not change where an earlier one is found. */
  lemma EarlierRuleStable(m: Relation, rules: seq<Entry>, q: nat)
    requires q < |rules| - 1 && m(rules[q].inKey, rules[q].inKey)
    ensures Find(m, Built(m, rules), rules[q].inKey) == Find(m, Built(m, rules[..|rules| - 1]), rules[q].inKey)
  {
    var n := |rules| - 1;
    assert rules[..n][q] == rules[q];
    RuleFound(m, rules[..n], q);
    AddedKeepsKeys(m, Built(m, rules[..n]), rules[n]);
    FindStable(m, Built(m, rules[..n]), Built(m, rules), rules[q].inKey, 0);
  }

  /** Every configured rule is found in the built table. */
  lemma {:induction false} RuleFound(m: Relation, rules: seq<Entry>, q: nat)
    requires q < |rules| && m(rules[q].inKey, rules[q].inKey)
    ensures Find(m, Built(m, rules), rules[q].inKey).Some?
  {
    var n := |rules| - 1;
    var es, es' := Built(m, rules[..n]), Built(m, rules);
    AddedKeepsKeys(m, es, rules[n]);
    if q < n {
      RuleFound(m, rules[..n], q);
      FindStable(m, es, es', rules[q].inKey, 0);
    } else {
      FindStable(m, es, es', rules[n].inKey, 0);
    }
  }

  /** A found key is forwarded to the output of the last configured rule whose text has
      the same first match as the key. */
  lemma LookupGivesLastOutput(m: Relation, rules: seq<Entry>, key: string) returns (r: nat)
    requires forall q :: 0 <= q < |rules| ==> m(rules[q].inKey, rules[q].inKey)
    requires Lookup(m, Built(m, rules), key).Some?
    ensures LastRuleFor(m, Built(m, rules), rules, Find(m, Built(m, rules), key).value, r)
    ensures Lookup(m, Built(m, rules), key) == Some(rules[r].outName)
  {
    r := EntryHasLastOutput(m, rules, Find(m, Built(m, rules), key).value);
  }

  // ----- coverage -------------------------------------------------------------------

  ghost predicate SomeRuleMatches(m: Relation, rules: seq<Entry>, key: string) {
    exists q :: 0 <= q < |rules| && m(rules[q].inKey, key)
  }

  /** Wherever an earlier rule's pattern matches a later rule's text, it also matches this
      key if the later one does. */
  ghost predicate MergesCover(m: Relation, rules: seq<Entry>, key: string) {
    forall a, b :: 0 <= a < b < |rules| && m(rules[a].inKey, rules[b].inKey) && m(rules[b].inKey, key)
      ==> m(rules[a].inKey, key)
  }

  lemma {:induction false} EntriesAreRules(m: Relation, rules: seq<Entry>, i: nat) returns (q: nat)
    requires i < |Built(m, rules)|
    ensures q < |rules| && rules[q].inKey == Built(m, rules)[i].inKey
  {
    var n := |rules| - 1;
    AddedKeepsKeys(m, Built(m, rules[..n]), rules[n]);
    if i < |Built(m, rules[..n])| {
      q := EntriesAreRules(m, rules[..n], i);
    } else {
      q := n;
    }
  }

  /** What the table finds, some rule matches; and if merges cover, the reverse holds too. */
  lemma {:induction false} FoundIffSomeRule(m: Relation, rules: seq<Entry>, key: string)
    ensures Find(m, Built(m, rules), key).Some? ==> SomeRuleMatches(m, rules, key)
    ensures MergesCover(m, rules, key) ==>
              (Find(m, Built(m, rules), key).Some? <==> SomeRuleMatches(m, rules, key))
  {
    var es := Built(m, rules);
    if Find(m, es, key).Some? {
      var q := EntriesAreRules(m, rules, Find(m, es, key).value);
      assert m(rules[q].inKey, key);
    }
    if MergesCover(m, rules, key) && SomeRuleMatches(m, rules, key) {
      var q :| 0 <= q < |rules| && m(rules[q].inKey, key);
      CoveredRuleFound(m, rules, key, q);
    }
  }

  lemma {:induction false} CoveredRuleFound(m: Relation, rules: seq<Entry>, key: string, q: nat)
    requires MergesCover(m, rules, key) && q < |rules| && m(rules[q].inKey, key)
    ensures Find(m, Built(m, rules), key).Some?
  {
    var n := |rules| - 1;
    var es, es' := Built(m, rules[..n]), Built(m, rules);
    AddedKeepsKeys(m, es, rules[n]);
    if q < n {
      CoveredRuleFound(m, rules[..n], key, q);
      FindStable(m, es, es', key, 0);
    } else if Find(m, es, rules[n].inKey).Some? {
      var i := Find(m, es, rules[n].inKey).value;
      var a := EntriesAreRules(m, rules[..n], i);
      assert m(rules[a].inKey, rules[n].inKey);
      assert m(es'[i].inKey, key);
    } else {
      assert es'[|es|] == rules[n];
    }
  }

  /** For rules whose only wildcard is `*`, merging never loses coverage. */
  lemma StarOnlyCoverage(rules: seq<Entry>, key: string)
    requires forall q :: 0 <= q < |rules| ==> Glob.StarOnly(rules[q].inKey)
    ensures Find(Glob.Matches, Built(Glob.Matches, rules), key).Some? <==>
            SomeRuleMatches(Glob.Matches, rules, key)
  {
    forall a, b | 0 <= a < b < |rules| && Glob.Matches(rules[a].inKey, rules[b].inKey)
                  && Glob.Matches(rules[b].inKey, key)
      ensures Glob.Matches(rules[a].inKey, key)
    {
      var p, q := rules[a].inKey, rules[b].inKey;
      Glob.SimpleMatches(p, q);
      Glob.SimpleMatches(q, key);
      Glob.StarOnlySubsumes(p, q);
      Glob.SubsumesSound(p, q, key);
      Glob.SimpleMatches(p, key);
    }
    FoundIffSomeRule(Glob.Matches, rules, key);
  }

  /** The table finds this key. */
  predicate Finds(rules: seq<Entry>, key: string) {
    Find(Glob.Matches, Built(Glob.Matches, rules), key).Some?
  }

  /** The table finds every instance of every rule: a finite test. */
  ghost predicate FindsInstances(rules: seq<Entry>, f: char, n: nat) {
    forall q, e :: 0 <= q < |rules| && e in Glob.Instances(rules[q].inKey, f, n) ==> Finds(rules, e)
  }

  /** With `?` and `*` mixed freely, merging loses no key at all exactly when it loses none of
      finitely many, built from a character `f` that no rule mentions. */
  lemma CoverageKept(rules: seq<Entry>, f: char, n: nat)
    requires forall q :: 0 <= q < |rules| ==>
               Glob.Simple(rules[q].inKey) && f !in rules[q].inKey && |rules[q].inKey| < n
    ensures (forall key :: SomeRuleMatches(Glob.Matches, rules, key) <==> Finds(rules, key)) <==>
            FindsInstances(rules, f, n)
  {
    if forall key :: SomeRuleMatches(Glob.Matches, rules, key) <==> Finds(rules, key) {
      forall q, e | 0 <= q < |rules| && e in Glob.Instances(rules[q].inKey, f, n) ensures Finds(rules, e) {
        Glob.InstanceMatches(rules[q].inKey, f, n, e);
        Glob.SimpleMatches(rules[q].inKey, e);
        assert SomeRuleMatches(Glob.Matches, rules, e);
      }
    }
    if FindsInstances(rules, f, n) {
      forall key ensures SomeRuleMatches(Glob.Matches, rules, key) <==> Finds(rules, key) {
        FoundIffSomeRule(Glob.Matches, rules, key);
        if SomeRuleMatches(Glob.Matches, rules, key) {
          var q :| 0 <= q < |rules| && Glob.Matches(rules[q].inKey, key);
          KeyFound(rules, f, n, q, key);
        }
      }
    }
  }

  lemma KeyFound(rules: seq<Entry>, f: char, n: nat, q: nat, key: string)
    requires forall a :: 0 <= a < |rules| ==>
               Glob.Simple(rules[a].inKey) && f !in rules[a].inKey && |rules[a].inKey| < n
    requires FindsInstances(rules, f, n) && q < |rules| && Glob.Matches(rules[q].inKey, key)
    ensures Finds(rules, key)
  {
    Glob.SimpleMatches(rules[q].inKey, key);
    var e := Glob.InstanceFor(rules[q].inKey, f, n, [], key);
    assert [] + e == e && [] + key == key;
    var es := Built(Glob.Matches, rules);
    assert Finds(rules, e);
    var i := Find(Glob.Matches, es, e).value;
    var a := EntriesAreRules(Glob.Matches, rules, i);
    Glob.SimpleMatches(rules[a].inKey, e);
    Glob.SimpleMatches(rules[a].inKey, key);
    assert Glob.Matches(es[i].inKey, key);
  }

  lemma TwoRuleTable(p: string, q: string, o1: string, o2: string)
    requires Glob.Simple(p) && Glob.SimpleMatch(p, q)
    ensures Built(Glob.Matches, [Entry(p, o1), Entry(q, o2)]) == [Entry(p, o2)]
  {
    var m, rules := Glob.Matches, [Entry(p, o1), Entry(q, o2)];
    Glob.SimpleMatches(p, q);
    assert rules[..1] == [Entry(p, o1)] && rules[..1][..0] == [];
    assert Built(m, rules[..1][..0]) == [];
    assert Built(m, rules[..1]) == [Entry(p, o1)];
    assert Find(m, [Entry(p, o1)], q) == Some(0);
  }

  /** Adding "?" and then "*" loses every key of two characters, for instance. */
  lemma QuestionMarkLosesCoverage()
    ensures var rules := [Entry("?", "one"), Entry("*", "rest")];
            && SomeRuleMatches(Glob.Matches, rules, "xy")
            && Find(Glob.Matches, Built(Glob.Matches, rules), "xy").None?
  {
    var m, rules := Glob.Matches, [Entry("?", "one"), Entry("*", "rest")];
    assert Glob.SimpleMatch("?"[1..], "*"[1..]);
    TwoRuleTable("?", "*", "one", "rest");
    Glob.SimpleMatches("*", "xy");
    Glob.SimpleMatches("?", "xy");
    Glob.StarAbsorbs("*", "xy", []);
    assert "xy" + [] == "xy";
    assert m(rules[1].inKey, "xy");
    assert !Glob.SimpleMatch("?"[1..], "xy"[1..]);
  }
}
