/** A rewrite rule: a namespaced name, a pattern and a replacement. */
module Rules {
  import opened Text
  import opened Terms

  /** Rules are values: two rules are equal exactly when all four parts are. */
  datatype Rule = Rule(namespace: string, name: string, pattern: Term, replacement: Term)

  /** `Rule.fullName`: namespace, a dot, then the name. */
  function FullName(r: Rule): (s: string)
    ensures |s| == |r.namespace| + 1 + |r.name|
    ensures s[|r.namespace|] == '.' && s[..|r.namespace|] == r.namespace && s[|r.namespace| + 1..] == r.name
  {
    r.namespace + "." + r.name
  }

  /** Splits a full name at its first dot, as a namespace without dots requires. */
  function SplitFullName(s: string): (r: (string, string))
    ensures '.' in s ==> '.' !in r.0 && s == r.0 + "." + r.1
  {
    IndexOfSpec(s, '.');
    var dot := IndexOf(s, '.');
    if dot == -1 then (s, "") else (s[..dot], s[dot + 1..])
  }

  /** A namespace without dots can be read back from the full name, and so can the name. */
  lemma FullNameSplits(r: Rule)
    requires '.' !in r.namespace
    ensures SplitFullName(FullName(r)) == (r.namespace, r.name)
  {
    var s := FullName(r);
    assert '.' in s;
    var dot := IndexOf(s, '.');
    IndexOfSpec(s, '.');
    assert forall k :: 0 <= k < |r.namespace| ==> s[k] == r.namespace[k];
    assert dot <= |r.namespace| by {
      assert s[|r.namespace|] == '.';
    }
  }

  /** `Rule.matches`: compares the given symbol with the rule's name only. */
  predicate NameMatches(r: Rule, symbol: string) {
    r.name == symbol
  }

  /** Neither the namespace nor the pattern nor the replacement affects `matches`. */
  lemma NameMatchesIgnoresRest(r: Rule, namespace: string, pattern: Term, replacement: Term, symbol: string)
    ensures NameMatches(r, symbol) == NameMatches(Rule(namespace, r.name, pattern, replacement), symbol)
  {
  }

  /** `Rule.toString`: `<fullName> pattern replacement`. */
  function RuleText(r: Rule): (s: string)
    ensures StartsWith(s, "<" + FullName(r) + "> ")
    ensures s[|FullName(r)| + 3..] == ToString(r.pattern) + " " + ToString(r.replacement)
  {
    var head := "<" + FullName(r) + "> ";
    var s := head + ToString(r.pattern) + " " + ToString(r.replacement);
    assert s[..|head|] == head;
    assert s[|head|..] == ToString(r.pattern) + " " + ToString(r.replacement);
    s
  }
}
