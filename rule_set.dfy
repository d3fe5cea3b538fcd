/**
 * The rule store: every rule in insertion order, plus an index from function
 * symbol to the rules whose pattern is a non-empty list with that head.
 */
module RuleStore {
  import opened Wrappers
  import opened Terms
  import opened Rules

  /** `extractFunctionSymbol`: the key a rule is filed under; none for an atom or `()` pattern. */
  function IndexKey(pattern: Term): Option<string> {
    if pattern.List? && pattern.elements != [] then Some(FunctionSymbol(pattern.elements)) else None
  }

  /** The rules of `rules` whose pattern is filed under `symbol`, in their order. */
  function Bucket(rules: seq<Rule>, symbol: string): seq<Rule> {
    if rules == [] then []
    else (if IndexKey(rules[0].pattern) == Some(symbol) then [rules[0]] else []) + Bucket(rules[1..], symbol)
  }

  /** The rules of `rules` from `namespace`, in their order. */
  function InNamespace(rules: seq<Rule>, namespace: string): seq<Rule> {
    if rules == [] then []
    else (if rules[0].namespace == namespace then [rules[0]] else []) + InNamespace(rules[1..], namespace)
  }

  /** The namespaces that occur in `rules`. */
  function NamespacesOf(rules: seq<Rule>): (names: set<string>)
    ensures names == set r | r in rules :: r.namespace
  {
    if rules == [] then {}
    else
      var rest := NamespacesOf(rules[1..]);
      assert forall r :: r in rules <==> r == rules[0] || r in rules[1..];
      {rules[0].namespace} + rest
  }

  lemma {:induction false} BucketAppend(rules: seq<Rule>, rule: Rule, symbol: string)
    ensures Bucket(rules + [rule], symbol)
         == Bucket(rules, symbol) + (if IndexKey(rule.pattern) == Some(symbol) then [rule] else [])
  {
    var last := if IndexKey(rule.pattern) == Some(symbol) then [rule] else [];
    if rules == [] {
      assert Bucket([rule], symbol) == last + Bucket([], symbol);
      assert rules + [rule] == [rule];
    } else {
      var first := if IndexKey(rules[0].pattern) == Some(symbol) then [rules[0]] else [];
      assert (rules + [rule])[0] == rules[0];
      assert (rules + [rule])[1..] == rules[1..] + [rule];
      BucketAppend(rules[1..], rule, symbol);
      calc {
        Bucket(rules + [rule], symbol);
        first + Bucket(rules[1..] + [rule], symbol);
        first + (Bucket(rules[1..], symbol) + last);
        (first + Bucket(rules[1..], symbol)) + last;
        Bucket(rules, symbol) + last;
      }
    }
  }

  lemma {:induction false} InNamespaceAppend(rules: seq<Rule>, more: seq<Rule>, namespace: string)
    ensures InNamespace(rules + more, namespace) == InNamespace(rules, namespace) + InNamespace(more, namespace)
  {
    if rules == [] {
      assert rules + more == more;
    } else {
      assert (rules + more)[1..] == rules[1..] + more;
      InNamespaceAppend(rules[1..], more, namespace);
    }
  }

  /** A bucket holds exactly the stored rules whose pattern is a non-empty list headed by
      its symbol; in particular atom and `()` patterns are in no bucket, and a pattern
      whose head is not an atom is filed under the empty symbol. */
  lemma {:induction false} BucketMembers(rules: seq<Rule>, symbol: string)
    ensures forall r :: r in Bucket(rules, symbol) <==>
      r in rules && r.pattern.List? && r.pattern.elements != [] && FunctionSymbol(r.pattern.elements) == symbol
  {
    if rules != [] {
      BucketMembers(rules[1..], symbol);
      assert forall r :: r in rules <==> r == rules[0] || r in rules[1..];
    }
  }

  /** The namespace query holds exactly the stored rules of that namespace. */
  lemma {:induction false} InNamespaceMembers(rules: seq<Rule>, namespace: string)
    ensures forall r :: r in InNamespace(rules, namespace) <==> r in rules && r.namespace == namespace
  {
    if rules != [] {
      InNamespaceMembers(rules[1..], namespace);
      assert forall r :: r in rules <==> r == rules[0] || r in rules[1..];
    }
  }

  class RuleSet {
    var allRules: seq<Rule>
    var rulesByFunction: map<string, seq<Rule>>

    /** Each bucket is the stored rules filed under its key, in insertion order, and
        only symbols that some stored rule is filed under have a bucket. */
    ghost predicate Valid()
      reads this
    {
      && (forall f :: f in rulesByFunction ==> rulesByFunction[f] == Bucket(allRules, f) != [])
      && (forall f :: f !in rulesByFunction ==> Bucket(allRules, f) == [])
    }

    constructor ()
      ensures Valid() && allRules == [] && rulesByFunction == map[]
    {
      allRules := [];
      rulesByFunction := map[];
    }

    /** `addRule`: append to the global list, and to the bucket of the pattern's symbol
        when the pattern is a non-empty list. */
    method AddRule(rule: Rule)
      requires Valid()
      modifies this
      ensures Valid()
      ensures allRules == old(allRules) + [rule]
      ensures rulesByFunction == match IndexKey(rule.pattern)
                                 case Some(f) => old(rulesByFunction)[f := old(GetRulesForFunction(f)) + [rule]]
                                 case None => old(rulesByFunction)
    {
      forall f ensures Bucket(allRules + [rule], f)
                    == Bucket(allRules, f) + (if IndexKey(rule.pattern) == Some(f) then [rule] else []) {
        BucketAppend(allRules, rule, f);
      }
      allRules := allRules + [rule];
      var key := IndexKey(rule.pattern);
      if key.Some? {
        var symbol := key.value;
        var bucket := if symbol in rulesByFunction then rulesByFunction[symbol] else [];
        rulesByFunction := rulesByFunction[symbol := bucket + [rule]];
      }
    }

    /** `getRulesForFunction`: the bucket, or no rules for an unknown symbol. */
    function GetRulesForFunction(symbol: string): (rules: seq<Rule>)
      reads this
      requires Valid()
      ensures rules == Bucket(allRules, symbol)
    {
      if symbol in rulesByFunction then rulesByFunction[symbol] else []
    }

    /** `getAllRules`: every stored rule, in insertion order. */
    function GetAllRules(): seq<Rule>
      reads this
    {
      allRules
    }

    /** `getRulesForNamespace`: the stored rules of `namespace`, in insertion order. */
    function GetRulesForNamespace(namespace: string): (rules: seq<Rule>)
      reads this
      ensures forall r :: r in rules <==> r in allRules && r.namespace == namespace
    {
      InNamespaceMembers(allRules, namespace);
      InNamespace(allRules, namespace)
    }

    /** `getNamespaces`. */
    function GetNamespaces(): (names: set<string>)
      reads this
      ensures forall n :: n in names <==> exists r :: r in allRules && r.namespace == n
    {
      NamespacesOf(allRules)
    }

    /** `size`. */
    function Size(): nat
      reads this
    {
      |allRules|
    }
  }
}
