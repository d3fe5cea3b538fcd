/**
 * One rewrite step at the root of a term: the rules filed under the term's
 * function symbol are tried, those the base-case heuristic picks out first,
 * then the others, each group in store order; the first rule whose pattern
 * matches is applied.
 */
module RuleRewriting {
  import opened Wrappers
  import opened Text
  import opened Terms
  import opened Rules
  import opened RuleMatcher
  import opened RuleStore

  /** Digits from `i` to `j` that form a whole word: `\b[0-9]+\b`. */
  predicate StandaloneDigitsAt(s: string, i: int, j: int) {
    && 0 <= i < j <= |s|
    && (forall k :: i <= k < j ==> IsDigit(s[k]))
    && (i == 0 || !IsWordChar(s[i - 1]))
    && (j == |s| || !IsWordChar(s[j]))
  }

  /** `s.matches(".*\\b[0-9]+\\b.*")`: no line terminator anywhere (`.` does not match
      one), and a run of digits that is a word of its own. */
  predicate HasStandaloneNumber(s: string) {
    && (forall k :: 0 <= k < |s| ==> !IsLineTerminator(s[k]))
    && exists i, j | 0 <= i < j <= |s| :: StandaloneDigitsAt(s, i, j)
  }

  lemma NoDigitNoNumber(s: string)
    requires forall k :: 0 <= k < |s| ==> !IsDigit(s[k])
    ensures !HasStandaloneNumber(s)
  {
    forall i, j | 0 <= i < j <= |s| ensures !StandaloneDigitsAt(s, i, j) {
      assert !IsDigit(s[i]);
    }
  }

  /** `isBaseCase`: the full name mentions `base`, `empty` or `zero`; or the pattern text
      holds a standalone number or `()`; or the pattern is a non-empty list and the
      replacement text does not mention its function symbol. */
  predicate IsBaseCase(rule: Rule) {
    var ruleId := FullName(rule);
    if Contains(ruleId, "base") || Contains(ruleId, "empty") || Contains(ruleId, "zero") then true
    else
      var pattern := ToString(rule.pattern);
      if HasStandaloneNumber(pattern) || Contains(pattern, "()") then true
      else if rule.pattern.List? && rule.pattern.elements != [] then
        !Contains(ToString(rule.replacement), FunctionSymbol(rule.pattern.elements))
      else false
  }

  /** The rule's pattern matches the term from no bindings. */
  predicate Applies(rule: Rule, term: Term) {
    MatchFrom(rule.pattern, term, map[]).Some?
  }

  /** The term a rule rewrites a matching term into. */
  function Rewritten(rule: Rule, term: Term): Term
    requires Applies(rule, term)
  {
    Substitute(rule.replacement, MatchFrom(rule.pattern, term, map[]).value)
  }

  /** One pass of `tryRewrite`: the first rule of `rules` in the group `baseCases` that
      matches, applied. */
  function FirstInGroup(rules: seq<Rule>, term: Term, baseCases: bool): Option<Term> {
    if rules == [] then None
    else if IsBaseCase(rules[0]) == baseCases && Applies(rules[0], term) then Some(Rewritten(rules[0], term))
    else FirstInGroup(rules[1..], term, baseCases)
  }

  /** `tryRewrite`: only non-empty lists are rewritten, only by the rules filed under
      their function symbol; base cases first. */
  function TryRewrite(store: seq<Rule>, term: Term): Option<Term> {
    if !term.List? || term.elements == [] then None
    else BaseCasesFirst(Bucket(store, FunctionSymbol(term.elements)), term)
  }

  /** The two passes of `tryRewrite` over one bucket. */
  function BaseCasesFirst(rules: seq<Rule>, term: Term): Option<Term> {
    match FirstInGroup(rules, term, true)
    case Some(result) => Some(result)
    case None => FirstInGroup(rules, term, false)
  }

  /** Rule `i` of `rules` is the first matching rule of its group. */
  predicate FirstOfGroupAt(rules: seq<Rule>, term: Term, baseCases: bool, i: int) {
    && 0 <= i < |rules|
    && IsBaseCase(rules[i]) == baseCases && Applies(rules[i], term)
    && forall j :: 0 <= j < i && IsBaseCase(rules[j]) == baseCases ==> !Applies(rules[j], term)
  }

  lemma {:induction false} FirstInGroupSpec(rules: seq<Rule>, term: Term, baseCases: bool)
    ensures FirstInGroup(rules, term, baseCases).None? <==>
              forall j :: 0 <= j < |rules| && IsBaseCase(rules[j]) == baseCases ==> !Applies(rules[j], term)
    ensures forall i :: FirstOfGroupAt(rules, term, baseCases, i) ==>
              FirstInGroup(rules, term, baseCases) == Some(Rewritten(rules[i], term))
  {
    if rules != [] {
      FirstInGroupSpec(rules[1..], term, baseCases);
      forall i | FirstOfGroupAt(rules, term, baseCases, i)
        ensures FirstInGroup(rules, term, baseCases) == Some(Rewritten(rules[i], term))
      {
        if i > 0 {
          assert FirstOfGroupAt(rules[1..], term, baseCases, i - 1);
        }
      }
      assert forall j :: 0 < j < |rules| ==> rules[j] == rules[1..][j - 1];
    }
  }

  lemma {:induction false} FirstInGroupFound(rules: seq<Rule>, term: Term, baseCases: bool)
    requires FirstInGroup(rules, term, baseCases).Some?
    ensures exists i :: FirstOfGroupAt(rules, term, baseCases, i)
  {
    if IsBaseCase(rules[0]) == baseCases && Applies(rules[0], term) {
      assert FirstOfGroupAt(rules, term, baseCases, 0);
    } else {
      FirstInGroupFound(rules[1..], term, baseCases);
      var i :| FirstOfGroupAt(rules[1..], term, baseCases, i);
      assert FirstOfGroupAt(rules, term, baseCases, i + 1);
    }
  }

  /** Rule `i` of `rules` wins: it matches, no earlier base case matches, and when it is
      not a base case itself, no base case matches at all and no earlier rule does. */
  predicate WinsAt(rules: seq<Rule>, term: Term, i: int) {
    && 0 <= i < |rules| && Applies(rules[i], term)
    && (forall j :: 0 <= j < i && IsBaseCase(rules[j]) ==> !Applies(rules[j], term))
    && (!IsBaseCase(rules[i]) ==> forall j :: 0 <= j < |rules| && (IsBaseCase(rules[j]) || j < i) ==> !Applies(rules[j], term))
  }

  /** No rule of `rules` matches the term. */
  predicate NoneApplies(rules: seq<Rule>, term: Term) {
    forall j :: 0 <= j < |rules| ==> !Applies(rules[j], term)
  }

  /** Some rule of the bucket wins exactly when some rule of the bucket matches. */
  lemma {:induction false} BaseCasesFirstNone(rules: seq<Rule>, term: Term)
    ensures BaseCasesFirst(rules, term).None? <==> NoneApplies(rules, term)
  {
    FirstInGroupSpec(rules, term, true);
    FirstInGroupSpec(rules, term, false);
  }

  /** The winner's rewrite is the result, whatever the order in which base cases and
      other rules were added. */
  lemma {:induction false} BaseCasesFirstWinner(rules: seq<Rule>, term: Term, i: int)
    requires WinsAt(rules, term, i)
    ensures BaseCasesFirst(rules, term) == Some(Rewritten(rules[i], term))
  {
    FirstInGroupSpec(rules, term, true);
    FirstInGroupSpec(rules, term, false);
    if IsBaseCase(rules[i]) {
      assert FirstOfGroupAt(rules, term, true, i);
    } else {
      assert FirstOfGroupAt(rules, term, false, i);
    }
  }

  /** Every result comes from a winner. */
  lemma {:induction false} BaseCasesFirstFound(rules: seq<Rule>, term: Term)
    requires BaseCasesFirst(rules, term).Some?
    ensures exists i :: WinsAt(rules, term, i)
  {
    if FirstInGroup(rules, term, true).Some? {
      FirstInGroupFound(rules, term, true);
      var i :| FirstOfGroupAt(rules, term, true, i);
      assert WinsAt(rules, term, i);
    } else {
      FirstInGroupSpec(rules, term, true);
      FirstInGroupFound(rules, term, false);
      var i :| FirstOfGroupAt(rules, term, false, i);
      assert WinsAt(rules, term, i);
    }
  }

  /** A non-empty list is rewritten exactly when some rule filed under its symbol
      matches it, and then by the winning rule of that bucket. */
  lemma TryRewriteWinner(store: seq<Rule>, term: Term)
    requires term.List? && term.elements != []
    ensures TryRewrite(store, term).None? <==> NoneApplies(Bucket(store, FunctionSymbol(term.elements)), term)
    ensures forall i :: WinsAt(Bucket(store, FunctionSymbol(term.elements)), term, i) ==>
              TryRewrite(store, term) == Some(Rewritten(Bucket(store, FunctionSymbol(term.elements))[i], term))
    ensures TryRewrite(store, term).Some? ==> exists i :: WinsAt(Bucket(store, FunctionSymbol(term.elements)), term, i)
  {
    var rules := Bucket(store, FunctionSymbol(term.elements));
    assert TryRewrite(store, term) == BaseCasesFirst(rules, term);
    BaseCasesFirstNone(rules, term);
    forall i | WinsAt(rules, term, i) ensures TryRewrite(store, term) == Some(Rewritten(rules[i], term)) {
      BaseCasesFirstWinner(rules, term, i);
    }
    if TryRewrite(store, term).Some? {
      BaseCasesFirstFound(rules, term);
    }
  }

  /** Atoms and the empty list are never rewritten. */
  lemma AtomsAndNilNotRewritten(store: seq<Rule>, term: Term)
    requires term.Atom? || term == Nil
    ensures TryRewrite(store, term) == None
  {
  }

  /** The two factorial rules of the rewriter's unit tests: the general rule, stored
      first, and the rule for zero. */
  const FactGeneral: Rule := Rule("math", "factn", List([Atom("fact"), Atom("?n")]),
    List([Atom("*"), Atom("?n"), List([Atom("fact"), List([Atom("-"), Atom("?n"), Atom("1")])])]))
  const FactZero: Rule := Rule("math", "fact0", List([Atom("fact"), Atom("0")]), Atom("1"))

  /** `(fact 0)` holds the standalone number `0`, so the zero rule is a base case. */
  lemma FactZeroIsBaseCase()
    ensures IsBaseCase(FactZero)
  {
    var text := ToString(FactZero.pattern);
    assert text == "(fact 0)";
    assert StandaloneDigitsAt(text, 6, 7);
  }

  lemma FactGeneralPatternText()
    ensures ToString(FactGeneral.pattern) == "(fact ?n)"
  {
    var es := FactGeneral.pattern.elements;
    assert es[1..] == [Atom("?n")];
    assert JoinTerms(es) == "fact" + " " + "?n";
  }

  /** The general rule's name and pattern give no hint, and its replacement calls `fact`
      again, so it is not a base case. */
  lemma FactGeneralIsNotBaseCase()
    ensures !IsBaseCase(FactGeneral)
  {
    FactGeneralNameNoHint();
    FactGeneralPatternNoHint();
    FactGeneralRecurses();
  }

  lemma FactGeneralNameNoHint()
    ensures !Contains(FullName(FactGeneral), "base")
    ensures !Contains(FullName(FactGeneral), "empty")
    ensures !Contains(FullName(FactGeneral), "zero")
  {
    var name := FullName(FactGeneral);
    assert name == "math.factn";
    assert 'b' in "base" && 'y' in "empty" && 'z' in "zero";
    assert forall k :: 0 <= k < |name| ==> name[k] !in "byz";
    MissingCharNotContained(name, "base", 'b');
    MissingCharNotContained(name, "empty", 'y');
    MissingCharNotContained(name, "zero", 'z');
  }

  lemma FactGeneralPatternNoHint()
    ensures !HasStandaloneNumber(ToString(FactGeneral.pattern))
    ensures !Contains(ToString(FactGeneral.pattern), "()")
  {
    FactGeneralPatternText();
    var text := "(fact ?n)";
    assert forall k :: 0 <= k < |text| ==> !IsDigit(text[k]);
    NoDigitNoNumber(text);
    assert forall k :: 1 <= k < |text| ==> text[k] != '(';
    NoEmptyParens(text);
  }

  /** A text in which no `(` is directly followed by `)` does not contain `()`. */
  lemma NoEmptyParens(text: string)
    requires forall k :: 0 <= k < |text| - 1 ==> text[k] != '(' || text[k + 1] != ')'
    ensures !Contains(text, "()")
  {
    forall i | 0 <= i <= |text| - 2 ensures !OccursAt(text, "()", i) {
      var window := text[i..i + 2];
      assert window[0] == text[i] && window[1] == text[i + 1];
    }
  }

  lemma FactGeneralRecurses()
    ensures Contains(ToString(FactGeneral.replacement), FunctionSymbol(FactGeneral.pattern.elements))
  {
    var call := FactGeneral.replacement.elements[2];
    ListShowsElement(FactGeneral.replacement, 2);
    ListShowsElement(call, 0);
    var i :| OccursAt(ToString(FactGeneral.replacement), ToString(call), i);
    var j :| OccursAt(ToString(call), "fact", j);
    OccursWithin(ToString(FactGeneral.replacement), ToString(call), "fact", i, j);
  }

  /** Base cases win over earlier general rules: with the general rule stored first,
      `(fact 0)` still rewrites by the rule for zero. */
  lemma BaseCaseWinsExample()
    ensures TryRewrite([FactGeneral, FactZero], List([Atom("fact"), Atom("0")])) == Some(Atom("1"))
  {
    var term := List([Atom("fact"), Atom("0")]);
    assert FunctionSymbol(term.elements) == "fact";
    FactBucket();
    BaseCaseGroupPicksZero();
  }

  lemma FactBucket()
    ensures Bucket([FactGeneral, FactZero], "fact") == [FactGeneral, FactZero]
  {
    assert IndexKey(FactGeneral.pattern) == Some("fact") && IndexKey(FactZero.pattern) == Some("fact");
    assert [FactGeneral, FactZero][1..] == [FactZero] && [FactZero][1..] == [];
    assert Bucket([FactZero], "fact") == [FactZero];
  }

  lemma BaseCaseGroupPicksZero()
    ensures FirstInGroup([FactGeneral, FactZero], List([Atom("fact"), Atom("0")]), true) == Some(Atom("1"))
  {
    FactZeroIsBaseCase();
    FactGeneralIsNotBaseCase();
    FactZeroRewritesZero();
    assert [FactGeneral, FactZero][1..] == [FactZero];
  }

  /** The rule for zero matches `(fact 0)` and rewrites it to `1`. */
  lemma FactZeroRewritesZero()
    ensures Applies(FactZero, List([Atom("fact"), Atom("0")]))
    ensures Rewritten(FactZero, List([Atom("fact"), Atom("0")])) == Atom("1")
  {
    var term := List([Atom("fact"), Atom("0")]);
    assert !IsVariable(Atom("fact")) by { assert "fact"[..1][0] == 'f'; }
    assert !IsVariable(Atom("0")) by { assert "0"[..1] != "?"; }
    assert !IsVariable(Atom("1")) by { assert "1"[..1] != "?"; }
    assert MatchElementsFrom(FactZero.pattern, term, 2, map[]) == Some(map[]);
    assert MatchElementsFrom(FactZero.pattern, term, 0, map[]) == Some(map[]);
    assert !IsDottedPattern(FactZero.pattern.elements);
    assert MatchFrom(FactZero.pattern, term, map[]) == Some(map[]);
  }
}
