/**
 * `io/DynamicRuleParser.java`: the commands typed at the prompt to change the rule
 * set, `<namespace.name> pattern replacement` to add a rule and `>namespace.name<` to
 * remove one. Both are matched against the trimmed input.
 */
module DynamicRuleParsing {
  import opened Wrappers
  import opened Text
  import opened Terms
  import opened Rules
  import opened TermParsing
  import opened RuleSyntax

  /** `ParseResult`: a rule to add, or the full name of a rule to remove. */
  datatype Command = AddRule(rule: Rule) | RemoveRule(fullName: string)

  const InvalidSyntax := "Invalid rule syntax. Use <namespace.name>pattern replacement to add or >namespace.name< to remove."
  const EmptyName := "Namespace und Name dürfen nicht leer sein."
  /** The message the check for spaces in the namespace or name gives. */
  const SpaceInName := "Namespace and name must not be empty."
  const EmptyParts := "Pattern und Replacement dürfen nicht leer sein."
  const SyntaxError := "Syntaxfehler beim Parsen: "

  /** This reader's messages for a failed split; it refuses an empty replacement after a
      parenthesised pattern. */
  const Dynamic := Dialect("Unausgeglichene Klammern im Pattern", "Replacement fehlt", true)

  /** The `catch (Exception e)` around reading the two terms: an exception is reported
      again under the syntax-error prefix; a stack overflow is an error, not an exception,
      and passes through. */
  function Rewrapped(f: Failure): (r: Failure)
    ensures f.StackOverflow? <==> r.StackOverflow?
  {
    match f
    case StackOverflow => StackOverflow
    case _ => IllegalArgument(SyntaxError + f.message)
  }

  /** `parse`: the add command is tried first, then the remove command; a command to add
      comes from a trimmed input that opens with `<`, one to remove from one that opens
      with `>`. */
  function Parse(input: string): (r: Result<Command>)
    ensures r.Ok? && r.value.AddRule? ==> StartsWith(Trim(input), "<")
    ensures r.Ok? && r.value.RemoveRule? ==> StartsWith(Trim(input), ">")
  {
    var s := Trim(input);
    match MatchHeader(s, true)
    case Some(h) =>
      assert s[..1] == [s[0]];
      ParseAddRule(h.namespace, h.name, h.rest)
    case None =>
      match MatchRemove(s)
      case Some((namespace, name)) =>
        assert s[..1] == [s[0]];
        ParseRemoveRule(namespace, name)
      case None => Err(IllegalArgument(InvalidSyntax))
  }

  /** `parseAddRule` on the three groups of the add command: what it accepts is a rule
      named by the two groups, both non-empty and free of spaces. */
  function ParseAddRule(namespace: string, name: string, group: string): (r: Result<Command>)
    ensures r.Ok? ==> r.value.AddRule? && r.value.rule.namespace == namespace && r.value.rule.name == name
    ensures r.Ok? ==> namespace != [] && name != [] && !Contains(namespace, " ") && !Contains(name, " ")
  {
    var rest := Trim(group);
    if namespace == [] || name == [] then Err(IllegalArgument(EmptyName))
    else if Contains(namespace, " ") || Contains(name, " ") then Err(IllegalArgument(SpaceInName))
    else
      match SplitPattern(rest, Dynamic)
      case Err(f) => Err(f)
      case Ok((patternText, replacementText)) =>
        if patternText == [] || replacementText == [] then Err(IllegalArgument(EmptyParts))
        else
          match ParseInput(patternText)
          case Err(f) => Err(Rewrapped(f))
          case Ok(pattern) =>
            match ParseInput(replacementText)
            case Err(f) => Err(Rewrapped(f))
            case Ok(replacement) => Ok(AddRule(Rule(namespace, name, pattern, replacement)))
  }

  /** `parseRemoveRule` on the two groups of the remove command: it refuses exactly an
      empty group, and a namespace without dots is recovered from the full name it gives. */
  function ParseRemoveRule(namespace: string, name: string): (r: Result<Command>)
    ensures r.Ok? <==> namespace != [] && name != []
    ensures r.Ok? ==> r.value.RemoveRule?
    ensures r.Ok? && '.' !in namespace ==> SplitFullName(r.value.fullName) == (namespace, name)
  {
    if namespace == [] || name == [] then Err(IllegalArgument(EmptyName))
    else
      var full := namespace + "." + name;
      assert '.' !in namespace ==> SplitFullName(full) == (namespace, name) by {
        if '.' !in namespace {
          FullNameSplits(Rule(namespace, name, Nil, Nil));
        }
      }
      Ok(RemoveRule(full))
  }

  /** `isDynamicRuleCommand`: the trimmed input starts with `<` or `>`. */
  predicate IsDynamicRuleCommand(input: string) {
    var s := Trim(input);
    StartsWith(s, "<") || StartsWith(s, ">")
  }

  // ------------------------------------------------------------ properties

  /** Input that does not look like a command is refused with the usage message, and so
      whatever is accepted looks like a command. */
  lemma NotACommand(input: string)
    requires !IsDynamicRuleCommand(input)
    ensures Parse(input) == Err(IllegalArgument(InvalidSyntax))
  {
    var s := Trim(input);
    assert s == [] || (s[0] != '<' && s[0] != '>') by {
      if s != [] {
        assert s[..1] == [s[0]];
      }
    }
  }

  /** A rule the add command yields has a namespace without dots or spaces and a name
      without `>` or spaces, both non-empty, as the expression and the checks demand. */
  lemma AddedRuleShape(input: string, r: Rule)
    requires Parse(input) == Ok(AddRule(r))
    ensures r.namespace != [] && '.' !in r.namespace && ' ' !in r.namespace
    ensures r.name != [] && '>' !in r.name && ' ' !in r.name
  {
    var s := Trim(input);
    assert MatchHeader(s, true).Some?;
    var h := MatchHeader(s, true).value;
    MatchHeaderNames(s, true);
    SpaceNotContained(r.namespace);
    SpaceNotContained(r.name);
  }

  /** A text that does not contain the one-space text lacks the space character. */
  lemma SpaceNotContained(s: string)
    requires !Contains(s, " ")
    ensures ' ' !in s
  {
  }

  /** A text with a space character contains the one-space text. */
  lemma SpaceContained(s: string)
    ensures ' ' in s ==> Contains(s, " ")
  {
  }

  /** A text without the space character does not contain the one-space text. */
  lemma SpaceFree(s: string)
    requires ' ' !in s
    ensures !Contains(s, " ")
  {
    MissingCharNotContained(s, " ", ' ');
  }

  /** The check for empty groups never fires: both expressions demand non-empty groups. */
  lemma EmptyNameUnreachable(input: string)
    ensures Parse(input) != Err(IllegalArgument(EmptyName))
  {
    var s := Trim(input);
    match MatchHeader(s, true)
    case Some(h) =>
      MatchHeaderNames(s, true);
      AddNeverEmptyName(h.namespace, h.name, h.rest);
    case None =>
      if MatchRemove(s).Some? {
        MatchRemoveNames(s);
      }
  }

  /** With non-empty groups, no failure of `parseAddRule` carries the empty-name message. */
  lemma AddNeverEmptyName(namespace: string, name: string, group: string)
    requires namespace != [] && name != []
    ensures ParseAddRule(namespace, name, group) != Err(IllegalArgument(EmptyName))
  {
    SplitPatternFailures(Trim(group), Dynamic);
    EmptyNameDistinct();
  }

  /** The empty-name message is no other message of this reader. */
  lemma EmptyNameDistinct()
    ensures EmptyName !in {SpaceInName, EmptyParts, Dynamic.unbalanced, Dynamic.missingReplacement}
    ensures forall m :: SyntaxError + m != EmptyName
  {
    assert EmptyName[0] == 'N';
    forall m: string ensures SyntaxError + m != EmptyName {
      assert (SyntaxError + m)[0] == 'S';
    }
  }

  /** A space in the namespace is refused with the message about empty names. */
  lemma SpaceInNamespace(namespace: string, name: string, group: string)
    requires namespace != [] && name != [] && ' ' in namespace
    ensures ParseAddRule(namespace, name, group) == Err(IllegalArgument(SpaceInName))
  {
    var i :| 0 <= i < |namespace| && namespace[i] == ' ';
    assert OccursAt(namespace, " ", i) by {
      assert namespace[i..i + 1] == " ";
    }
  }

  /** The remove command gives the full name of the rule to remove. */
  lemma RemoveRoundTrip(r: Rule)
    requires r.namespace != [] && '.' !in r.namespace && r.name != [] && '<' !in r.name
    ensures Parse(">" + FullName(r) + "<") == Ok(RemoveRule(FullName(r)))
  {
    var s := ">" + FullName(r) + "<";
    assert s == ">" + r.namespace + "." + r.name + "<" + "";
    TrimStartFixed(s);
    TrimEndFixed(s);
    assert MatchHeader(s, true).None?;
    MatchRemoveComplete(s, r.namespace, r.name, "");
  }

  /** `Rule.toString` typed as a command adds that very rule. */
  lemma AddRoundTrip(r: Rule)
    requires Writable(r)
    ensures Parse(RuleText(r)) == Ok(AddRule(r))
  {
    var p := ToString(r.pattern);
    var q := ToString(r.replacement);
    ReadRuleHeader(r, true);
    var h := MatchHeader(RuleText(r), true).value;
    SpaceFree(r.namespace);
    SpaceFree(r.name);
    FirstCharOfReadable(r.replacement);
    SplitPrinted(r.pattern, q, Dynamic);
    ParseIgnoresRest(r.pattern, []);
    ParseIgnoresRest(r.replacement, []);
    assert p + [] == p && q + [] == q;
    AddGroups(r, h.rest);
  }

  /** `parseAddRule` on the groups of a printed rule. */
  lemma AddGroups(r: Rule, group: string)
    requires r.namespace != [] && !Contains(r.namespace, " ") && r.name != [] && !Contains(r.name, " ")
    requires Trim(group) == ToString(r.pattern) + " " + ToString(r.replacement)
    requires SplitPattern(Trim(group), Dynamic) == Ok((ToString(r.pattern), ToString(r.replacement)))
    requires ToString(r.pattern) != [] && ToString(r.replacement) != []
    requires ParseInput(ToString(r.pattern)) == Ok(r.pattern)
    requires ParseInput(ToString(r.replacement)) == Ok(r.replacement)
    ensures ParseAddRule(r.namespace, r.name, group) == Ok(AddRule(r))
  {
  }
}
