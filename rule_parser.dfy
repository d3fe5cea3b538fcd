/**
 * `io/RuleParser.java`: a rule file, one rule `<namespace.name> pattern replacement` per
 * line, blank lines and lines starting with `#` skipped, read into a fresh rule set.
 * The lines are given as a sequence; opening the resource and reading it are not modelled.
 */
module RuleFileParsing {
  import opened Wrappers
  import opened Text
  import opened Terms
  import opened Rules
  import opened TermParsing
  import opened RuleSyntax
  import opened RuleStore

  /** This reader's messages for a failed split; it lets an empty replacement through to
      the term reader. */
  const File := Dialect("Unbalanced parentheses in pattern", "Missing replacement in rule", false)

  const InvalidRule := "Invalid rule syntax: "
  const LineError := "Error parsing rule at line "

  /** `parseRule` on a trimmed line; the rest group may be empty here. A rule it reads
      has a non-empty namespace without dots and a non-empty name without `>`, and a line
      that does not open with `<` is refused with the line in the message. */
  function ParseRule(line: string): (r: Result<Rule>)
    ensures r.Ok? ==> r.value.namespace != [] && '.' !in r.value.namespace
    ensures r.Ok? ==> r.value.name != [] && '>' !in r.value.name
    ensures !StartsWith(line, "<") ==> r == Err(IllegalArgument(InvalidRule + line))
  {
    match MatchHeader(line, false)
    case None => Err(IllegalArgument(InvalidRule + line))
    case Some(h) =>
      MatchHeaderNames(line, false);
      assert line[..1] == [line[0]];
      match SplitPattern(Trim(h.rest), File)
      case Err(f) => Err(f)
      case Ok((patternText, replacementText)) =>
        match ParseInput(patternText)
        case Err(f) => Err(f)
        case Ok(pattern) =>
          match ParseInput(replacementText)
          case Err(f) => Err(f)
          case Ok(replacement) => Ok(Rule(h.namespace, h.name, pattern, replacement))
  }

  /** A line the loader passes over: blank, or a comment once trimmed. */
  predicate Skipped(line: string) {
    var t := Trim(line);
    t == [] || StartsWith(t, "#")
  }

  /** What the loader throws for the rule on line `number`: the `catch (Exception e)`
      reports it with the line number and the trimmed line; a stack overflow is an error,
      not an exception, and passes through. */
  function LineFailure(f: Failure, number: nat, line: string): Failure {
    match f
    case StackOverflow => StackOverflow
    case _ => Runtime(LineError + NatToString(number) + ": " + line)
  }

  /** The rules of the first `|lines|` lines in file order, or the failure of the first
      line that does not read. */
  function Loaded(lines: seq<string>): Result<seq<Rule>>
    decreases |lines|
  {
    if lines == [] then Ok([])
    else Step(Loaded(lines[..|lines| - 1]), lines[|lines| - 1], |lines|)
  }

  /** One pass of the line loop: line `number` read after the lines before it. */
  function Step(loaded: Result<seq<Rule>>, line: string, number: nat): Result<seq<Rule>> {
    match loaded
    case Err(f) => Err(f)
    case Ok(rules) =>
      if Skipped(line) then Ok(rules)
      else
        match ParseRule(Trim(line))
        case Err(f) => Err(LineFailure(f, number, Trim(line)))
        case Ok(rule) => Ok(rules + [rule])
  }

  lemma StepSkip(rules: seq<Rule>, line: string, number: nat)
    requires Skipped(line)
    ensures Step(Ok(rules), line, number) == Ok(rules)
  {
  }

  lemma StepRead(rules: seq<Rule>, line: string, number: nat, rule: Rule)
    requires !Skipped(line) && ParseRule(Trim(line)) == Ok(rule)
    ensures Step(Ok(rules), line, number) == Ok(rules + [rule])
  {
  }

  lemma StepFail(rules: seq<Rule>, line: string, number: nat, f: Failure)
    requires !Skipped(line) && ParseRule(Trim(line)) == Err(f)
    ensures Step(Ok(rules), line, number) == Err(LineFailure(f, number, Trim(line)))
  {
  }

  /** The lines up to `n + 1` are the lines up to `n` and one more step. */
  lemma LoadedNext(lines: seq<string>, n: nat)
    requires n < |lines|
    ensures Loaded(lines[..n + 1]) == Step(Loaded(lines[..n]), lines[n], n + 1)
  {
    assert lines[..n + 1][..n] == lines[..n];
  }

  /** `loadFromStream`, with its line loop. */
  method LoadFromLines(lines: seq<string>) returns (r: Result<RuleSet>)
    ensures r.Ok? ==> fresh(r.value) && r.value.Valid() && Loaded(lines) == Ok(r.value.allRules)
    ensures r.Err? ==> Loaded(lines) == Err(r.failure)
  {
    var ruleSet := new RuleSet();
    var lineNumber := 0;
    while lineNumber < |lines|
      invariant 0 <= lineNumber <= |lines|
      invariant fresh(ruleSet) && ruleSet.Valid()
      invariant Loaded(lines[..lineNumber]) == Ok(ruleSet.allRules)
      decreases |lines| - lineNumber
    {
      var raw := lines[lineNumber];
      LoadedNext(lines, lineNumber);
      var line := Trim(raw);
      lineNumber := lineNumber + 1;
      if line == [] || StartsWith(line, "#") {
        StepSkip(ruleSet.allRules, raw, lineNumber);
        continue;
      }
      var parsed := ParseRule(line);
      if parsed.Err? {
        StepFail(ruleSet.allRules, raw, lineNumber, parsed.failure);
        FailureIsFinal(lines[..lineNumber], lines[lineNumber..]);
        PrefixSuffix(lines, lineNumber);
        return Err(LineFailure(parsed.failure, lineNumber, line));
      }
      StepRead(ruleSet.allRules, raw, lineNumber, parsed.value);
      ruleSet.AddRule(parsed.value);
    }
    assert lines[..lineNumber] == lines;
    return Ok(ruleSet);
  }

  lemma InitLast<T>(s: seq<T>)
    requires s != []
    ensures s[..|s| - 1] + [s[|s| - 1]] == s
  {
  }

  lemma PrefixSuffix<T>(s: seq<T>, n: nat)
    requires n <= |s|
    ensures s[..n] + s[n..] == s
  {
  }

  lemma JoinDropLast<T>(s: seq<T>, t: seq<T>)
    requires t != []
    ensures (s + t)[..|s + t| - 1] == s + t[..|t| - 1]
  {
  }

  lemma JoinEmpty<T>(s: seq<T>, t: seq<T>)
    requires t == []
    ensures s + t == s
  {
  }

  // ------------------------------------------------------------ properties

  /** A printed rule is one line of a rule file that reads back as that rule. */
  lemma ParseRuleRoundTrip(r: Rule)
    requires Writable(r)
    ensures ParseRule(RuleText(r)) == Ok(r)
  {
    var p := ToString(r.pattern);
    var q := ToString(r.replacement);
    ReadRuleHeader(r, false);
    var h := MatchHeader(RuleText(r), false).value;
    FirstCharOfReadable(r.replacement);
    SplitPrinted(r.pattern, q, File);
    ParseIgnoresRest(r.pattern, []);
    ParseIgnoresRest(r.replacement, []);
    assert p + [] == p && q + [] == q;
    RuleGroups(r, h);
  }

  /** `parseRule` once the header of a printed rule has given its groups. */
  lemma RuleGroups(r: Rule, h: Header)
    requires MatchHeader(RuleText(r), false) == Some(h)
    requires h.namespace == r.namespace && h.name == r.name
    requires Trim(h.rest) == ToString(r.pattern) + " " + ToString(r.replacement)
    requires SplitPattern(Trim(h.rest), File) == Ok((ToString(r.pattern), ToString(r.replacement)))
    requires ParseInput(ToString(r.pattern)) == Ok(r.pattern)
    requires ParseInput(ToString(r.replacement)) == Ok(r.replacement)
    ensures ParseRule(RuleText(r)) == Ok(r)
  {
  }

  /** The lines of a file that holds one printed rule per line. */
  function RuleLines(rules: seq<Rule>): (lines: seq<string>)
    ensures |lines| == |rules| && forall i :: 0 <= i < |rules| ==> lines[i] == RuleText(rules[i])
  {
    if rules == [] then [] else RuleLines(rules[..|rules| - 1]) + [RuleText(rules[|rules| - 1])]
  }

  /** A file written by printing rules, one per line, loads as those rules in that order. */
  lemma {:induction false} LoadPrinted(rules: seq<Rule>)
    requires forall r :: r in rules ==> Writable(r)
    ensures Loaded(RuleLines(rules)) == Ok(rules)
    decreases |rules|
  {
    if rules != [] {
      var lines := RuleLines(rules);
      var r := rules[|rules| - 1];
      var init := rules[..|rules| - 1];
      assert lines[..|lines| - 1] == RuleLines(init);
      assert forall x :: x in init ==> x in rules;
      LoadPrinted(init);
      PrintedLineRead(init, r, |rules|);
      InitLast(rules);
    }
  }

  /** A printed rule is not passed over, and reads as itself. */
  lemma PrintedLineRead(rules: seq<Rule>, r: Rule, number: nat)
    requires Writable(r)
    ensures Step(Ok(rules), RuleText(r), number) == Ok(rules + [r])
  {
    RuleTextTrimmed(r);
    PrintedNotSkipped(r);
    ParseRuleRoundTrip(r);
    StepRead(rules, RuleText(r), number, r);
  }

  lemma PrintedNotSkipped(r: Rule)
    requires Trim(RuleText(r)) == RuleText(r)
    ensures !Skipped(RuleText(r))
  {
    assert RuleText(r)[0] == '<';
  }

  /** Once a line fails, the lines after it are not read. */
  lemma {:induction false} FailureIsFinal(lines: seq<string>, more: seq<string>)
    requires Loaded(lines).Err?
    ensures Loaded(lines + more) == Loaded(lines)
    decreases |more|
  {
    if more != [] {
      var all := lines + more;
      JoinDropLast(lines, more);
      FailureIsFinal(lines, more[..|more| - 1]);
      StepAfterFailure(Loaded(all[..|all| - 1]), all[|all| - 1], |all|);
    } else {
      JoinEmpty(lines, more);
    }
  }

  lemma StepAfterFailure(loaded: Result<seq<Rule>>, line: string, number: nat)
    requires loaded.Err?
    ensures Step(loaded, line, number) == loaded
  {
  }

  /** Blank lines and comments add nothing. */
  lemma SkippedLineIgnored(lines: seq<string>, line: string)
    requires Skipped(line)
    ensures Loaded(lines + [line]) == Loaded(lines)
  {
    assert (lines + [line])[..|lines|] == lines;
    if Loaded(lines).Ok? {
      StepSkip(Loaded(lines).value, line, |lines| + 1);
    }
  }

  /** A failure other than a stack overflow names a line that does not read as a rule,
      with its number counted from one, after lines that all read. */
  lemma {:induction false} FailureNamesFirstBadLine(lines: seq<string>)
    requires Loaded(lines).Err? && !Loaded(lines).failure.StackOverflow?
    ensures exists n :: (1 <= n <= |lines| && Loaded(lines[..n - 1]).Ok?
                         && !Skipped(lines[n - 1]) && ParseRule(Trim(lines[n - 1])).Err?
                         && Loaded(lines).failure == Runtime(LineError + NatToString(n) + ": " + Trim(lines[n - 1])))
    decreases |lines|
  {
    var init := lines[..|lines| - 1];
    if Loaded(init).Err? {
      FailureNamesFirstBadLine(init);
      var n :| 1 <= n <= |init| && Loaded(init[..n - 1]).Ok?
        && !Skipped(init[n - 1]) && ParseRule(Trim(init[n - 1])).Err?
        && Loaded(init).failure == Runtime(LineError + NatToString(n) + ": " + Trim(init[n - 1]));
      assert init[..n - 1] == lines[..n - 1] && init[n - 1] == lines[n - 1];
    } else {
      var n := |lines|;
      assert lines[..n - 1] == init;
    }
  }
}
