# namespaced-modal, modelled in Dafny

namespaced-modal is a small term-rewriting language. A program is a set of rules
`<namespace.name> pattern replacement` over S-expressions. Evaluation rewrites a term with
the first matching rule (base cases first), evaluates the built-in operators (`if`, the
explicit `:` form and the infix operators `+ - * / % > < >= <= = !=`), and evaluates
children left to right.

This project models the engine under `namespaced-modal/src/main/java/core`, the readers
under `namespaced-modal/src/main/java/io`, and the earlier engine under
`src/main/java/{core,engine,parser}`. It proves the behaviour they promise.

## Layout

- **Code the source states as expressions becomes datatypes, functions and lemmas.** This
  covers terms, rules, the matcher's `substitute`, rule selection and the primitive
  operators.
- **Code that changes things step by step becomes classes and methods.** This covers the
  rule set, the evaluators with their memo tables and active sets, the core rewriter with
  its seen set and step counter, the cursor-based readers, the earlier rule manager and
  rewriter, and every loop. Each method is proved equal to a specification function
  (`ensures Outcome(r, State()) == EvalRec(...)`), and the promises are proved about those
  functions.

The modules are:

| module | models |
|---|---|
| `Wrappers` | `Option`, `Result` and failure kinds. Each Java exception is a `Failure`: `IllegalArgument`, `Arithmetic`, `IllegalState`, `Runtime`, or `StackOverflow` for running out of stack. |
| `Text` | the `String` operations the code relies on, over code points rather than UTF-16 units: `trim`, `contains`, `indexOf`, `startsWith`, `Character.isWhitespace`, the `\s` class, `String.valueOf(int)` |
| `Terms` | `core/Term.java`: `Atom`, `List`, `Cons`, numbers and booleans, `toList`, `toString` |
| `Rules` | `core/Rule.java` |
| `RuleMatcher` | `core/RuleMatcher.java` |
| `RuleStore` | `core/RuleSet.java` |
| `RuleRewriting` | `core/RuleRewriter.java`, with `isBaseCase` |
| `Primitives` | the operator table and `evaluateBinaryOp` shared by `SpecialOperatorEvaluator.java`, `UnifiedInterpreter.java` and `Evaluator.java` |
| `TermEvaluation` | `core/TermEvaluator.java` and `core/SpecialOperatorEvaluator.java` |
| `UnifiedInterpretation` | `core/UnifiedInterpreter.java` |
| `LazyEvaluation` | `core/Evaluator.java` and its `Thunk` |
| `CoreRewriting` | `core/Rewriter.java` |
| `TermParsing` | `io/TermParser.java` |
| `RuleSyntax` | the header expressions and the balanced-parenthesis split shared by both rule readers |
| `DynamicRuleParsing` | `io/DynamicRuleParser.java` |
| `RuleFileParsing` | `io/RuleParser.java` |
| `DraftTerms`, `DraftRules`, `RuleManagement`, `DraftRewriting`, `DraftParsing` | `src/main/java/core/Term.java`, `core/Rule.java`, `engine/RuleManager.java`, `engine/Rewriter.java`, `parser/Parser.java` |

Java recursion is bounded only by the stack. The evaluators therefore take a `fuel`
parameter, the depth left, and running out of it is the `StackOverflow` failure. Every
`catch (Exception e)` in the source lets that failure through, since a stack overflow is an
`Error`. The readers, the matcher, the earlier rewriter and the core rewriter recurse
without such a bound; "## Left out" lists them.

### Where the code and its description differ (the model follows the code)

- **`Cons` exists.** `Term` has three variants, not two: `Cons` is declared at
  `core/Term.java:97`. The matcher special-cases it, and `substitute` turns a rebuilt proper
  pair back into a list.
- **The core rewriter's cycle check never fires.** `Rewriter.rewriteInternal` adds the term
  to `seenTerms` and removes it explicitly before each recursive call and before returning
  (`core/Rewriter.java:43`, `:50`, `:55`). The set is therefore empty at every check, and
  only the step limit of 10000 stops a cycle
  (`CoreRewriting.CycleCheckNeverFires`, `CoreRewriting.TwoCycleHitsStepLimit`).
  `rewriteInternal` also calls a static `Evaluator.evaluate(Term)` that `Evaluator.java`
  does not define. The model takes that primitive evaluation as a parameter.
- **`DynamicRuleParser`'s checks.**
  - The empty-name check can never fire, because both expressions demand non-empty groups
    (`DynamicRuleParsing.EmptyNameUnreachable`).
  - A space in a name is refused with the message "Namespace and name must not be empty."
  - The check that follows, with the message about spaces, repeats the same condition and
    is unreachable.
- **Features that do not exist.** `RuleSet` has no `removeRule`. Neither `TermEvaluator`
  nor `UnifiedInterpreter` has domain guards or a step limit.
- **The earlier parser's null-skip.** In `parser/Parser.java`, the null check inside the
  list loop never skips: inside the loop, `parse` always finds a term
  (`DraftParsing.ElementsAt`).

## Model

Paths are relative to the repository root. `namespaced-modal/src/main/java` is the newer
engine and `src/main/java` the earlier one.

| member | source | states |
|---|---|---|
| Text.TrimSound | namespaced-modal/src/main/java/io/TermParser.java:17 | `trim` keeps a part of the input that neither begins nor ends with a character up to U+0020, and drops only blank text on either side |
| Text.TrimIdempotent | namespaced-modal/src/main/java/io/RuleParser.java:77 | trimming an already trimmed text changes nothing |
| Text.TrimBlankPrefix | namespaced-modal/src/main/java/io/DynamicRuleParser.java:40 | a blank prefix does not change the trimmed text |
| Text.Contains | namespaced-modal/src/main/java/core/RuleRewriter.java:54 | `contains` holds exactly when the text occurs at some index |
| Text.IndexOfSpec | namespaced-modal/src/main/java/io/RuleParser.java:106 | `indexOf` is -1 exactly when the character is missing, and otherwise the index of its first occurrence |
| Text.NatToStringValue | namespaced-modal/src/main/java/io/RuleParser.java:48 | the printed line number denotes the number |
| Text.IntToString | namespaced-modal/src/main/java/core/Term.java:159-161 | `String.valueOf(int)`: a minus sign exactly for negative values, then decimal digits |
| Text.IntToStringInjective | namespaced-modal/src/main/java/core/Term.java:159-161 | distinct integers print differently |
| Terms.AsBoolean | namespaced-modal/src/main/java/core/Term.java:38-40 | on a boolean atom, `asBoolean` is true exactly for `true` |
| Terms.Number | namespaced-modal/src/main/java/core/Term.java:159-161 | `number(int)` is a numeric atom whose value is the integer |
| Terms.DecimalRoundTrip | namespaced-modal/src/main/java/core/Term.java:159-161 | the decimal text of any integer parses back as that integer |
| Terms.NumberOfReal | namespaced-modal/src/main/java/core/Term.java:163-169 | an integral value inside the `int` range prints without a decimal point and reads back as the value; any other value is formatted by `%.6g` |
| Terms.Bool | namespaced-modal/src/main/java/core/Term.java:171-173 | `bool(b)` is a boolean atom whose `asBoolean` is `b` |
| Terms.HeadTailRebuild | namespaced-modal/src/main/java/core/Term.java:65-73 | `head` and `tail` fail exactly on the empty list; otherwise the head followed by the tail's elements is the list, and the tail is one shorter |
| Terms.ChainIsProper | namespaced-modal/src/main/java/core/Term.java:102-117 | the cdr chain of a nil-terminated cons chain yields its cars |
| Terms.ProperChainIsChain | namespaced-modal/src/main/java/core/Term.java:102-117 | a cdr chain that ends at the empty list is the nil-terminated chain of its cars |
| Terms.ConsToListExact | namespaced-modal/src/main/java/core/Term.java:102-117 | `toList` yields a list exactly for nil-terminated chains, and that list holds the cars in order |
| Terms.ToList | namespaced-modal/src/main/java/core/Term.java:102-117 | the loop that walks the cdrs computes `toList` |
| Terms.Length | namespaced-modal/src/main/java/core/Term.java:122-131 | `length` is -1 exactly for an improper pair, and otherwise the number of cars of the chain |
| Terms.ProperConsPrintsAsList | namespaced-modal/src/main/java/core/Term.java:133-143 | a proper cons chain prints exactly like the list `toList` makes of it |
| Terms.ChainTextJoins | namespaced-modal/src/main/java/core/Term.java:133-143 | the printed cars of a proper chain are joined by single spaces |
| Terms.ListShowsElement | namespaced-modal/src/main/java/core/Term.java:84-90 | the text of a list shows the text of each child |
| Terms.ListPrintsParenthesised | namespaced-modal/src/main/java/core/Term.java:84-90 | lists and pairs print between an opening and a closing parenthesis |
| Terms.IsVariable | namespaced-modal/src/main/java/core/Term.java:22-24 | an atom whose text starts with `?` is a variable; the matcher binds exactly these (`RuleMatcher.MatchBindsPatternVars`) |
| Terms.FunctionSymbol | namespaced-modal/src/main/java/core/Term.java:75-82 | the head atom's text, or the empty text for an empty list or a list headed by a list; the rule set files rules and the rewriter picks buckets by it |
| Terms.ToString | namespaced-modal/src/main/java/core/Term.java:42-143 | an atom prints its text, a list its children joined by single spaces in parentheses, a cons pair as a list when it is a proper chain and as `(a . b)` otherwise; the readers read the printed text back (`RuleFileParsing.ParseRuleRoundTrip`, `DynamicRuleParsing.AddRoundTrip`) |
| Primitives.SpecialOperatorsExactly | namespaced-modal/src/main/java/core/SpecialOperatorEvaluator.java:5-11 | exactly the thirteen symbols `: if + - * / % > < >= <= = !=` are special; `==` is not |
| Primitives.JavaRemainder | namespaced-modal/src/main/java/core/SpecialOperatorEvaluator.java:107-110 | Java's `%`: `a = b * trunc(a / b) + r`, with `r` taking the sign of `a` and smaller than `b` in magnitude |
| Primitives.BinaryOp | namespaced-modal/src/main/java/core/SpecialOperatorEvaluator.java:82-123 | `=`, `==` and `!=` compare any two atoms; other operators need two numbers; `/` and `%` refuse a zero divisor; comparisons yield booleans; an unknown operator on two numbers is refused with "Unknown operator: " and the operator, and only such an operator is refused that way |
| Primitives.BinaryOpIntegralResult | namespaced-modal/src/main/java/core/SpecialOperatorEvaluator.java:118-122 | `+ - *` with an integral result inside the `int` range yield the exact number |
| Primitives.BinaryOpArithmetic | namespaced-modal/src/main/java/core/SpecialOperatorEvaluator.java:98-122 | `+ - * / %` on two numbers, with a nonzero divisor for `/` and `%`, succeed with the printed value of the operation: the quotient for `/`, Java's truncating remainder for `%` |
| Primitives.BinaryOpComparison | namespaced-modal/src/main/java/core/SpecialOperatorEvaluator.java:111-120 | a comparison is true exactly when the numbers compare so |
| Primitives.EqualityNegation | namespaced-modal/src/main/java/core/SpecialOperatorEvaluator.java:84-90 | `!=` is the negation of `=`, and `=` is symmetric |
| Primitives.ProperConsAsList | namespaced-modal/src/main/java/core/TermEvaluator.java:31-38 | a top-level result that is a proper cons chain becomes its list; everything else is left alone |
| Primitives.IsSpecialOperator | namespaced-modal/src/main/java/core/SpecialOperatorEvaluator.java:5-11 | the thirteen special symbols; `Primitives.SpecialOperatorsExactly` states the set |
| Rules.FullName | namespaced-modal/src/main/java/core/Rule.java:5-7 | `fullName` is the namespace, a dot, and the name |
| Rules.FullNameSplits | namespaced-modal/src/main/java/core/Rule.java:5-7 | with a namespace without dots, the namespace and the name are read back from the full name |
| Rules.NameMatchesIgnoresRest | namespaced-modal/src/main/java/core/Rule.java:9-11 | `matches` depends on the name only, not on the namespace, pattern or replacement |
| Rules.RuleText | namespaced-modal/src/main/java/core/Rule.java:13-16 | `toString` is `<fullName> `, the pattern, a space and the replacement |
| RuleStore.RuleSet.constructor | namespaced-modal/src/main/java/core/RuleSet.java:5-7 | a new rule set is empty and valid |
| RuleStore.NamespacesOf | namespaced-modal/src/main/java/core/RuleSet.java:40-44 | the namespaces of a rule list are those of its rules |
| RuleStore.BucketAppend | namespaced-modal/src/main/java/core/RuleSet.java:9-17 | adding a rule extends exactly the bucket of its pattern's function symbol, at the end |
| RuleStore.RuleSet.AddRule | namespaced-modal/src/main/java/core/RuleSet.java:9-17 | `addRule` appends to the global list and to the rule's bucket, if any, and keeps every bucket equal to the stored rules filed under its key |
| RuleStore.BucketMembers | namespaced-modal/src/main/java/core/RuleSet.java:9-24 | a bucket holds exactly the stored rules whose pattern is a non-empty list headed by its key; atom and `()` patterns are in no bucket, and a non-atom head files under `""` |
| RuleStore.InNamespaceAppend | namespaced-modal/src/main/java/core/RuleSet.java:34-38 | filtering by namespace distributes over concatenation, so it keeps the order |
| RuleStore.InNamespaceMembers | namespaced-modal/src/main/java/core/RuleSet.java:34-38 | the namespace filter keeps exactly the rules of that namespace |
| RuleStore.RuleSet.GetRulesForNamespace | namespaced-modal/src/main/java/core/RuleSet.java:34-38 | `getRulesForNamespace` holds exactly the stored rules of that namespace |
| RuleStore.RuleSet.GetRulesForFunction | namespaced-modal/src/main/java/core/RuleSet.java:26-28 | `getRulesForFunction` is the bucket in insertion order, and empty for an unknown symbol |
| RuleStore.RuleSet.GetNamespaces | namespaced-modal/src/main/java/core/RuleSet.java:40-44 | `getNamespaces` is the set of namespaces of the stored rules |
| RuleStore.RuleSet.GetAllRules | namespaced-modal/src/main/java/core/RuleSet.java:30-32 | every stored rule in insertion order; `AddRule` states how it grows |
| RuleStore.RuleSet.Size | namespaced-modal/src/main/java/core/RuleSet.java:46-48 | the number of stored rules, the length of the list `GetAllRules` gives |
| RuleMatcher.Match | namespaced-modal/src/main/java/core/RuleMatcher.java:11-17 | `match` matches from no bindings and yields nothing on failure |
| RuleMatcher.MatchInternal | namespaced-modal/src/main/java/core/RuleMatcher.java:26-72 | `matchInternal` with its mutable table computes the matching function |
| RuleMatcher.MatchList | namespaced-modal/src/main/java/core/RuleMatcher.java:74-116 | `matchList` and its loop compute list matching: the dotted `(p . q)` form, otherwise equal length and child by child |
| RuleMatcher.ListToCons | namespaced-modal/src/main/java/core/RuleMatcher.java:138-152 | `listToCons`, built from the right, is the nil-terminated chain of the children |
| RuleMatcher.MatchBindsPatternVars | namespaced-modal/src/main/java/core/RuleMatcher.java:26-116 | a successful match never overwrites a binding, and binds exactly the pattern's variables |
| RuleMatcher.MatchSound | namespaced-modal/src/main/java/core/RuleMatcher.java:26-116 | for a pattern without cons pairs or dotted forms and a term without cons pairs, instantiating the pattern with the bindings of a successful match, or with any bindings that keep them, gives back the term |
| RuleMatcher.MatchComplete | namespaced-modal/src/main/java/core/RuleMatcher.java:26-116 | a plain pattern matches every instance of itself, binding each variable to what the instance was built with |
| RuleMatcher.SubstituteUnbound | namespaced-modal/src/main/java/core/RuleMatcher.java:154-157 | a template without cons pairs, none of whose variables is bound, is returned unchanged |
| RuleMatcher.SubstituteConvertsInnermostPair | namespaced-modal/src/main/java/core/RuleMatcher.java:167-182 | a rebuilt pair becomes a list only when it is proper, inner pair first, so the chain `(x . (y . ()))` comes back as `(x . (y))` and not as `(x y)` |
| RuleMatcher.RepeatedVariableExample | namespaced-modal/src/main/java/core/RuleMatcher.java:28-34 | a repeated variable must bind equal subterms |
| RuleMatcher.DottedPatternExample | namespaced-modal/src/main/java/core/RuleMatcher.java:79-103 | the dotted pattern binds the head and the list of the rest, and fails on `()` |
| RuleMatcher.Substitute | namespaced-modal/src/main/java/core/RuleMatcher.java:154-185 | a list stays a list of the same length, and a cons-free template filled with cons-free values stays cons-free; `RuleMatcher.MatchSound` makes it the inverse of a match |
| RuleRewriting.NoDigitNoNumber | namespaced-modal/src/main/java/core/RuleRewriter.java:59-61 | a text without digits has no standalone number |
| RuleRewriting.FirstInGroupSpec | namespaced-modal/src/main/java/core/RuleRewriter.java:23-35 | one pass finds nothing exactly when no rule of its group matches, and otherwise rewrites by the first that does |
| RuleRewriting.FirstInGroupFound | namespaced-modal/src/main/java/core/RuleRewriter.java:23-35 | a pass that finds a rewrite found the first matching rule of its group |
| RuleRewriting.BaseCasesFirstNone | namespaced-modal/src/main/java/core/RuleRewriter.java:15-50 | the bucket yields nothing exactly when none of its rules matches |
| RuleRewriting.BaseCasesFirstWinner | namespaced-modal/src/main/java/core/RuleRewriter.java:15-50 | the winner, the first matching base case or else the first matching rule, gives the result, whatever the insertion order |
| RuleRewriting.BaseCasesFirstFound | namespaced-modal/src/main/java/core/RuleRewriter.java:15-50 | every result comes from a winner |
| RuleRewriting.TryRewriteWinner | namespaced-modal/src/main/java/core/RuleRewriter.java:15-50 | a non-empty list is rewritten exactly when some rule of its symbol's bucket matches, and then by that bucket's winner |
| RuleRewriting.AtomsAndNilNotRewritten | namespaced-modal/src/main/java/core/RuleRewriter.java:16-18 | atoms and `()` are never rewritten |
| RuleRewriting.FactZeroIsBaseCase | namespaced-modal/src/main/java/core/RuleRewriter.java:58-61 | a pattern with a standalone number makes a base case |
| RuleRewriting.FactGeneralIsNotBaseCase | namespaced-modal/src/main/java/core/RuleRewriter.java:52-70 | a rule with no hint in its name or pattern, whose replacement calls its own symbol, is not a base case |
| RuleRewriting.BaseCaseWinsExample | namespaced-modal/src/main/java/core/RuleRewriter.java:23-35 | with the general factorial rule stored first, `(fact 0)` still rewrites by the rule for zero |
| RuleRewriting.FactZeroRewritesZero | namespaced-modal/src/main/java/core/RuleRewriter.java:25-27 | the rule for zero matches `(fact 0)` and rewrites it to `1` |
| RuleRewriting.IsBaseCase | namespaced-modal/src/main/java/core/RuleRewriter.java:52-70 | the base-case heuristic: a hint word in the full name, a standalone number or `()` in the pattern text, or a replacement that does not mention the pattern's symbol; `FactZeroIsBaseCase` and `FactGeneralIsNotBaseCase` show both outcomes |
| RuleRewriting.TryRewrite | namespaced-modal/src/main/java/core/RuleRewriter.java:15-50 | one rewrite at the root from the bucket of the term's symbol, base cases first; `TryRewriteWinner` and `AtomsAndNilNotRewritten` state what it promises |
| CoreRewriting.CycleCheckNeverFires | namespaced-modal/src/main/java/core/Rewriter.java:30-58 | from an empty seen set, the run equals one with no cycle check at all, and leaves the set empty |
| CoreRewriting.ResultIsNormalForm | namespaced-modal/src/main/java/core/Rewriter.java:30-58 | a returned term is left unchanged by a further step and by primitive evaluation, and the counter stays within the limit |
| CoreRewriting.TwoCycleHitsStepLimit | namespaced-modal/src/main/java/core/Rewriter.java:31-33 | two terms that step into each other run into the step-limit failure |
| CoreRewriting.AtomsAndNilStay | namespaced-modal/src/main/java/core/Rewriter.java:65-119 | a step leaves atoms and `()` as they are |
| CoreRewriting.FirstChangedChild | namespaced-modal/src/main/java/core/Rewriter.java:68-76 | the first child that changes is replaced, and nothing else |
| CoreRewriting.NoChildChanges | namespaced-modal/src/main/java/core/Rewriter.java:82-116 | when no child changes, the first matching rule of the bucket is applied |
| CoreRewriting.FirstMatchInStoreOrder | namespaced-modal/src/main/java/core/Rewriter.java:87-116 | rules are tried in store order with no base-case preference, and a term no rule matches stays |
| CoreRewriting.HaltedStepChangesNothing | namespaced-modal/src/main/java/core/Rewriter.java:106-108 | while the debugger says to stop, no step changes anything |
| CoreRewriting.Rewriter.constructor | namespaced-modal/src/main/java/core/Rewriter.java:16-19 | a new rewriter has an empty seen set and no steps |
| CoreRewriting.Rewriter.Rewrite | namespaced-modal/src/main/java/core/Rewriter.java:21-28 | `rewrite` starts afresh, whatever an earlier call left |
| CoreRewriting.Rewriter.RewriteInternal | namespaced-modal/src/main/java/core/Rewriter.java:30-58 | `rewriteInternal` computes the run, with its seen set and step counter |
| CoreRewriting.Rewriter.RewriteOnce | namespaced-modal/src/main/java/core/Rewriter.java:60-120 | `rewriteOnce` and its loops compute one step |
| TermEvaluation.TermEvaluator.constructor | namespaced-modal/src/main/java/core/TermEvaluator.java:14-18 | a new evaluator has an empty memo table and nothing active |
| TermEvaluation.TermEvaluator.Evaluate | namespaced-modal/src/main/java/core/TermEvaluator.java:20-39 | `evaluate` computes the top-level evaluation and the bookkeeping it leaves |
| TermEvaluation.TermEvaluator.EvaluateRecursive | namespaced-modal/src/main/java/core/TermEvaluator.java:41-60 | `evaluateRecursive` computes the memoised, cycle-guarded evaluation |
| TermEvaluation.TermEvaluator.EvaluateCore | namespaced-modal/src/main/java/core/TermEvaluator.java:62-91 | `evaluateCore`: special operators, else one rewrite evaluated again, else the children |
| TermEvaluation.TermEvaluator.EvaluateSubterms | namespaced-modal/src/main/java/core/TermEvaluator.java:93-106 | `evaluateSubterms` and its loop evaluate the children left to right and return the same list when none changed |
| TermEvaluation.TopBookkeeping | namespaced-modal/src/main/java/core/TermEvaluator.java:20-39 | after a top-level evaluation nothing is active, and the memo holds only results that differ from their term |
| TermEvaluation.RecBookkeeping | namespaced-modal/src/main/java/core/TermEvaluator.java:41-60 | a recursive evaluation that returns hands back no more active terms than it was given, and memoises only changed results |
| TermEvaluation.NestedEvaluateClearsActive | namespaced-modal/src/main/java/core/TermEvaluator.java:20-23 | the nested public `evaluate` of an `if` argument clears the active set, so the caller's own entry is gone on return |
| TermEvaluation.SpecialIgnoresState | namespaced-modal/src/main/java/core/SpecialOperatorEvaluator.java:13-80 | a special operator's result does not depend on the caller's memo table or active set |
| TermEvaluation.AtomsAndNilAreValues | namespaced-modal/src/main/java/core/TermEvaluator.java:62-69 | atoms and `()` evaluate to themselves and leave no bookkeeping |
| TermEvaluation.InfixOnAtoms | namespaced-modal/src/main/java/core/SpecialOperatorEvaluator.java:43-60 | an infix operator on two atoms computes the binary operator; the second evaluation inside the `:` form is invisible on atoms |
| TermEvaluation.IfChoosesBranch | namespaced-modal/src/main/java/core/SpecialOperatorEvaluator.java:25-41 | `if` on a literal boolean is the evaluation of the chosen branch alone |
| TermEvaluation.ColonForm | namespaced-modal/src/main/java/core/SpecialOperatorEvaluator.java:52-57 | the rebuilt `:` form has four elements with the operator second |
| TermEvaluation.ElementsKeepLength | namespaced-modal/src/main/java/core/TermEvaluator.java:93-106 | evaluating the children yields a list as long as the input |
| TermEvaluation.SpecialOperatorEvaluator.Evaluate | namespaced-modal/src/main/java/core/SpecialOperatorEvaluator.java:13-23 | dispatch on the head symbol; any other head is refused |
| TermEvaluation.SpecialOperatorEvaluator.EvaluateIf | namespaced-modal/src/main/java/core/SpecialOperatorEvaluator.java:25-41 | `if` needs four elements and a boolean condition, and evaluates one branch |
| TermEvaluation.SpecialOperatorEvaluator.EvaluateInfixOperator | namespaced-modal/src/main/java/core/SpecialOperatorEvaluator.java:43-60 | infix forms need three elements; the arguments are evaluated, then again inside the `:` form |
| TermEvaluation.SpecialOperatorEvaluator.EvaluateArithmetic | namespaced-modal/src/main/java/core/SpecialOperatorEvaluator.java:62-80 | the `:` form needs four elements, an atom operator and atom arguments |
| TermEvaluation.SelfRewriteHitsCycleGuard | namespaced-modal/src/main/java/core/TermEvaluator.java:41-60 | a term that a rule rewrites to itself evaluates to itself: the second visit finds it active and returns it |
| UnifiedInterpretation.ApplyRules | namespaced-modal/src/main/java/core/UnifiedInterpreter.java:207-234 | the rule step is the base-cases-first rewrite, or the term itself when no rule matches |
| UnifiedInterpretation.TopBookkeeping | namespaced-modal/src/main/java/core/UnifiedInterpreter.java:19-35 | after `evaluate` nothing is active and the memo holds only changed results |
| UnifiedInterpretation.RecBookkeeping | namespaced-modal/src/main/java/core/UnifiedInterpreter.java:39-59 | every evaluation hands back exactly the active set it was given, and memoises only changed results |
| UnifiedInterpretation.UnchangedRuleDoesNotFire | namespaced-modal/src/main/java/core/UnifiedInterpreter.java:80-89 | a rule whose result equals the term does not count; the children are evaluated as if no rule matched |
| UnifiedInterpretation.AtomIsValue | namespaced-modal/src/main/java/core/UnifiedInterpreter.java:39-64 | an atom not in the memo evaluates to itself and leaves the bookkeeping as it was |
| UnifiedInterpretation.InfixOnAtoms | namespaced-modal/src/main/java/core/UnifiedInterpreter.java:125-205 | an infix operator on two atoms computes the binary operator |
| UnifiedInterpretation.IfChoosesBranch | namespaced-modal/src/main/java/core/UnifiedInterpreter.java:107-123 | `if` on a literal boolean is the evaluation of the chosen branch, from the caller's own bookkeeping |
| UnifiedInterpretation.UnifiedInterpreter.constructor | namespaced-modal/src/main/java/core/UnifiedInterpreter.java:14-17 | a new interpreter has an empty memo table and nothing active |
| UnifiedInterpretation.UnifiedInterpreter.Evaluate | namespaced-modal/src/main/java/core/UnifiedInterpreter.java:19-35 | `evaluate` computes the top-level evaluation |
| UnifiedInterpretation.UnifiedInterpreter.EvaluateRecursive | namespaced-modal/src/main/java/core/UnifiedInterpreter.java:39-59 | `evaluateRecursive`: memo hit, active term returned unchanged, else the core step, memoised when changed |
| UnifiedInterpretation.UnifiedInterpreter.EvaluateCore | namespaced-modal/src/main/java/core/UnifiedInterpreter.java:61-90 | `evaluateCore`: special operators, else a changing rule evaluated again, else the children |
| UnifiedInterpretation.UnifiedInterpreter.HandleSpecialOperators | namespaced-modal/src/main/java/core/UnifiedInterpreter.java:92-105 | no answer exactly for a head that is not special, and then the bookkeeping is untouched |
| UnifiedInterpretation.UnifiedInterpreter.EvaluateIf | namespaced-modal/src/main/java/core/UnifiedInterpreter.java:107-123 | `evaluateIf` through the private recursive step |
| UnifiedInterpretation.UnifiedInterpreter.EvaluateInfixOperator | namespaced-modal/src/main/java/core/UnifiedInterpreter.java:125-142 | `evaluateInfixOperator` through the private recursive step |
| UnifiedInterpretation.UnifiedInterpreter.EvaluateArithmetic | namespaced-modal/src/main/java/core/UnifiedInterpreter.java:144-162 | `evaluateArithmetic` through the private recursive step, then the binary operator |
| UnifiedInterpretation.UnifiedInterpreter.TryApplyRulesWithPriority | namespaced-modal/src/main/java/core/UnifiedInterpreter.java:207-234 | the two loops compute the base-cases-first rule step |
| UnifiedInterpretation.UnifiedInterpreter.EvaluateSubterms | namespaced-modal/src/main/java/core/UnifiedInterpreter.java:266-279 | the children left to right, and the same list when none changed |
| LazyEvaluation.ThunkForm | namespaced-modal/src/main/java/core/Evaluator.java:77-95 | the `:` form built for the thunks has four elements with the operator second |
| LazyEvaluation.LazyRefusesOtherHeads | namespaced-modal/src/main/java/core/Evaluator.java:45-51 | a head that is not special is refused, with the eager evaluator's error |
| LazyEvaluation.LazyIfAgreesWithEager | namespaced-modal/src/main/java/core/Evaluator.java:57-75 | `if` evaluates the same lazily and eagerly |
| LazyEvaluation.LazyArithmeticAgreesWithEager | namespaced-modal/src/main/java/core/Evaluator.java:97-113 | the `:` form with an atom operator evaluates the same lazily and eagerly; otherwise both fail |
| LazyEvaluation.LazyInfixAgreesWithEager | namespaced-modal/src/main/java/core/Evaluator.java:77-95 | infix forms agree with the eager evaluator whenever evaluating the arguments' values again changes nothing |
| LazyEvaluation.LazyInfixOnAtoms | namespaced-modal/src/main/java/core/Evaluator.java:132-173 | an infix operator on atoms computes the binary operator |
| LazyEvaluation.Thunk.constructor | namespaced-modal/src/main/java/core/Evaluator.java:16-19 | a new thunk is not evaluated and holds nothing |
| LazyEvaluation.Thunk.Force | namespaced-modal/src/main/java/core/Evaluator.java:21-27 | an evaluated thunk returns its value and touches nothing; otherwise the expression is evaluated through the evaluator's `evaluate`, a value is kept for every later call, and a failure leaves the thunk unevaluated |
| LazyEvaluation.Evaluator.constructor | namespaced-modal/src/main/java/core/Evaluator.java:8 | the cache starts empty |
| LazyEvaluation.Evaluator.Evaluate | namespaced-modal/src/main/java/core/Evaluator.java:38-55 | a cached list returns its cached value and changes no cache entry; otherwise the operator's value is computed and cached; a failure caches nothing |
| LazyEvaluation.Evaluator.EvaluateIfLazy | namespaced-modal/src/main/java/core/Evaluator.java:57-75 | the condition, then only the chosen branch |
| LazyEvaluation.Evaluator.EvaluateInfixOperatorLazy | namespaced-modal/src/main/java/core/Evaluator.java:77-95 | three elements, with the arguments wrapped in thunks |
| LazyEvaluation.Evaluator.EvaluateArithmeticLazy | namespaced-modal/src/main/java/core/Evaluator.java:97-113 | the operator is checked to be an atom before either argument is evaluated |
| LazyEvaluation.Evaluator.EvaluateArithmeticWithThunks | namespaced-modal/src/main/java/core/Evaluator.java:115-130 | each thunk is forced once, the first before the second, and both values must be atoms |
| TermParsing.SkipWs | namespaced-modal/src/main/java/io/TermParser.java:68-72 | the first position from `p` on that holds no whitespace |
| TermParsing.AtomEnd | namespaced-modal/src/main/java/io/TermParser.java:52-59 | the end of the maximal run of atom characters from `p`: every character before it is one, the character at it is not |
| TermParsing.ExpectAt | namespaced-modal/src/main/java/io/TermParser.java:74-79 | succeeds exactly on the expected character, and moves one past it |
| TermParsing.AtomAt | namespaced-modal/src/main/java/io/TermParser.java:52-66 | an atom is read exactly when an atom character is at `p` |
| TermParsing.TermAtConsFree | namespaced-modal/src/main/java/io/TermParser.java:21-66 | the reader never yields a cons pair |
| TermParsing.BlankInputFails | namespaced-modal/src/main/java/io/TermParser.java:22-26 | blank input is refused with "Unexpected end of input" |
| TermParsing.ListEndsWithParen | namespaced-modal/src/main/java/io/TermParser.java:37-50 | a list is read up to and including its closing parenthesis |
| TermParsing.MissingCloseParen | namespaced-modal/src/main/java/io/TermParser.java:74-79 | `(a` is refused for want of `)` at position 2 |
| TermParsing.StrayCloseParen | namespaced-modal/src/main/java/io/TermParser.java:61-63 | `)` is refused as an empty atom at position 0 |
| TermParsing.DotIsAnAtom | namespaced-modal/src/main/java/io/TermParser.java:30-34 | `(?h . ?t)` reads as a three-element list with the atom `.` in the middle |
| TermParsing.ReadPrinted | namespaced-modal/src/main/java/io/TermParser.java:21-66 | the text of a readable term, followed by anything an atom cannot continue with, reads back as that term |
| TermParsing.ParseIgnoresRest | namespaced-modal/src/main/java/io/TermParser.java:12-35 | `parse(toString(t) + rest)` is `t` when `rest` cannot continue an atom; with no rest this is the round trip |
| TermParsing.TermParser.constructor | namespaced-modal/src/main/java/io/TermParser.java:16-19 | the input is trimmed and the cursor is at 0 |
| TermParsing.TermParser.Parse | namespaced-modal/src/main/java/io/TermParser.java:12-14 | `parse` reads one term from the trimmed input |
| TermParsing.TermParser.ParseTerm | namespaced-modal/src/main/java/io/TermParser.java:21-35 | `parseTerm` reads the term at the cursor and leaves the cursor after it |
| TermParsing.TermParser.ParseList | namespaced-modal/src/main/java/io/TermParser.java:37-50 | `parseList` and its loop read the list at the cursor |
| TermParsing.TermParser.ParseAtom | namespaced-modal/src/main/java/io/TermParser.java:52-66 | `parseAtom` reads the maximal run of atom characters |
| TermParsing.TermParser.SkipWhitespace | namespaced-modal/src/main/java/io/TermParser.java:68-72 | the cursor moves past the whitespace |
| TermParsing.TermParser.Expect | namespaced-modal/src/main/java/io/TermParser.java:74-79 | an error leaves the cursor where it is |
| RuleSyntax.MatchHeaderSound | namespaced-modal/src/main/java/io/DynamicRuleParser.java:10 | what the header function finds is a way `^<([^.]+)\.([^>]+)>\s+(.+)$` matches |
| RuleSyntax.MatchHeaderComplete | namespaced-modal/src/main/java/io/RuleParser.java:15 | every way the header expression matches is found, up to blanks moving between `\s+` and the rest, which trimming removes |
| RuleSyntax.MatchHeaderNames | namespaced-modal/src/main/java/io/DynamicRuleParser.java:10 | the namespace and name are non-empty, the namespace without dots and the name without `>` |
| RuleSyntax.MatchRemoveSound | namespaced-modal/src/main/java/io/DynamicRuleParser.java:11 | what the removal function finds is a way `^>([^.]+)\.([^<]+)<\s*$` matches |
| RuleSyntax.MatchRemoveComplete | namespaced-modal/src/main/java/io/DynamicRuleParser.java:11 | the removal expression matches in one way only, and the function finds it |
| RuleSyntax.MatchRemoveNames | namespaced-modal/src/main/java/io/DynamicRuleParser.java:11 | the removal groups are non-empty, the namespace without dots and the name without `<` |
| RuleSyntax.FirstClose | namespaced-modal/src/main/java/io/RuleParser.java:79-94 | the first index at which the depth counter returns to zero at a `)` |
| RuleSyntax.SplitPatternParts | namespaced-modal/src/main/java/io/RuleParser.java:76-116 | the pattern is a prefix of the text, ending where its first parenthesis closes or at the first space, and the replacement is the trimmed remainder |
| RuleSyntax.SplitPatternFailures | namespaced-modal/src/main/java/io/DynamicRuleParser.java:108-150 | the split fails only with the reader's unbalanced or missing-replacement message |
| RuleSyntax.SplitAtClose | namespaced-modal/src/main/java/io/DynamicRuleParser.java:108-150 | `parsePatternAndReplacement` with its counter loop computes the split |
| RuleSyntax.SplitPrinted | namespaced-modal/src/main/java/io/RuleParser.java:76-116 | a printed pattern, a space and a replacement split back into the two texts |
| RuleSyntax.ReadRuleHeader | namespaced-modal/src/main/java/io/RuleParser.java:56-64 | the header of a printed rule gives back its namespace, its name, and its pattern and replacement texts |
| DynamicRuleParsing.Rewrapped | namespaced-modal/src/main/java/io/DynamicRuleParser.java:84-92 | the `catch` reports every exception again, under the syntax-error prefix; a stack overflow stays a stack overflow, and nothing else becomes one |
| DynamicRuleParsing.NotACommand | namespaced-modal/src/main/java/io/DynamicRuleParser.java:39-55 | input that, trimmed, starts with neither `<` nor `>` matches neither expression and is refused with the usage message |
| DynamicRuleParsing.AddedRuleShape | namespaced-modal/src/main/java/io/DynamicRuleParser.java:39-93 | an added rule has a non-empty namespace without dots or spaces and a non-empty name without `>` or spaces |
| DynamicRuleParsing.EmptyNameUnreachable | namespaced-modal/src/main/java/io/DynamicRuleParser.java:62-65 | no input is refused with the empty-name message |
| DynamicRuleParsing.AddNeverEmptyName | namespaced-modal/src/main/java/io/DynamicRuleParser.java:57-93 | with non-empty groups, no failure carries the empty-name message |
| DynamicRuleParsing.EmptyNameDistinct | namespaced-modal/src/main/java/io/DynamicRuleParser.java:57-93 | the empty-name message is no other message of this reader |
| DynamicRuleParsing.SpaceInNamespace | namespaced-modal/src/main/java/io/DynamicRuleParser.java:67-69 | a space in the namespace is refused with the message "Namespace and name must not be empty." |
| DynamicRuleParsing.RemoveRoundTrip | namespaced-modal/src/main/java/io/DynamicRuleParser.java:95-106 | `>namespace.name<` asks to remove the rule with that full name |
| DynamicRuleParsing.AddRoundTrip | namespaced-modal/src/main/java/io/DynamicRuleParser.java:39-93 | a rule's `toString` typed as a command adds that very rule |
| DynamicRuleParsing.Parse | namespaced-modal/src/main/java/io/DynamicRuleParser.java:39-55 | a command to add comes only from a trimmed input that starts with `<`, one to remove only from one that starts with `>` |
| DynamicRuleParsing.ParseAddRule | namespaced-modal/src/main/java/io/DynamicRuleParser.java:57-93 | an accepted rule is named by the two groups, and both are non-empty and free of spaces |
| DynamicRuleParsing.ParseRemoveRule | namespaced-modal/src/main/java/io/DynamicRuleParser.java:95-106 | it refuses exactly an empty group; otherwise it asks to remove a full name that splits back into the two groups when the namespace has no dot |
| DynamicRuleParsing.IsDynamicRuleCommand | namespaced-modal/src/main/java/io/DynamicRuleParser.java:153-156 | the trimmed input starts with `<` or `>`; `DynamicRuleParsing.NotACommand` shows that `Parse` refuses everything else |
| RuleFileParsing.ParseRuleRoundTrip | namespaced-modal/src/main/java/io/RuleParser.java:56-74 | a printed rule is a line that reads back as that rule |
| RuleFileParsing.LoadFromLines | namespaced-modal/src/main/java/io/RuleParser.java:29-54 | the line loop yields a fresh valid rule set holding the rules of the file, or the failure of the first bad line |
| RuleFileParsing.LoadPrinted | namespaced-modal/src/main/java/io/RuleParser.java:29-54 | a file of printed rules, one per line, loads as those rules in that order |
| RuleFileParsing.FailureIsFinal | namespaced-modal/src/main/java/io/RuleParser.java:44-49 | after a line fails, the lines after it are not read |
| RuleFileParsing.SkippedLineIgnored | namespaced-modal/src/main/java/io/RuleParser.java:40-42 | blank lines and comments add nothing |
| RuleFileParsing.FailureNamesFirstBadLine | namespaced-modal/src/main/java/io/RuleParser.java:44-49 | a failure names the first line that does not read, by its number counted from one, after lines that all read |
| RuleFileParsing.ParseRule | namespaced-modal/src/main/java/io/RuleParser.java:56-74 | a rule read from a line has a non-empty namespace without dots and a non-empty name without `>`; a line that does not start with `<` is refused with the line in the message |
| DraftTerms.Size | src/main/java/core/Term.java:39-41 | 0 for an atom, else the number of children |
| DraftTerms.VariableName | src/main/java/core/Term.java:47-49 | the first character followed by the name is the text |
| DraftTerms.VariableNameAfterMark | src/main/java/core/Term.java:43-49 | `?name` is a variable whose name is `name` |
| DraftTerms.ListPrintsParenthesised | src/main/java/core/Term.java:51-65 | a list prints as its children joined by single spaces between parentheses |
| DraftTerms.EqualsIsEquality | src/main/java/core/Term.java:67-79 | `equals` is structural equality: atoms by value, lists child by child, never an atom and a list |
| DraftTerms.IsVariable | src/main/java/core/Term.java:43-45 | an atom whose text starts with `?` |
| DraftTerms.ToString | src/main/java/core/Term.java:52-65 | an atom prints its text, a list its children joined by single spaces in parentheses (`DraftTerms.ListPrintsParenthesised`) |
| DraftTerms.Equals | src/main/java/core/Term.java:67-79 | structural comparison; `DraftTerms.EqualsIsEquality` proves it is equality |
| DraftRules.LastIndexOfSpec | src/main/java/core/Rule.java:25-28 | `lastIndexOf` is -1 exactly when the character is missing, and otherwise its last position |
| DraftRules.SplitNameSpec | src/main/java/core/Rule.java:18-33 | a full name with a dot splits at its last dot into a namespace and a name without dots; otherwise there is no namespace and the name is the full name |
| DraftRules.DotContained | src/main/java/core/Rule.java:25 | `contains(".")` holds exactly when the text has a dot |
| DraftRules.IdCounter.constructor | src/main/java/core/Rule.java:12 | ids start at 0 |
| DraftRules.Rule.constructor | src/main/java/core/Rule.java:18-33 | the named constructor takes the next id and splits the name, with no references yet |
| DraftRules.Rule.Anonymous | src/main/java/core/Rule.java:14-16 | the two-argument constructor gives an anonymous rule with neither namespace nor name |
| DraftRules.Rule.IncrementReferences | src/main/java/core/Rule.java:63-65 | one more reference, and nothing else changes |
| DraftRules.Rule.ToString | src/main/java/core/Rule.java:76-87 | `<`, the full name if any, `> `, then the pattern, a space and the replacement |
| DraftRules.NamespaceNeedsDot | src/main/java/core/Rule.java:67-73 | a rule has a namespace exactly when its full name has a dot; an anonymous rule has no namespace and no name |
| DraftRules.Rule.IsAnonymous | src/main/java/core/Rule.java:67-69 | the rule has no full name; `DraftRules.NamespaceNeedsDot` shows it then has no namespace and no name |
| DraftRules.Rule.HasNamespace | src/main/java/core/Rule.java:71-73 | the rule has a namespace; `DraftRules.NamespaceNeedsDot` shows this holds exactly when the full name has a dot |
| DraftRules.Rule.Header | src/main/java/core/Rule.java:76-82 | what `toString` puts before the pattern: `<`, the full name if any, `> `; `DraftRules.Rule.ToString` starts with it |
| RuleManagement.CouldMatchItself | src/main/java/engine/RuleManager.java:49-72 | every term could match itself |
| RuleManagement.FirstCouldMatch | src/main/java/engine/RuleManager.java:40-47 | the first rule whose pattern could match, or -1 when none could |
| RuleManagement.FirstWithPattern | src/main/java/engine/RuleManager.java:28-38 | the first rule with an equal pattern, or -1 |
| RuleManagement.Unused | src/main/java/engine/RuleManager.java:86-94 | exactly the rules with no references |
| RuleManagement.RuleManager.constructor | src/main/java/engine/RuleManager.java:12-14 | a new manager holds no rules |
| RuleManagement.RuleManager.AddRule | src/main/java/engine/RuleManager.java:16-18 | the rule goes at the end |
| RuleManagement.RuleManager.AddNamedRule | src/main/java/engine/RuleManager.java:20-22 | a new rule with the next id goes at the end |
| RuleManagement.RuleManager.AddAnonymousRule | src/main/java/engine/RuleManager.java:24-26 | a new anonymous rule with the next id goes at the end |
| RuleManagement.RuleManager.RemoveRule | src/main/java/engine/RuleManager.java:28-38 | removes only the first rule with an equal pattern and says so; otherwise the list is unchanged |
| RuleManagement.RuleManager.FindMatchingRule | src/main/java/engine/RuleManager.java:40-47 | the first rule whose pattern could match, or none |
| RuleManagement.RuleManager.Clear | src/main/java/engine/RuleManager.java:82-84 | the list is emptied |
| RuleManagement.RuleManager.GetUnusedRules | src/main/java/engine/RuleManager.java:86-94 | the rules with no references, in order |
| RuleManagement.CouldMatch | src/main/java/engine/RuleManager.java:49-72 | the quick test: a variable fits anything, atoms by text, lists of one size child by child; `CouldMatchItself` and `DraftRewriting.MatchCouldMatch` relate it to matching |
| RuleManagement.RuleManager.GetAllRules | src/main/java/engine/RuleManager.java:74-76 | the stored rules in order; `AddRule` states how they grow |
| RuleManagement.RuleManager.GetRuleCount | src/main/java/engine/RuleManager.java:78-80 | the number of stored rules |
| DraftRewriting.FirstMatching | src/main/java/engine/Rewriter.java:65-73 | the first rule whose pattern matches the whole term, or -1 |
| DraftRewriting.NoRuleMatches | src/main/java/engine/Rewriter.java:50-62 | a list no rule matches steps each child, with the reference counts and bindings of those child steps |
| DraftRewriting.MatchSound | src/main/java/engine/Rewriter.java:75-104 | a successful match binds every variable of the pattern, and substituting gives back the term |
| DraftRewriting.MatchKeeps | src/main/java/engine/Rewriter.java:75-84 | matching never overwrites a binding |
| DraftRewriting.MatchCouldMatch | src/main/java/engine/Rewriter.java:75-104 | whatever matches also passes the rule manager's quick test |
| DraftRewriting.RepeatedVariableChecked | src/main/java/engine/Rewriter.java:78-81 | `(?x ?x)` against `(a b)` passes the quick test but does not match |
| DraftRewriting.SubstNothing | src/main/java/engine/Rewriter.java:106-123 | with no bindings, substitution leaves any term unchanged |
| DraftRewriting.SubstStable | src/main/java/engine/Rewriter.java:106-123 | once every variable of a template is bound, more bindings do not change the substitution |
| DraftRewriting.NothingFiredNothingChanged | src/main/java/engine/Rewriter.java:35-63 | a step in which no rule fires returns the term unchanged |
| DraftRewriting.IterateOutcome | src/main/java/engine/Rewriter.java:23-33 | `rewriteMultiple` ends at a fixed point or after exactly `maxSteps` steps |
| DraftRewriting.IterateBudget | src/main/java/engine/Rewriter.java:23-33 | once a fixed point is reached, a larger budget gives the same result |
| DraftRewriting.Rewriter.constructor | src/main/java/engine/Rewriter.java:14-17 | a new rewriter has no bindings |
| DraftRewriting.Rewriter.Rewrite | src/main/java/engine/Rewriter.java:19-21 | one step, with its bindings and reference counts |
| DraftRewriting.Rewriter.RewriteMultiple | src/main/java/engine/Rewriter.java:23-33 | the iteration of steps up to the budget, stopping at a fixed point, with the bindings of the last step and a reference count per application |
| DraftRewriting.Rewriter.RewriteStep | src/main/java/engine/Rewriter.java:35-63 | the first matching rule applied and its count bumped, else every child stepped |
| DraftRewriting.Rewriter.StepChildren | src/main/java/engine/Rewriter.java:50-62 | every child stepped once, left to right, with the bindings and counts that leaves |
| DraftRewriting.Rewriter.FindMatchingRule | src/main/java/engine/Rewriter.java:65-73 | the first rule that matches, with the bindings of the last attempt |
| DraftRewriting.Rewriter.Match | src/main/java/engine/Rewriter.java:75-104 | `match` on the bindings field computes the matching function, keeping the partial bindings of a failure |
| DraftRewriting.Rewriter.Substitute | src/main/java/engine/Rewriter.java:106-123 | `substitute` from the bindings field |
| DraftParsing.ExpectAt | src/main/java/parser/Parser.java:67-72 | succeeds exactly on the expected character, and moves one past it |
| DraftParsing.AtomAt | src/main/java/parser/Parser.java:46-55 | the maximal run of non-delimiters, possibly empty |
| DraftParsing.ParseAt | src/main/java/parser/Parser.java:16-27 | nothing exactly when only whitespace is left; a term that ends where it starts is the empty atom before a `)` |
| DraftParsing.ListAt | src/main/java/parser/Parser.java:29-44 | a list is read past its opening parenthesis |
| DraftParsing.ElementsAt | src/main/java/parser/Parser.java:29-44 | the loop of `parseList`; inside it `parse` always finds a term |
| DraftParsing.Parser.constructor | src/main/java/parser/Parser.java:11-14 | the input is trimmed and the cursor is at 0 |
| DraftParsing.Parser.ParseString | src/main/java/parser/Parser.java:78-80 | the first term of the trimmed input, if any |
| DraftParsing.Parser.Parse | src/main/java/parser/Parser.java:16-27 | `parse` reads the term at the cursor, or nothing at the end of the input |
| DraftParsing.Parser.ParseList | src/main/java/parser/Parser.java:29-44 | `parseList` reads the list at the cursor |
| DraftParsing.Parser.ParseAtom | src/main/java/parser/Parser.java:46-55 | `parseAtom` reads the maximal run of non-delimiters |
| DraftParsing.Parser.SkipWhitespace | src/main/java/parser/Parser.java:57-61 | the cursor moves past the whitespace |
| DraftParsing.Parser.Expect | src/main/java/parser/Parser.java:67-72 | an error leaves the cursor where it is |
| DraftParsing.NothingToRead | src/main/java/parser/Parser.java:16-20 | the input holds no term exactly when it is whitespace once trimmed |
| DraftParsing.StrayCloseParen | src/main/java/parser/Parser.java:46-55 | a stray `)` reads as the empty atom and the cursor does not move past it |
| DraftParsing.UnclosedList | src/main/java/parser/Parser.java:29-44 | a list with no closing parenthesis after it is refused with a runtime error |
| DraftParsing.SameAsTermParser | src/main/java/parser/Parser.java:16-55 | where the newer engine's reader reads a term, this reader reads the same term and stops at the same place |
| DraftParsing.ReadPrinted | src/main/java/parser/Parser.java:78-80 | a printed term reads back as itself |
| DraftParsing.ReadsInTurn | src/main/java/parser/Parser.java:16-27 | successive calls read the terms of the input in turn, and then nothing |
| DraftParsing.RuleTextReadsBack | src/main/java/parser/Parser.java:16-27 | the pattern and the replacement of a printed rule read back after its header |

## Left out

- **Console programs.** The REPLs, `Main` and `ModalInterpreter` are console I/O and
  command dispatch.
- **Reading from a resource.** `RuleParser.loadFromResource` opens a class-loader resource
  and reads a stream. The model starts from the sequence of lines
  (`RuleFileParsing.LoadFromLines`).
- **The debugger.** Its callbacks (`onStepStart`, `onStepEnd`, `onRuleApplied`) print and
  read from the console. Their printing has no effect on the result, but their reading does.
  - How the answers stop a run: in step-by-step mode, `onRuleApplied` asks after every applied rule (`debug/Debugger.java:51-69`). The answer `n` turns `shouldContinue` off for good, and `core/Rewriter.java:106-108` then keeps the term. So the user's k-th answer decides which rule application is the first one discarded.
  - CoreRewriting.Rewriter.constructor: `shouldContinue` is a fixed boolean given at construction. It covers the two runs in which the answer never changes: never stop (no `n`, or `r` before any `n`), and stop at the first applied rule. A run that applies k rules and then stops is not modelled, and the lemmas about CoreRewriting.RewriteFrom do not speak about it. CoreRewriting.HaltedStepChangesNothing states the part that carries over: once stopped, no step changes the term.
- **Text encoding.** Java strings are sequences of UTF-16 code units; here a string is a sequence of code points, and every index and length counts code points. A character outside the Basic Multilingual Plane is two units in Java and one here. Neither half of a surrogate pair is whitespace, a parenthesis, a dot or any other character the readers test for, so the terms read, the rules matched and the texts printed are the same. Only the positions in error messages differ: after such a character, Java reports a number one higher per character (on `(😀` Java reports "Expected ')' at position 3" and the model position 2).
  - TermParsing.ExpectAt: the position in "Expected 'c' at position p" counts code points, not UTF-16 units.
  - TermParsing.AtomAt: the position in "Expected atom at position p" counts code points, not UTF-16 units.
  - TermParsing.TermParser.Expect: carries the code-point position of TermParsing.ExpectAt.
  - TermParsing.TermParser.ParseAtom: carries the code-point position of TermParsing.AtomAt.
  - DraftParsing.ExpectAt: the position in "Expected 'c' at position p" counts code points, not UTF-16 units.
  - DraftParsing.Parser.Expect: carries the code-point position of DraftParsing.ExpectAt.
- **Floating point.**
  - Numbers are the decimal literals `sign? digits ('.' digits?)?` and `sign? '.' digits`,
    as exact `real` values. The other forms `Double.parseDouble` accepts (exponents, `NaN`,
    `Infinity`, hexadecimal, a trailing `d`/`f`) are not recognised.
  - Arithmetic is exact, not IEEE rounding.
  - `%.6g` formatting of non-integral results is a parameter `formatG`.
- **Stack depth.** Java throws `StackOverflowError` on deeply nested input; the members below recurse without a bound and return a result there instead.
  - Terms.ToString: a deep term prints without bound here.
  - TermParsing.TermAt and TermParsing.ListAt: a deeply nested input reads here. `DynamicRuleParser.java:84-92` lets the Java error through, so the `StackOverflow` branch of DynamicRuleParsing.Rewrapped is never reached from the readers in this model.
  - DraftParsing.ParseAt and DraftParsing.ListAt: a deeply nested input reads here.
  - RuleMatcher.MatchFrom and RuleMatcher.Substitute: a deep pattern or term matches and instantiates here.
  - DraftRewriting.StepTerm, DraftRewriting.MatchFrom and DraftRewriting.Subst: a deep term rewrites here.
  - CoreRewriting.RewriteFrom: a run of up to 10000 nested `rewriteInternal` calls completes here.
  - CoreRewriting.TwoCycleHitsStepLimit: the step-limit failure it proves is what Java reports only if the JVM stack holds 10000 nested `rewriteInternal` frames; with a smaller stack Java throws `StackOverflowError` first.
  - The evaluators' `fuel` stands for the depth at which Java throws `StackOverflowError`; the actual depth is not known.
- **The `\b[0-9]+\b` test in `isBaseCase`.** It is modelled with the ASCII word characters
  of `\b`. The Unicode-aware boundary rules of `java.util.regex` for non-ASCII letters and
  digits are not modelled.
- **Object identity.**
  - Java returns the very input when nothing changed (`changed ? new List(...) : list`).
    The model returns an equal value.
  - The core rewriter's identity-based seen set is a set of values. Since the set is always
    empty at the check, the two agree.
- **The missing primitive.** `core/Rewriter.java` calls a static `Evaluator.evaluate(Term)`
  that the source does not define. It is the parameter `primitive`.
- **Dead or debug-only code.** `RuleMatcher.matchDebug`, `RuleMatcher.isConsPattern`,
  `UnifiedInterpreter.isRecursiveFunction` and `RuleSet.getFunctionIndex`.
- **The rule library.** `rules/standard.modal` is not part of this model, nor is the
  behaviour that depends on it.
- DraftRules.Rule.IncrementReferences: the `int` counter is unbounded here; 32-bit
  wrap-around after 2^31 applications is not modelled.
- DraftRules.IdCounter.constructor: the static `nextId` counter is an `IdCounter` object
  passed to every constructor, since Dafny has no mutable static state. Its 32-bit
  wrap-around is not modelled.
- RuleManagement.RuleManager.GetAllRules and GetRuleCount: these return the list and its
  length. Java's defensive copy has no counterpart for an immutable sequence.
