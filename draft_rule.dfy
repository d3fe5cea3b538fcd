/**
 * The rule of the earlier engine under `src/main/java/core/Rule.java`: an optional full
 * name split at its last dot, a pattern, a replacement, an id drawn from a counter shared
 * by all rules, and a count of the times the rule was applied.
 */
module DraftRules {
  import opened Wrappers
  import opened Text
  import opened DraftTerms

  /** The static `nextId` counter of the rule class, as the object every constructor
      draws its id from. */
  class IdCounter {
    var nextId: int

    constructor ()
      ensures nextId == 0
    {
      nextId := 0;
    }
  }

  /** `lastIndexOf`: the last position of `c` in `s`, or -1. */
  function LastIndexOf(s: string, c: char): (r: int)
    ensures -1 <= r < |s|
  {
    if s == [] then -1
    else if s[|s| - 1] == c then |s| - 1
    else LastIndexOf(s[..|s| - 1], c)
  }

  lemma {:induction false} LastIndexOfSpec(s: string, c: char)
    ensures LastIndexOf(s, c) == -1 <==> c !in s
    ensures LastIndexOf(s, c) >= 0 ==> s[LastIndexOf(s, c)] == c && c !in s[LastIndexOf(s, c) + 1..]
  {
    if s != [] && s[|s| - 1] != c {
      var init := s[..|s| - 1];
      LastIndexOfSpec(init, c);
      assert s == init + [s[|s| - 1]];
      if LastIndexOf(init, c) >= 0 {
        assert s[LastIndexOf(init, c) + 1..] == init[LastIndexOf(init, c) + 1..] + [s[|s| - 1]];
      }
    }
  }

  /** `contains(".")` holds exactly when the text has a dot. */
  lemma DotContained(s: string)
    ensures Contains(s, ".") <==> '.' in s
  {
    if '.' in s {
      var i :| 0 <= i < |s| && s[i] == '.';
      assert OccursAt(s, ".", i) by {
        assert s[i..i + 1] == ".";
      }
    } else {
      MissingCharNotContained(s, ".", '.');
    }
  }

  /** The namespace and the name the constructor takes from the full name: the parts
      around the last dot, or no namespace and the whole full name. */
  function SplitName(fullName: Option<string>): (Option<string>, Option<string>) {
    match fullName
    case None => (None, None)
    case Some(s) =>
      if Contains(s, ".") then
        DotContained(s);
        LastIndexOfSpec(s, '.');
        var dot := LastIndexOf(s, '.');
        (Some(s[..dot]), Some(s[dot + 1..]))
      else (None, Some(s))
  }

  /** A full name with a dot splits at its last dot, into a namespace and a name without
      dots; any other full name is the name, with no namespace. */
  lemma SplitNameSpec(fullName: Option<string>)
    ensures var (namespace, name) := SplitName(fullName);
            && (fullName.None? ==> namespace.None? && name.None?)
            && (fullName.Some? && '.' in fullName.value ==>
                  namespace.Some? && name.Some? && '.' !in name.value
                  && namespace.value + "." + name.value == fullName.value)
            && (fullName.Some? && '.' !in fullName.value ==> namespace.None? && name == fullName)
  {
    if fullName.Some? {
      var s := fullName.value;
      DotContained(s);
      LastIndexOfSpec(s, '.');
      if '.' in s {
        var dot := LastIndexOf(s, '.');
        assert s == s[..dot] + "." + s[dot + 1..];
      }
    }
  }

  class Rule {
    const fullName: Option<string>
    const namespace: Option<string>
    const name: Option<string>
    const pattern: Term
    const replacement: Term
    const id: int
    var references: int

    /** The namespace and the name are the parts of the full name. */
    predicate Valid() {
      (namespace, name) == SplitName(fullName)
    }

    /** The named constructor: the next id, no references yet. */
    constructor (fullName: Option<string>, pattern: Term, replacement: Term, ids: IdCounter)
      modifies ids
      ensures Valid()
      ensures this.fullName == fullName && this.pattern == pattern && this.replacement == replacement
      ensures id == old(ids.nextId) && ids.nextId == old(ids.nextId) + 1 && references == 0
    {
      this.fullName := fullName;
      this.pattern := pattern;
      this.replacement := replacement;
      this.id := ids.nextId;
      this.references := 0;
      var split := SplitName(fullName);
      this.namespace := split.0;
      this.name := split.1;
      new;
      ids.nextId := ids.nextId + 1;
    }

    /** The two-argument constructor: an anonymous rule. */
    constructor Anonymous(pattern: Term, replacement: Term, ids: IdCounter)
      modifies ids
      ensures Valid() && IsAnonymous() && !HasNamespace()
      ensures this.pattern == pattern && this.replacement == replacement
      ensures id == old(ids.nextId) && ids.nextId == old(ids.nextId) + 1 && references == 0
    {
      this.fullName := None;
      this.pattern := pattern;
      this.replacement := replacement;
      this.id := ids.nextId;
      this.references := 0;
      this.namespace := None;
      this.name := None;
      new;
      ids.nextId := ids.nextId + 1;
    }

    /** `incrementReferences`: one more application; nothing else changes. */
    method IncrementReferences()
      modifies this
      ensures references == old(references) + 1
    {
      references := references + 1;
    }

    predicate IsAnonymous() {
      fullName.None?
    }

    predicate HasNamespace() {
      namespace.Some?
    }

    /** `toString`: `<` and the full name, if any, then `> `, the pattern, a space and
        the replacement. */
    function ToString(): (s: string)
      ensures |Header()| <= |s| && s[..|Header()|] == Header()
      ensures s[|Header()|..] == DraftTerms.ToString(pattern) + " " + DraftTerms.ToString(replacement)
    {
      var body := DraftTerms.ToString(pattern) + " " + DraftTerms.ToString(replacement);
      assert (Header() + body)[..|Header()|] == Header() && (Header() + body)[|Header()|..] == body;
      Header() + body
    }

    /** What `toString` puts before the pattern. */
    function Header(): string {
      "<" + (if fullName.Some? then fullName.value else "") + "> "
    }
  }

  /** A rule with a namespace has a full name with a dot in it; an anonymous rule has
      neither a namespace nor a name. */
  lemma NamespaceNeedsDot(r: Rule)
    requires r.Valid()
    ensures r.HasNamespace() <==> r.fullName.Some? && '.' in r.fullName.value
    ensures r.IsAnonymous() ==> !r.HasNamespace() && r.name.None?
  {
    SplitNameSpec(r.fullName);
  }
}
