/**
 * Stack filters (internal/utils/filters.go): a stack is kept when every filter admits it. A
 * filter is a regular expression between slashes, a `name=`, `name!=`, `name~=` or `name!~=`
 * test of the stack's name, a `key=value` or `key!=value` test of its labels, or else a
 * wildcard pattern for its name.
 *
 * Go's regexp package is a parameter for the regular expressions a user writes. The wildcard
 * matcher builds its own regular expression from a small fragment of the syntax (anchors, `.`,
 * `.*`, escaped and plain characters); this module reads that fragment itself, so the wildcard
 * matcher is proved against a direct meaning of `*` and `?`.
 */
module Filters {
  import opened Wrappers
  import Strings
  import opened StackFinder

  /** regexp.MatchString(pattern, text): whether some part of `text` matches, or the compile error. */
  type RegexMatch = (string, string) -> Result<bool>

  // ---- Wildcards and the fragment of regular expressions they become ----

  /** One step of a wildcard pattern, and equally one atom of the regular expression it becomes. */
  datatype Atom =
    | AnyRun          // `*`, written `.*`
    | AnyChar         // `?`, written `.`
    | Literal(c: char)

  /** The characters MatchWildcard escapes with a backslash. */
  predicate IsRegexSpecial(c: char) {
    c in ".\\+()[]{}^$|"
  }

  function AtomOf(c: char): Atom {
    if c == '*' then AnyRun else if c == '?' then AnyChar else Literal(c)
  }

  /** The atoms of a wildcard pattern, one per character. */
  function Atoms(pattern: string): (r: seq<Atom>)
    ensures |r| == |pattern|
  {
    if pattern == [] then [] else [AtomOf(pattern[0])] + Atoms(pattern[1..])
  }

  /**
   * Does `s` match `atoms` from its start to its end? `.` in a Go regular expression matches any
   * character but a newline, and so do `?` and every character of a `*` run.
   */
  predicate AtomsMatch(atoms: seq<Atom>, s: string)
    decreases |atoms|, |s|
  {
    if atoms == [] then s == []
    else match atoms[0]
      case AnyRun => AtomsMatch(atoms[1..], s) || (s != [] && s[0] != '\n' && AtomsMatch(atoms, s[1..]))
      case AnyChar => s != [] && s[0] != '\n' && AtomsMatch(atoms[1..], s[1..])
      case Literal(c) => s != [] && s[0] == c && AtomsMatch(atoms[1..], s[1..])
  }

  /** What MatchWildcard means: `*` is any run of characters, `?` any one, the rest themselves. */
  predicate GlobMatch(s: string, pattern: string) {
    AtomsMatch(Atoms(pattern), s)
  }

  /** The regular-expression text MatchWildcard writes for one pattern character. */
  function RegexText(c: char): (r: string)
    ensures |r| >= 1 && r[0] != '*' && r[0] != '?'
  {
    if c == '*' then ".*"
    else if c == '?' then "."
    else if IsRegexSpecial(c) then ['\\', c]
    else [c]
  }

  /** The regular-expression text of a whole pattern, between the anchors. */
  function Translate(pattern: string): string {
    if pattern == [] then "" else RegexText(pattern[0]) + Translate(pattern[1..])
  }

  lemma {:induction false} TranslateAppend(pattern: string, c: char)
    ensures Translate(pattern + [c]) == Translate(pattern) + RegexText(c)
  {
    if pattern != [] {
      assert (pattern + [c])[1..] == pattern[1..] + [c];
      TranslateAppend(pattern[1..], c);
    } else {
      assert [c][1..] == [];
    }
  }

  function Prepend(a: Atom, atoms: Option<seq<Atom>>): Option<seq<Atom>> {
    match atoms
    case None => None
    case Some(rest) => Some([a] + rest)
  }

  /**
   * The fragment of Go's regular-expression syntax that wildcards are written in, read back into
   * atoms; None for any text outside the fragment. A `*` binds to the `.` before it.
   */
  function ReadAtoms(r: string): Option<seq<Atom>>
    decreases |r|
  {
    if r == [] then Some([])
    else if r[0] == '.' then
      if |r| >= 2 && r[1] == '*' then Prepend(AnyRun, ReadAtoms(r[2..])) else Prepend(AnyChar, ReadAtoms(r[1..]))
    else if r[0] == '\\' then
      if |r| >= 2 && IsRegexSpecial(r[1]) then Prepend(Literal(r[1]), ReadAtoms(r[2..])) else None
    else if IsRegexSpecial(r[0]) || r[0] == '*' || r[0] == '?' then None
    else Prepend(Literal(r[0]), ReadAtoms(r[1..]))
  }

  /** An anchored expression `^...$` of the fragment. */
  function ReadAnchored(r: string): Option<seq<Atom>> {
    if |r| >= 2 && r[0] == '^' && r[|r| - 1] == '$' then ReadAtoms(r[1..|r| - 1]) else None
  }

  /** regexp.MatchString on the fragment: None for a text this model does not read. */
  function MatchAnchored(r: string, s: string): Option<bool> {
    match ReadAnchored(r)
    case None => None
    case Some(atoms) => Some(AtomsMatch(atoms, s))
  }

  /** The escaping is right: the text MatchWildcard writes reads back as the pattern's own atoms. */
  lemma {:induction false} ReadTranslate(pattern: string)
    ensures ReadAtoms(Translate(pattern)) == Some(Atoms(pattern))
  {
    if pattern != [] {
      var c, rest := pattern[0], Translate(pattern[1..]);
      ReadTranslate(pattern[1..]);
      var r := RegexText(c) + rest;
      assert Translate(pattern) == r;
      if c == '*' {
        assert r[..2] == ".*" && r[2..] == rest;
      } else if c == '?' {
        assert r[1..] == rest;
        assert rest != [] ==> r[1] == rest[0];
      } else if IsRegexSpecial(c) {
        assert r[0] == '\\' && r[1] == c && r[2..] == rest;
      } else {
        assert r[0] == c && r[1..] == rest;
      }
    }
  }

  /** The whole anchored expression of a pattern lies in the fragment and matches as the pattern does. */
  lemma WildcardRegexReadsBack(pattern: string, s: string)
    ensures MatchAnchored("^" + Translate(pattern) + "$", s) == Some(GlobMatch(s, pattern))
  {
    var r := "^" + Translate(pattern) + "$";
    assert r[1..|r| - 1] == Translate(pattern);
    ReadTranslate(pattern);
  }

  /**
   * MatchWildcard (internal/utils/filters.go:145-170): write the pattern as an anchored regular
   * expression, character by character, then match it. The expression always lies in the
   * fragment, so the compile-error branch, which answers false, is never taken.
   */
  method MatchWildcard(s: string, pattern: string) returns (matched: bool)
    ensures matched == GlobMatch(s, pattern)
  {
    var regexPattern := "^";
    var i := 0;
    while i < |pattern|
      invariant i <= |pattern|
      invariant regexPattern == "^" + Translate(pattern[..i])
    {
      var c := pattern[i];
      if c == '*' {
        regexPattern := regexPattern + ".*";
      } else if c == '?' {
        regexPattern := regexPattern + ".";
      } else if IsRegexSpecial(c) {
        regexPattern := regexPattern + "\\" + [c];
      } else {
        regexPattern := regexPattern + [c];
      }
      assert pattern[..i + 1] == pattern[..i] + [c];
      TranslateAppend(pattern[..i], c);
      i := i + 1;
    }
    regexPattern := regexPattern + "$";
    assert pattern[..i] == pattern;
    WildcardRegexReadsBack(pattern, s);
    match MatchAnchored(regexPattern, s)
    case None =>
      assert false;
      matched := false;
    case Some(b) =>
      matched := b;
  }

  // ---- What a wildcard means ----

  predicate NoWildcards(pattern: string) {
    forall i :: 0 <= i < |pattern| ==> pattern[i] != '*' && pattern[i] != '?'
  }

  predicate NoNewline(s: string) {
    forall i :: 0 <= i < |s| ==> s[i] != '\n'
  }

  lemma {:induction false} AtomsAppend(p: string, q: string)
    ensures Atoms(p + q) == Atoms(p) + Atoms(q)
  {
    if p != [] {
      assert (p + q)[1..] == p[1..] + q;
      AtomsAppend(p[1..], q);
    } else {
      assert p + q == q;
    }
  }

  /** A pattern without `*` and `?` matches exactly itself, as a prefix of what follows it. */
  lemma {:induction false} LiteralPrefix(q: string, rest: seq<Atom>, s: string)
    requires NoWildcards(q)
    ensures AtomsMatch(Atoms(q) + rest, s) <==> Strings.HasPrefix(s, q) && AtomsMatch(rest, s[|q|..])
  {
    if q != [] {
      LiteralHead(q, rest);
      if s != [] && s[0] == q[0] {
        LiteralPrefix(q[1..], rest, s[1..]);
        PrefixAfterFirst(s, q);
        if |q| <= |s| {
          assert s[1..][|q| - 1..] == s[|q|..];
        }
      } else if s != [] {
        assert s[0] != q[0];
      }
    } else {
      assert Atoms(q) + rest == rest;
    }
  }

  /** The first character of a pattern without wildcards is a literal atom ahead of the others. */
  lemma LiteralHead(q: string, rest: seq<Atom>)
    requires q != [] && NoWildcards(q)
    ensures NoWildcards(q[1..])
    ensures (Atoms(q) + rest)[0] == Literal(q[0])
    ensures (Atoms(q) + rest)[1..] == Atoms(q[1..]) + rest
  {
    assert q[0] != '*' && q[0] != '?';
    var after := q[1..];
    forall i | 0 <= i < |after| ensures after[i] != '*' && after[i] != '?' {
      assert after[i] == q[i + 1];
    }
    AtomsHead(q, rest);
  }

  lemma AtomsHead(q: string, rest: seq<Atom>)
    requires q != []
    ensures (Atoms(q) + rest)[0] == AtomOf(q[0])
    ensures (Atoms(q) + rest)[1..] == Atoms(q[1..]) + rest
  {
    var whole := Atoms(q) + rest;
    assert whole[0] == Atoms(q)[0];
    assert |whole[1..]| == |Atoms(q[1..]) + rest|;
    forall i | 0 <= i < |whole[1..]| ensures whole[1..][i] == (Atoms(q[1..]) + rest)[i] {
      assert whole[1..][i] == whole[i + 1];
    }
  }

  lemma PrefixAfterFirst(s: string, q: string)
    requires s != [] && q != [] && s[0] == q[0]
    ensures Strings.HasPrefix(s[1..], q[1..]) <==> Strings.HasPrefix(s, q)
  {
    if Strings.HasPrefix(s[1..], q[1..]) {
      assert s[..|q|] == [s[0]] + s[1..][..|q| - 1];
      assert q == [q[0]] + q[1..];
    }
  }

  /** A pattern without wildcards matches only itself. */
  lemma LiteralPatternMatchesItself(s: string, pattern: string)
    requires NoWildcards(pattern)
    ensures GlobMatch(s, pattern) <==> s == pattern
  {
    LiteralPrefix(pattern, [], s);
    assert Atoms(pattern) + [] == Atoms(pattern);
  }

  /** A lone `*` matches any line. */
  lemma {:induction false} StarMatchesAnyLine(s: string)
    ensures GlobMatch(s, "*") <==> NoNewline(s)
  {
    assert Atoms("*") == [AnyRun];
    AnyRunAlone(s);
  }

  lemma {:induction false} AnyRunAlone(s: string)
    ensures AtomsMatch([AnyRun], s) <==> NoNewline(s)
  {
    assert [AnyRun][1..] == [];
    if s != [] {
      AnyRunAlone(s[1..]);
      assert NoNewline(s) <==> s[0] != '\n' && NoNewline(s[1..]) by {
        assert forall i :: 0 < i < |s| ==> s[i] == s[1..][i - 1];
      }
    }
  }

  /** A lone `?` matches any one character but a newline. */
  lemma QuestionMatchesOneCharacter(s: string)
    ensures GlobMatch(s, "?") <==> |s| == 1 && s[0] != '\n'
  {
    assert Atoms("?") == [AnyChar];
    assert [AnyChar][1..] == [];
    assert AtomsMatch([AnyChar], s) <==> s != [] && s[0] != '\n' && s[1..] == [];
  }

  /** A literal followed by `*` matches the lines that start with the literal. */
  lemma PrefixStar(s: string, q: string)
    requires NoWildcards(q)
    ensures GlobMatch(s, q + "*") <==> Strings.HasPrefix(s, q) && NoNewline(s[|q|..])
  {
    AtomsAppend(q, "*");
    assert Atoms("*") == [AnyRun];
    LiteralPrefix(q, [AnyRun], s);
    if Strings.HasPrefix(s, q) {
      AnyRunAlone(s[|q|..]);
    }
  }

  // ---- One filter ----

  /** isRegexPatternInSlashes (internal/utils/filters.go:91-93) */
  predicate IsRegexPatternInSlashes(filter: string) {
    |filter| > 2 && filter[0] == '/' && filter[|filter| - 1] == '/'
  }

  /** applyNameRegexPattern: an expression that does not compile admits every stack. */
  predicate NameRegexHolds(regex: RegexMatch, name: string, pattern: string) {
    match regex(pattern, name)
    case Err(_) => true
    case Ok(matched) => matched
  }

  /** applyRegexPattern: the expression between the slashes, tested as applyNameRegexPattern does. */
  predicate SlashRegexHolds(regex: RegexMatch, name: string, filter: string)
    requires IsRegexPatternInSlashes(filter)
  {
    NameRegexHolds(regex, name, filter[1..|filter| - 1])
  }

  /** `strings.SplitN(filter, sep, 2)` with both parts trimmed: the label key and value of a filter. */
  function LabelTest(filter: string, sep: string): Option<(string, string)>
    requires |sep| > 0
  {
    var parts := Strings.SplitOnce(filter, sep);
    if |parts| != 2 then None else Some((Strings.TrimSpace(parts[0]), Strings.TrimSpace(parts[1])))
  }

  /** applyLabelEqualsFilter: the label exists and has the value; a filter without `=` admits everything. */
  predicate LabelEqualsHolds(stack: StackMetadata, filter: string) {
    match LabelTest(filter, "=")
    case None => true
    case Some((key, value)) => key in stack.labels && stack.labels[key] == value
  }

  /** applyLabelNotEqualsFilter: the label is missing or has another value. */
  predicate LabelNotEqualsHolds(stack: StackMetadata, filter: string) {
    match LabelTest(filter, "!=")
    case None => true
    case Some((key, value)) => key !in stack.labels || stack.labels[key] != value
  }

  /** applyFilter (internal/utils/filters.go:50-88): the kinds of filter are tried in this order. */
  predicate FilterHolds(regex: RegexMatch, stack: StackMetadata, filter: string) {
    if IsRegexPatternInSlashes(filter) then SlashRegexHolds(regex, stack.name, filter)
    else if Strings.HasPrefix(filter, "name=") then GlobMatch(stack.name, filter[5..])
    else if Strings.HasPrefix(filter, "name!=") then !GlobMatch(stack.name, filter[6..])
    else if Strings.HasPrefix(filter, "name~=") then NameRegexHolds(regex, stack.name, filter[6..])
    else if Strings.HasPrefix(filter, "name!~=") then !NameRegexHolds(regex, stack.name, filter[7..])
    else if Strings.Contains(filter, "!=") && !Strings.HasPrefix(filter, "name") then LabelNotEqualsHolds(stack, filter)
    else if Strings.Contains(filter, "=") && !Strings.HasPrefix(filter, "name") then LabelEqualsHolds(stack, filter)
    else GlobMatch(stack.name, filter)
  }

  /** applyFilter, with MatchWildcard run as the method it is. */
  method ApplyFilter(regex: RegexMatch, stack: StackMetadata, filter: string) returns (admitted: bool)
    ensures admitted == FilterHolds(regex, stack, filter)
  {
    if IsRegexPatternInSlashes(filter) {
      return SlashRegexHolds(regex, stack.name, filter);
    }
    if Strings.HasPrefix(filter, "name=") {
      admitted := MatchWildcard(stack.name, filter[5..]);
      return;
    }
    if Strings.HasPrefix(filter, "name!=") {
      var matched := MatchWildcard(stack.name, filter[6..]);
      return !matched;
    }
    if Strings.HasPrefix(filter, "name~=") {
      return NameRegexHolds(regex, stack.name, filter[6..]);
    }
    if Strings.HasPrefix(filter, "name!~=") {
      return !NameRegexHolds(regex, stack.name, filter[7..]);
    }
    if Strings.Contains(filter, "!=") && !Strings.HasPrefix(filter, "name") {
      return LabelNotEqualsHolds(stack, filter);
    }
    if Strings.Contains(filter, "=") && !Strings.HasPrefix(filter, "name") {
      return LabelEqualsHolds(stack, filter);
    }
    admitted := MatchWildcard(stack.name, filter);
  }

  // ---- All filters, all stacks ----

  /** A stack is included when every filter admits it. */
  predicate Admits(regex: RegexMatch, stack: StackMetadata, filters: seq<string>) {
    forall i :: 0 <= i < |filters| ==> FilterHolds(regex, stack, filters[i])
  }

  /**
   * shouldIncludeStack (internal/utils/filters.go:34-47): try the filters in order and stop at
   * the first that rejects the stack.
   */
  method ShouldIncludeStack(regex: RegexMatch, stack: StackMetadata, filters: seq<string>) returns (included: bool)
    ensures included == Admits(regex, stack, filters)
  {
    included := true;
    var i := 0;
    while i < |filters|
      invariant i <= |filters|
      invariant forall j :: 0 <= j < i ==> FilterHolds(regex, stack, filters[j])
    {
      var admitted := ApplyFilter(regex, stack, filters[i]);
      if !admitted {
        included := false;
        break;
      }
      i := i + 1;
    }
  }

  /** The stacks every filter admits, in their order. */
  function Selected(regex: RegexMatch, stacks: seq<StackMetadata>, filters: seq<string>): seq<StackMetadata> {
    if stacks == [] then []
    else
      var last := stacks[|stacks| - 1];
      Selected(regex, stacks[..|stacks| - 1], filters) + (if Admits(regex, last, filters) then [last] else [])
  }

  /** FilterStacks (internal/utils/filters.go:21-31): keep, in order, the stacks every filter admits. */
  method FilterStacks(regex: RegexMatch, stacks: seq<StackMetadata>, filters: seq<string>) returns (filtered: seq<StackMetadata>)
    ensures filtered == Selected(regex, stacks, filters)
  {
    filtered := [];
    var i := 0;
    while i < |stacks|
      invariant i <= |stacks|
      invariant filtered == Selected(regex, stacks[..i], filters)
    {
      assert stacks[..i + 1][..i] == stacks[..i];
      var included := ShouldIncludeStack(regex, stacks[i], filters);
      if included {
        filtered := filtered + [stacks[i]];
      }
      i := i + 1;
    }
    assert stacks[..i] == stacks;
  }

  // ---- What the filters promise ----

  /** FilterStacks keeps exactly the stacks that every filter admits. */
  lemma {:induction false} SelectedAreAdmitted(regex: RegexMatch, stacks: seq<StackMetadata>, filters: seq<string>, stack: StackMetadata)
    ensures stack in Selected(regex, stacks, filters) <==> stack in stacks && Admits(regex, stack, filters)
  {
    if stacks != [] {
      var init := stacks[..|stacks| - 1];
      SelectedAreAdmitted(regex, init, filters, stack);
      assert stacks == init + [stacks[|stacks| - 1]];
    }
  }

  /** Selection keeps the input's order: selecting from two runs of stacks selects from each. */
  lemma {:induction false} SelectedAppend(regex: RegexMatch, a: seq<StackMetadata>, b: seq<StackMetadata>, filters: seq<string>)
    ensures Selected(regex, a + b, filters) == Selected(regex, a, filters) + Selected(regex, b, filters)
  {
    if b == [] {
      assert a + b == a;
    } else {
      var init := b[..|b| - 1];
      assert (a + b)[..|a + b| - 1] == a + init;
      assert (a + b)[|a + b| - 1] == b[|b| - 1];
      SelectedAppend(regex, a, init, filters);
    }
  }

  /** Without filters every stack is kept. */
  lemma {:induction false} NoFiltersKeepAll(regex: RegexMatch, stacks: seq<StackMetadata>)
    ensures Selected(regex, stacks, []) == stacks
  {
    if stacks != [] {
      NoFiltersKeepAll(regex, stacks[..|stacks| - 1]);
      assert stacks == stacks[..|stacks| - 1] + [stacks[|stacks| - 1]];
    }
  }

  lemma AdmitsBoth(regex: RegexMatch, stack: StackMetadata, first: seq<string>, second: seq<string>)
    ensures Admits(regex, stack, first + second) <==> Admits(regex, stack, first) && Admits(regex, stack, second)
  {
    var all := first + second;
    assert forall i :: 0 <= i < |first| ==> all[i] == first[i];
    assert forall i :: 0 <= i < |second| ==> all[|first| + i] == second[i];
  }

  /** The filters are a conjunction: filtering by two lists at once is filtering by one, then the other. */
  lemma {:induction false} FiltersConjoin(regex: RegexMatch, stacks: seq<StackMetadata>, first: seq<string>, second: seq<string>)
    ensures Selected(regex, stacks, first + second) == Selected(regex, Selected(regex, stacks, first), second)
  {
    if stacks != [] {
      var init, last := stacks[..|stacks| - 1], stacks[|stacks| - 1];
      FiltersConjoin(regex, init, first, second);
      AdmitsBoth(regex, last, first, second);
      var kept := if Admits(regex, last, first) then [last] else [];
      SelectedAppend(regex, Selected(regex, init, first), kept, second);
      if kept != [] {
        assert kept[..0] == [];
      }
    }
  }

  /** `name!=` admits exactly the stacks `name=` rejects. */
  lemma NameNotEqualsNegates(regex: RegexMatch, stack: StackMetadata, pattern: string)
    ensures FilterHolds(regex, stack, "name!=" + pattern) == !FilterHolds(regex, stack, "name=" + pattern)
  {
    var negated, plain := "name!=" + pattern, "name=" + pattern;
    assert negated[4] == '!' && negated[..6] == "name!=" && negated[6..] == pattern;
    assert plain[..5] == "name=" && plain[5..] == pattern;
  }

  /**
   * `name!~=` admits exactly the stacks `name~=` rejects. An expression that does not compile
   * makes `name~=` admit every stack, and so `name!~=` reject every one.
   */
  lemma NameNotRegexNegates(regex: RegexMatch, stack: StackMetadata, pattern: string)
    ensures FilterHolds(regex, stack, "name!~=" + pattern) == !FilterHolds(regex, stack, "name~=" + pattern)
    ensures regex(pattern, stack.name).Err? ==>
      FilterHolds(regex, stack, "name~=" + pattern) && !FilterHolds(regex, stack, "name!~=" + pattern)
  {
    var negated, plain := "name!~=" + pattern, "name~=" + pattern;
    assert negated[4] == '!' && negated[5] == '~' && negated[..7] == "name!~=" && negated[7..] == pattern;
    assert plain[4] == '~' && plain[..6] == "name~=" && plain[6..] == pattern;
  }

  /** An expression between slashes that does not compile admits every stack. */
  lemma InvalidSlashRegexAdmits(regex: RegexMatch, stack: StackMetadata, filter: string)
    requires IsRegexPatternInSlashes(filter)
    requires regex(filter[1..|filter| - 1], stack.name).Err?
    ensures FilterHolds(regex, stack, filter)
  {
  }

  /** A filter that does not start with `name` starts with none of the name filters' prefixes. */
  lemma NotNameFilter(filter: string)
    requires !Strings.HasPrefix(filter, "name")
    ensures !Strings.HasPrefix(filter, "name=") && !Strings.HasPrefix(filter, "name!=")
    ensures !Strings.HasPrefix(filter, "name~=") && !Strings.HasPrefix(filter, "name!~=")
  {
    if |filter| >= 4 {
      assert forall n :: 4 <= n <= |filter| ==> filter[..n][..4] == filter[..4];
    }
  }

  /** `key=value` with no `name` at its head tests that the trimmed key has the trimmed value. */
  lemma LabelEqualsFilter(regex: RegexMatch, stack: StackMetadata, key: string, value: string)
    requires '=' !in key && '!' !in key
    requires key == [] || key[0] != '/'
    requires !Strings.HasPrefix(key, "name")
    requires !Strings.Contains(value, "!=")
    ensures var k, v := Strings.TrimSpace(key), Strings.TrimSpace(value);
      FilterHolds(regex, stack, key + "=" + value) <==> k in stack.labels && stack.labels[k] == v
  {
    var filter := key + "=" + value;
    assert filter[|key|] == '=';
    KeyKeepsNamePrefixOff(key, filter);
    NotNameFilter(filter);
    Strings.SplitOnceAt(key, "=", value);
    assert Strings.OccursAt(filter, "=", |key|);
    NoNotEqualsAfterKey(key, value);
  }

  /** A key without `!` and a value without `!=` make a `key=value` filter without `!=`. */
  lemma NoNotEqualsAfterKey(key: string, value: string)
    requires '!' !in key
    requires !Strings.Contains(value, "!=")
    ensures !Strings.Contains(key + "=" + value, "!=")
  {
    var filter := key + "=" + value;
    forall j | 0 <= j <= |filter|
      ensures !Strings.OccursAt(filter, "!=", j)
    {
      if Strings.OccursAt(filter, "!=", j) {
        assert filter[j] == '!' by {
          assert filter[j..j + 2][0] == filter[j];
        }
        if j > |key| {
          assert filter[j..j + 2] == value[j - |key| - 1..j - |key| + 1];
          assert Strings.OccursAt(value, "!=", j - |key| - 1);
        }
      }
    }
  }

  /** `key!=value` with no `name` at its head tests that the trimmed key is missing or has another value. */
  lemma LabelNotEqualsFilter(regex: RegexMatch, stack: StackMetadata, key: string, value: string)
    requires '!' !in key
    requires key == [] || key[0] != '/'
    requires !Strings.HasPrefix(key, "name")
    ensures var k, v := Strings.TrimSpace(key), Strings.TrimSpace(value);
      FilterHolds(regex, stack, key + "!=" + value) <==> k !in stack.labels || stack.labels[k] != v
  {
    var filter := key + "!=" + value;
    assert filter[|key|] == '!';
    KeyKeepsNamePrefixOff(key, filter);
    NotNameFilter(filter);
    Strings.SplitOnceAt(key, "!=", value);
    assert Strings.OccursAt(filter, "!=", |key|);
  }

  lemma KeyKeepsNamePrefixOff(key: string, filter: string)
    requires |key| < |filter| && filter[..|key|] == key
    requires filter[|key|] == '=' || filter[|key|] == '!'
    requires !Strings.HasPrefix(key, "name")
    ensures !Strings.HasPrefix(filter, "name")
  {
    if |key| >= 4 {
      assert filter[..4] == key[..4];
    } else if |filter| >= 4 {
      assert filter[..4][|key|] == filter[|key|];
    }
  }

  /** With the same key and value, `key!=value` admits exactly the stacks `key=value` rejects. */
  lemma LabelFiltersComplement(regex: RegexMatch, stack: StackMetadata, key: string, value: string)
    requires '=' !in key && '!' !in key
    requires key == [] || key[0] != '/'
    requires !Strings.HasPrefix(key, "name")
    requires !Strings.Contains(value, "!=")
    ensures FilterHolds(regex, stack, key + "!=" + value) == !FilterHolds(regex, stack, key + "=" + value)
  {
    LabelEqualsFilter(regex, stack, key, value);
    LabelNotEqualsFilter(regex, stack, key, value);
  }

  /**
   * A label filter whose key starts with `name` (`namespace=prod`) is not a label filter: it is
   * tried as a wildcard pattern for the stack's name.
   */
  lemma NamePrefixedKeyIsWildcard(regex: RegexMatch, stack: StackMetadata, key: string, value: string)
    requires Strings.HasPrefix(key, "name") && |key| > 4 && key[4] != '=' && key[4] != '!' && key[4] != '~'
    ensures FilterHolds(regex, stack, key + "=" + value) == GlobMatch(stack.name, key + "=" + value)
    ensures FilterHolds(regex, stack, key + "!=" + value) == GlobMatch(stack.name, key + "!=" + value)
  {
    var equals, notEquals := key + "=" + value, key + "!=" + value;
    assert equals[..4] == key[..4] && equals[4] == key[4];
    assert notEquals[..4] == key[..4] && notEquals[4] == key[4];
  }
}
