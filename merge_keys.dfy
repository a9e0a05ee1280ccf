/**
 * The merge-key normaliser of internal/yaml-parser: a line-oriented rewrite of YAML text
 * that folds repeated `<<:` entries into one entry holding a list.
 *
 * Both passes of the source track, for every non-blank line, its indentation and a stack of
 * enclosing section names; a merge line's group is the pair (indentation, '.'-joined stack).
 * The first pass collects the trimmed merge lines per group over the whole document; the
 * second pass writes, at the first member of a group of two or more, one combined line, drops
 * the other members and copies every other line as it is.
 *
 * The specification is layered: `Track` and `KeyAt` say how lines are classified, `Entries`
 * records the classification of every line, and the second pass's output (`Emit`, `Rewrite`)
 * is stated over that record.
 */
module MergeKeys {
  import opened Wrappers
  import opened Strings

  const Marker: string := "<<:"

  /** The group a merge line belongs to. */
  datatype GroupKey = GroupKey(indent: nat, path: string)

  /** What both passes carry from line to line. */
  datatype Tracker = Tracker(path: seq<string>, previousIndent: nat)

  const Start: Tracker := Tracker([], 0)

  /** Blank lines are skipped by the first pass and copied by the second. */
  predicate IsBlank(line: string) {
    TrimSpace(line) == ""
  }

  predicate IsMergeLine(line: string) {
    HasPrefix(TrimSpace(line), Marker)
  }

  /** Indentation counts spaces only (a tab is not indentation). */
  function Indent(line: string): nat {
    LeadingSpaces(line)
  }

  /** The name a deeper line opens: its trimmed text up to the first ':'. */
  function SectionName(line: string): string {
    BeforeFirst(TrimSpace(line), ":")
  }

  /** How one non-blank line moves the tracker. */
  function Advance(t: Tracker, line: string): (r: Tracker)
    ensures r.previousIndent == Indent(line)
    // a shallower line pops one name per two columns, or empties a stack that is too short
    ensures Indent(line) < t.previousIndent ==>
      var levels := (t.previousIndent - Indent(line)) / 2;
      && (levels <= |t.path| ==> |r.path| == |t.path| - levels && r.path == t.path[..|r.path|])
      && (levels > |t.path| ==> r.path == [])
    // a deeper ordinary line pushes the name it opens
    ensures Indent(line) > t.previousIndent && !IsMergeLine(line) ==> r.path == t.path + [SectionName(line)]
    // a deeper merge line, or a line at the same depth, leaves the stack alone
    ensures Indent(line) >= t.previousIndent && (Indent(line) == t.previousIndent || IsMergeLine(line)) ==> r.path == t.path
  {
    var indent := Indent(line);
    var path :=
      if indent < t.previousIndent then
        var levels := (t.previousIndent - indent) / 2;
        if |t.path| >= levels then t.path[..|t.path| - levels] else []
      else if indent > t.previousIndent && !IsMergeLine(line) then
        t.path + [SectionName(line)]
      else
        t.path;
    Tracker(path, indent)
  }

  /** The tracker after the first `n` lines; blank lines leave it as it is. */
  function Track(lines: seq<string>, n: nat): Tracker
    requires n <= |lines|
  {
    if n == 0 then Start
    else if IsBlank(lines[n - 1]) then Track(lines, n - 1)
    else Advance(Track(lines, n - 1), lines[n - 1])
  }

  /** The group of line `i`: its indentation and the path in force once it has been read. */
  function KeyAt(lines: seq<string>, i: nat): GroupKey
    requires i < |lines|
  {
    GroupKey(Indent(lines[i]), Join(Track(lines, i + 1).path, "."))
  }

  /** What the first pass records for a merge line: its group and its trimmed text. */
  datatype Entry = Entry(key: GroupKey, text: string)

  /** The entry of line `i`, if it is a merge line. */
  function EntryAt(lines: seq<string>, i: nat): Option<Entry>
    requires i < |lines|
  {
    if IsMergeLine(lines[i]) then Some(Entry(KeyAt(lines, i), TrimSpace(lines[i]))) else None
  }

  /** The entries of all lines, in order. */
  function Entries(lines: seq<string>): (es: seq<Option<Entry>>)
    ensures |es| == |lines|
  {
    seq(|lines|, i requires 0 <= i < |lines| => EntryAt(lines, i))
  }

  /** The texts of group `k` among the first `n` entries, in source order. */
  function Members(es: seq<Option<Entry>>, n: nat, k: GroupKey): (g: seq<string>)
    requires n <= |es|
    ensures |g| <= n
  {
    if n == 0 then []
    else
      Members(es, n - 1, k) +
      (if es[n - 1].Some? && es[n - 1].value.key == k then [es[n - 1].value.text] else [])
  }

  /** A whole group: the texts of every merge line of the document with key `k`. */
  function Group(es: seq<Option<Entry>>, k: GroupKey): seq<string> {
    Members(es, |es|, k)
  }

  /** A merge entry whose value is the flow list of the group's lines. */
  function MergeList(group: seq<string>): string {
    "<<: [" + Join(group, ", ") + "]"
  }

  /** The single line that replaces a group: `<<: [<<: *a, <<: *b]` at the group's indentation. */
  function CombinedLine(indent: nat, group: seq<string>): string {
    Spaces(indent) + MergeList(group)
  }

  /** What the second pass writes for line `i`, given the entries of all lines. */
  function Emit(lines: seq<string>, es: seq<Option<Entry>>, i: nat): (r: seq<string>)
    requires i < |lines| == |es|
    ensures |r| <= 1
  {
    match es[i]
    case None => [lines[i]]
    case Some(e) =>
      var group := Group(es, e.key);
      if |group| <= 1 then [lines[i]]
      else if Members(es, i, e.key) == [] then [CombinedLine(e.key.indent, group)]
      else []
  }

  /** The second pass's output for the first `n` lines. */
  function Rewrite(lines: seq<string>, es: seq<Option<Entry>>, n: nat): (r: seq<string>)
    requires n <= |lines| == |es|
    ensures |r| <= n
  {
    if n == 0 then [] else Rewrite(lines, es, n - 1) + Emit(lines, es, n - 1)
  }

  /** The whole normaliser on text: split on '\n', rewrite, join on '\n'. */
  function Preprocess(text: string): string {
    var lines := Split(text, '\n');
    Join(Rewrite(lines, Entries(lines), |lines|), "\n")
  }

  // ---- Steps of the two passes ----

  lemma TrackBlank(lines: seq<string>, i: nat)
    requires i < |lines| && IsBlank(lines[i])
    ensures Track(lines, i + 1) == Track(lines, i)
  {
  }

  /** Reading a non-blank line advances the tracker. */
  lemma TrackStep(lines: seq<string>, i: nat, t: Tracker)
    requires i < |lines| && !IsBlank(lines[i]) && Track(lines, i) == t
    ensures Track(lines, i + 1) == Advance(t, lines[i])
  {
  }

  /** The entry of a line, read from the record. */
  lemma EntryOf(lines: seq<string>, i: nat)
    requires i < |lines|
    ensures Entries(lines)[i] == EntryAt(lines, i)
  {
  }

  /** A blank line leaves the tracker alone and is no merge line. */
  lemma EntryOfBlank(lines: seq<string>, i: nat)
    requires i < |lines| && (lines[i] == "" || TrimSpace(lines[i]) == "")
    ensures Track(lines, i + 1) == Track(lines, i)
    ensures Entries(lines)[i] == None
  {
    assert IsBlank(lines[i]);
    EntryOf(lines, i);
  }

  /** The entry of a non-blank line, read off what the path tracking computed for it. */
  lemma EntryOfTracked(lines: seq<string>, i: nat, path: seq<string>, indent: nat, trimmed: string)
    requires i < |lines| && !IsBlank(lines[i])
    requires Tracker(path, indent) == Advance(Track(lines, i), lines[i])
    requires trimmed == TrimSpace(lines[i])
    ensures Track(lines, i + 1) == Tracker(path, indent)
    ensures Entries(lines)[i] ==
      if HasPrefix(trimmed, Marker) then Some(Entry(GroupKey(indent, Join(path, ".")), trimmed)) else None
  {
    EntryOf(lines, i);
  }

  /** A group's collected lines in the first pass's map; a key never seen has none. */
  function Collected(m: map<GroupKey, seq<string>>, k: GroupKey): seq<string> {
    if k in m then m[k] else []
  }

  /** The first pass's map holds, for every group, its members among the first `i` lines. */
  ghost predicate CollectedSoFar(es: seq<Option<Entry>>, i: nat, m: map<GroupKey, seq<string>>)
    requires i <= |es|
  {
    forall k :: Members(es, i, k) == Collected(m, k)
  }

  /** The first pass's map after an entry, given the map before it. */
  function CollectEntry(e: Option<Entry>, m: map<GroupKey, seq<string>>): map<GroupKey, seq<string>> {
    match e
    case None => m
    case Some(entry) => m[entry.key := Collected(m, entry.key) + [entry.text]]
  }

  lemma CollectStep(es: seq<Option<Entry>>, i: nat, m: map<GroupKey, seq<string>>)
    requires i < |es| && CollectedSoFar(es, i, m)
    ensures CollectedSoFar(es, i + 1, CollectEntry(es[i], m))
  {
    forall k ensures Members(es, i + 1, k) == Collected(CollectEntry(es[i], m), k) {
      assert Members(es, i + 1, k) ==
        Members(es, i, k) + (if es[i].Some? && es[i].value.key == k then [es[i].value.text] else []);
    }
  }

  lemma NothingCollectedAtStart(es: seq<Option<Entry>>)
    ensures CollectedSoFar(es, 0, map[])
  {
  }

  /** Reading more lines only extends a group's member list. */
  lemma {:induction false} MembersPrefix(es: seq<Option<Entry>>, i: nat, n: nat, k: GroupKey)
    requires i <= n <= |es|
    ensures Members(es, i, k) <= Members(es, n, k)
    decreases n
  {
    if i < n {
      MembersPrefix(es, i, n - 1, k);
    }
  }

  /** An entry belongs to its own group, so a group met in the second pass is never empty. */
  lemma EntryInOwnGroup(es: seq<Option<Entry>>, i: nat)
    requires i < |es| && es[i].Some?
    ensures es[i].value.text in Group(es, es[i].value.key)
  {
    var k := es[i].value.key;
    var before := Members(es, i, k);
    assert Members(es, i + 1, k) == before + [es[i].value.text];
    MembersPrefix(es, i + 1, |es|, k);
    assert Group(es, k)[|before|] == es[i].value.text;
  }

  /** Whether the second pass has already written group `k`. */
  predicate Written(processed: map<GroupKey, bool>, k: GroupKey) {
    k in processed && processed[k]
  }

  /** The second pass's record of written groups is right after `i` lines. */
  ghost predicate WrittenSoFar(es: seq<Option<Entry>>, i: nat, p: map<GroupKey, bool>)
    requires i <= |es|
  {
    forall k :: Written(p, k) <==> Members(es, i, k) != []
  }

  lemma NothingWrittenAtStart(es: seq<Option<Entry>>)
    ensures WrittenSoFar(es, 0, map[])
  {
  }

  /** The second pass's record after an entry: a merge line's group is marked written. */
  function MarkEntry(e: Option<Entry>, p: map<GroupKey, bool>): map<GroupKey, bool> {
    match e
    case None => p
    case Some(entry) => p[entry.key := true]
  }

  /** A group is written once one of its members has been read. */
  lemma MarkStep(es: seq<Option<Entry>>, i: nat, p: map<GroupKey, bool>)
    requires i < |es| && WrittenSoFar(es, i, p)
    ensures WrittenSoFar(es, i + 1, MarkEntry(es[i], p))
  {
    forall k ensures Written(MarkEntry(es[i], p), k) <==> Members(es, i + 1, k) != [] {
      assert Members(es, i + 1, k) ==
        Members(es, i, k) + (if es[i].Some? && es[i].value.key == k then [es[i].value.text] else []);
    }
  }

  /**
   * The source's branches for a merge line agree with `Emit`: with `written` telling whether
   * the group has been written, a group of two or more is written at its first member and
   * skipped afterwards, and a one-line group is copied.
   */
  lemma EmitMergeLine(lines: seq<string>, es: seq<Option<Entry>>, i: nat, written: bool)
    requires i < |lines| == |es| && es[i].Some?
    requires written <==> Members(es, i, es[i].value.key) != []
    ensures var k := es[i].value.key;
      var g := Group(es, k);
      Emit(lines, es, i) ==
        if |g| > 1 && !written then [CombinedLine(k.indent, g)]
        else if |g| == 1 || !written then [lines[i]]
        else []
  {
    EntryInOwnGroup(es, i);
  }

  // ---- What the normaliser promises ----

  /** Every merge line is alone in its group: no mapping repeats `<<:`. */
  predicate NoRepeatedMergeKeys(es: seq<Option<Entry>>) {
    forall i :: 0 <= i < |es| && es[i].Some? ==> |Group(es, es[i].value.key)| <= 1
  }

  /** With no group of two or more, the second pass copies every line. */
  lemma {:induction false} RewriteWithoutRepeats(lines: seq<string>, es: seq<Option<Entry>>, n: nat)
    requires n <= |lines| == |es| && NoRepeatedMergeKeys(es)
    ensures Rewrite(lines, es, n) == lines[..n]
  {
    if n > 0 {
      RewriteWithoutRepeats(lines, es, n - 1);
      assert lines[..n] == lines[..n - 1] + [lines[n - 1]];
    }
  }

  /** A document whose mappings hold at most one merge key each comes back unchanged. */
  lemma PreprocessWithoutRepeats(text: string)
    requires NoRepeatedMergeKeys(Entries(Split(text, '\n')))
    ensures Preprocess(text) == text
  {
    var lines := Split(text, '\n');
    RewriteWithoutRepeats(lines, Entries(lines), |lines|);
    assert lines[..|lines|] == lines;
    JoinSplit(text, '\n');
  }

  /** A document with no merge line at all comes back unchanged. */
  lemma PreprocessWithoutMergeLines(text: string)
    requires forall line :: line in Split(text, '\n') ==> !IsMergeLine(line)
    ensures Preprocess(text) == text
  {
    var lines := Split(text, '\n');
    var es := Entries(lines);
    forall i | 0 <= i < |es| ensures es[i].None? {
      EntryOf(lines, i);
    }
    PreprocessWithoutRepeats(text);
  }

  /** The combined line is itself a merge line at the group's indentation. */
  lemma CombinedLineIsMergeLine(indent: nat, group: seq<string>)
    ensures IsMergeLine(CombinedLine(indent, group))
    ensures Indent(CombinedLine(indent, group)) == indent
  {
    var body := MergeList(group);
    assert IsMergeLine(Spaces(indent) + body) by {
      TrimSpaceAfterSpaces(indent, body);
      TrimSpaceOfSolid(body);
      assert body[..|Marker|] == Marker;
    }
    LeadingSpacesOfSpaces(indent, body);
  }

  /** A line the normaliser must leave alone: anything but a merge line. */
  predicate IsOrdinary(line: string) {
    !IsMergeLine(line)
  }

  /** The lines satisfying `keep`, in order. */
  function Filter(keep: string -> bool, lines: seq<string>): (r: seq<string>)
    ensures |r| <= |lines|
  {
    if lines == [] then []
    else Filter(keep, lines[..|lines| - 1]) + (if keep(lines[|lines| - 1]) then [lines[|lines| - 1]] else [])
  }

  /** The lines of a text that are not merge lines, in order. */
  function Ordinary(lines: seq<string>): seq<string> {
    Filter(IsOrdinary, lines)
  }

  lemma {:induction false} FilterAppend(keep: string -> bool, a: seq<string>, b: seq<string>)
    ensures Filter(keep, a + b) == Filter(keep, a) + Filter(keep, b)
    decreases |b|
  {
    if b != [] {
      var b' := b[..|b| - 1];
      assert (a + b)[..|a + b| - 1] == a + b';
      FilterAppend(keep, a, b');
    } else {
      assert a + b == a;
    }
  }

  /**
   * `keep` rejects exactly the lines that carry an entry, and every combined line: what the
   * second pass needs to know about a filter to leave the filtered lines alone.
   */
  ghost predicate RejectsMergeLines(keep: string -> bool, lines: seq<string>, es: seq<Option<Entry>>) {
    && |es| == |lines|
    && (forall i :: 0 <= i < |lines| ==> (es[i].Some? <==> !keep(lines[i])))
    && (forall indent, group :: !keep(CombinedLine(indent, group)))
  }

  lemma OrdinaryRejectsMergeLines(lines: seq<string>)
    ensures RejectsMergeLines(IsOrdinary, lines, Entries(lines))
  {
    forall i | 0 <= i < |lines| ensures Entries(lines)[i].Some? <==> !IsOrdinary(lines[i]) {
      EntryOf(lines, i);
    }
    forall indent, group ensures !IsOrdinary(CombinedLine(indent, group)) {
      CombinedLineIsMergeLine(indent, group);
    }
  }

  /** What the second pass writes for one line passes the filter exactly as that line does. */
  lemma FilterOfEmit(keep: string -> bool, lines: seq<string>, es: seq<Option<Entry>>, i: nat)
    requires RejectsMergeLines(keep, lines, es) && i < |lines|
    ensures Filter(keep, Emit(lines, es, i)) == Filter(keep, [lines[i]])
  {
    assert [lines[i]][..0] == [];
    match es[i]
    case None =>
    case Some(e) =>
      var c := CombinedLine(e.key.indent, Group(es, e.key));
      assert !keep(c) && !keep(lines[i]);
      assert [c][..0] == [];
  }

  /** The concatenation of the first `n` pieces. */
  function Flatten(pieces: seq<seq<string>>, n: nat): (r: seq<string>)
    requires n <= |pieces|
  {
    if n == 0 then [] else Flatten(pieces, n - 1) + pieces[n - 1]
  }

  /** What the second pass writes for each line. */
  function Outputs(lines: seq<string>, es: seq<Option<Entry>>): (outs: seq<seq<string>>)
    requires |lines| == |es|
    ensures |outs| == |lines|
  {
    seq(|lines|, i requires 0 <= i < |lines| => Emit(lines, es, i))
  }

  /** The second pass's output is the concatenation of what it writes for each line. */
  lemma {:induction false} RewriteIsFlatten(lines: seq<string>, es: seq<Option<Entry>>, n: nat)
    requires n <= |lines| == |es|
    ensures Rewrite(lines, es, n) == Flatten(Outputs(lines, es), n)
  {
    if n > 0 {
      RewriteIsFlatten(lines, es, n - 1);
    }
  }

  /** Pieces that each pass the filter as their own line does leave the filtered lines alone. */
  lemma {:induction false} FilterFlatten(keep: string -> bool, lines: seq<string>, pieces: seq<seq<string>>, n: nat)
    requires n <= |lines| == |pieces|
    requires forall i :: 0 <= i < n ==> Filter(keep, pieces[i]) == Filter(keep, [lines[i]])
    ensures Filter(keep, Flatten(pieces, n)) == Filter(keep, lines[..n])
  {
    if n > 0 {
      var i := n - 1;
      FilterFlatten(keep, lines, pieces, i);
      FilterAppend(keep, Flatten(pieces, i), pieces[i]);
      FilterAppend(keep, lines[..i], [lines[i]]);
      assert lines[..n] == lines[..i] + [lines[i]];
    }
  }

  /** Every ordinary line survives the second pass, in order, and no ordinary line is added. */
  lemma RewriteKeepsOrdinaryLines(lines: seq<string>)
    ensures Ordinary(Rewrite(lines, Entries(lines), |lines|)) == Ordinary(lines)
  {
    var es := Entries(lines);
    var outs := Outputs(lines, es);
    OrdinaryRejectsMergeLines(lines);
    forall i | 0 <= i < |lines| ensures Filter(IsOrdinary, outs[i]) == Filter(IsOrdinary, [lines[i]]) {
      FilterOfEmit(IsOrdinary, lines, es, i);
    }
    RewriteIsFlatten(lines, es, |lines|);
    FilterFlatten(IsOrdinary, lines, outs, |lines|);
    assert lines[..|lines|] == lines;
  }

  // ---- How many lines the output keeps, and which merge lines ----

  /** Line `i` is the first member of its group: where the second pass writes the group. */
  predicate FirstOfGroup(es: seq<Option<Entry>>, i: nat)
    requires i < |es|
  {
    es[i].Some? && Members(es, i, es[i].value.key) == []
  }

  /** The number of first members of group `k` among the first `m` lines. */
  function FirstMembers(es: seq<Option<Entry>>, m: nat, k: GroupKey): nat
    requires m <= |es|
  {
    if m == 0 then 0
    else FirstMembers(es, m - 1, k) + (if FirstOfGroup(es, m - 1) && es[m - 1].value.key == k then 1 else 0)
  }

  /** A group met among the first `m` lines has exactly one first member there; any other group has none. */
  lemma {:induction false} OneFirstMemberPerGroup(es: seq<Option<Entry>>, m: nat, k: GroupKey)
    requires m <= |es|
    ensures FirstMembers(es, m, k) == if Members(es, m, k) == [] then 0 else 1
  {
    if m > 0 {
      OneFirstMemberPerGroup(es, m - 1, k);
    }
  }

  /**
   * The sum, over the groups of two or more lines whose first member is among the first `m`
   * lines, of their size less one: the lines such a group gives up when it is combined.
   */
  function Surplus(es: seq<Option<Entry>>, m: nat): nat
    requires m <= |es|
  {
    if m == 0 then 0
    else
      var g := if es[m - 1].Some? then Group(es, es[m - 1].value.key) else [];
      Surplus(es, m - 1) + (if FirstOfGroup(es, m - 1) && |g| >= 2 then |g| - 1 else 0)
  }

  /** Over the first members among the first `m` lines: their members among the first `n` lines, less one each. */
  function Extra(es: seq<Option<Entry>>, m: nat, n: nat): int
    requires m <= |es| && n <= |es|
  {
    if m == 0 then 0
    else
      Extra(es, m - 1, n) +
      (if FirstOfGroup(es, m - 1) then |Members(es, n, es[m - 1].value.key)| - 1 else 0)
  }

  /** Reading line `n - 1` adds one to the count of exactly the groups it belongs to. */
  lemma {:induction false} ExtraStep(es: seq<Option<Entry>>, m: nat, n: nat)
    requires m <= |es| && 0 < n <= |es|
    ensures Extra(es, m, n) ==
      Extra(es, m, n - 1) + (if es[n - 1].Some? then FirstMembers(es, m, es[n - 1].value.key) else 0)
  {
    if m > 0 {
      ExtraStep(es, m - 1, n);
      if FirstOfGroup(es, m - 1) {
        var k := es[m - 1].value.key;
        assert Members(es, n, k) ==
          Members(es, n - 1, k) + (if es[n - 1].Some? && es[n - 1].value.key == k then [es[n - 1].value.text] else []);
      }
    }
  }

  /** A line is dropped exactly when it is a merge line after the first member of its group. */
  lemma EmitLength(lines: seq<string>, es: seq<Option<Entry>>, i: nat)
    requires i < |lines| == |es|
    ensures |Emit(lines, es, i)| == if es[i].Some? && !FirstOfGroup(es, i) then 0 else 1
  {
    if es[i].Some? {
      var k := es[i].value.key;
      assert Members(es, i + 1, k) == Members(es, i, k) + [es[i].value.text];
      MembersPrefix(es, i + 1, |es|, k);
    }
  }

  lemma {:induction false} RewriteLengthUpTo(lines: seq<string>, es: seq<Option<Entry>>, n: nat)
    requires n <= |lines| == |es|
    ensures |Rewrite(lines, es, n)| == n - Extra(es, n, n)
  {
    if n > 0 {
      var i := n - 1;
      RewriteLengthUpTo(lines, es, i);
      EmitLength(lines, es, i);
      ExtraStep(es, i, n);
      if es[i].Some? {
        var k := es[i].value.key;
        OneFirstMemberPerGroup(es, i, k);
        assert Members(es, n, k) == Members(es, i, k) + [es[i].value.text];
      }
    }
  }

  /** Counting members over the whole document gives the surplus of the groups of two or more. */
  lemma {:induction false} ExtraIsSurplus(es: seq<Option<Entry>>, m: nat)
    requires m <= |es|
    ensures Extra(es, m, |es|) == Surplus(es, m)
  {
    if m > 0 {
      ExtraIsSurplus(es, m - 1);
      if FirstOfGroup(es, m - 1) {
        EntryInOwnGroup(es, m - 1);
      }
    }
  }

  /** The output is shorter than the input by the sum of |g| - 1 over the groups g of two or more lines. */
  lemma RewriteLength(lines: seq<string>)
    ensures |Rewrite(lines, Entries(lines), |lines|)| == |lines| - Surplus(Entries(lines), |lines|)
  {
    var es := Entries(lines);
    RewriteLengthUpTo(lines, es, |lines|);
    ExtraIsSurplus(es, |lines|);
  }

  /** What the second pass writes for a group at its first member: the combined line, or the line itself when alone. */
  function GroupLine(lines: seq<string>, es: seq<Option<Entry>>, i: nat): string
    requires i < |lines| == |es| && es[i].Some?
  {
    var k := es[i].value.key;
    var g := Group(es, k);
    if |g| >= 2 then CombinedLine(k.indent, g) else lines[i]
  }

  /** One line per group met among the first `n` lines, in the order of the groups' first members. */
  function GroupLines(lines: seq<string>, es: seq<Option<Entry>>, n: nat): seq<string>
    requires n <= |lines| == |es|
  {
    if n == 0 then []
    else GroupLines(lines, es, n - 1) + (if FirstOfGroup(es, n - 1) then [GroupLine(lines, es, n - 1)] else [])
  }

  /** `es` records an entry for exactly the merge lines. */
  ghost predicate MarksMergeLines(lines: seq<string>, es: seq<Option<Entry>>) {
    |es| == |lines| && forall i :: 0 <= i < |lines| ==> (es[i].Some? <==> IsMergeLine(lines[i]))
  }

  lemma EntriesMarkMergeLines(lines: seq<string>)
    ensures MarksMergeLines(lines, Entries(lines))
  {
    forall i | 0 <= i < |lines| ensures Entries(lines)[i].Some? <==> IsMergeLine(lines[i]) {
      EntryOf(lines, i);
    }
  }

  /** The merge lines the second pass writes for one line: its group's line at a first member, else nothing. */
  lemma EmitMergeLines(lines: seq<string>, es: seq<Option<Entry>>, i: nat)
    requires MarksMergeLines(lines, es) && i < |lines|
    ensures Filter(IsMergeLine, Emit(lines, es, i)) == if FirstOfGroup(es, i) then [GroupLine(lines, es, i)] else []
  {
    assert [lines[i]][..0] == [];
    if es[i].Some? {
      var k := es[i].value.key;
      var g := Group(es, k);
      EmitLength(lines, es, i);
      if |g| >= 2 && FirstOfGroup(es, i) {
        CombinedLineIsMergeLine(k.indent, g);
        assert [CombinedLine(k.indent, g)][..0] == [];
      }
    }
  }

  /** Filtering each piece filters their concatenation. */
  lemma {:induction false} FilterEachPiece(keep: string -> bool, pieces: seq<seq<string>>, filtered: seq<seq<string>>, n: nat)
    requires n <= |pieces| == |filtered|
    requires forall i :: 0 <= i < n ==> Filter(keep, pieces[i]) == filtered[i]
    ensures Filter(keep, Flatten(pieces, n)) == Flatten(filtered, n)
  {
    if n > 0 {
      FilterEachPiece(keep, pieces, filtered, n - 1);
      FilterAppend(keep, Flatten(pieces, n - 1), pieces[n - 1]);
    }
  }

  /** The group line written at each line: one at a first member, none elsewhere. */
  function GroupPieces(lines: seq<string>, es: seq<Option<Entry>>): (pieces: seq<seq<string>>)
    requires |lines| == |es|
    ensures |pieces| == |lines|
  {
    seq(|lines|, i requires 0 <= i < |lines| => if FirstOfGroup(es, i) then [GroupLine(lines, es, i)] else [])
  }

  lemma {:induction false} GroupLinesIsFlatten(lines: seq<string>, es: seq<Option<Entry>>, n: nat)
    requires n <= |lines| == |es|
    ensures GroupLines(lines, es, n) == Flatten(GroupPieces(lines, es), n)
  {
    if n > 0 {
      GroupLinesIsFlatten(lines, es, n - 1);
      var piece := if FirstOfGroup(es, n - 1) then [GroupLine(lines, es, n - 1)] else [];
      assert GroupPieces(lines, es)[n - 1] == piece;
      assert GroupLines(lines, es, n) == GroupLines(lines, es, n - 1) + piece;
    }
  }

  /**
   * The merge lines of the output are one line per group, in the order of the groups' first
   * members: the combined line for a group of two or more, the line itself for a group of one.
   * No other member of a combined group is written.
   */
  lemma RewriteMergeLines(lines: seq<string>)
    ensures Filter(IsMergeLine, Rewrite(lines, Entries(lines), |lines|)) == GroupLines(lines, Entries(lines), |lines|)
  {
    var es := Entries(lines);
    var outs, groups := Outputs(lines, es), GroupPieces(lines, es);
    EntriesMarkMergeLines(lines);
    forall i | 0 <= i < |lines| ensures Filter(IsMergeLine, outs[i]) == groups[i] {
      EmitMergeLines(lines, es, i);
    }
    FilterEachPiece(IsMergeLine, outs, groups, |lines|);
    RewriteIsFlatten(lines, es, |lines|);
    GroupLinesIsFlatten(lines, es, |lines|);
  }

  // ---- The source's method ----

  /** preprocessMultipleMergeKeys (internal/yaml-parser/parser.go:65-172): split, two passes, join. */
  method PreprocessMultipleMergeKeys(yamlText: string) returns (result: string)
    ensures result == Preprocess(yamlText)
  {
    var lines := Split(yamlText, '\n');
    var pathToMergeKeys := CollectMergeKeys(lines);
    var resultLines := ReconstructLines(lines, pathToMergeKeys);
    result := Join(resultLines, "\n");
  }

  /** One step of the path tracking both passes share (internal/yaml-parser/parser.go:86-107). */
  method TrackLine(currentPath: seq<string>, previousIndent: nat, line: string)
    returns (path: seq<string>, indent: nat, trimmed: string)
    requires !IsBlank(line)
    ensures Tracker(path, indent) == Advance(Tracker(currentPath, previousIndent), line)
    ensures trimmed == TrimSpace(line)
  {
    path := currentPath;
    indent := LeadingSpaces(line);
    trimmed := TrimSpace(line);
    if indent < previousIndent {
      var levelsToRemove := (previousIndent - indent) / 2;
      if |path| >= levelsToRemove {
        path := path[..|path| - levelsToRemove];
      } else {
        path := [];
      }
    } else if indent > previousIndent && !HasPrefix(trimmed, Marker) {
      var parts := SplitOnce(trimmed, ":");
      path := path + [parts[0]];
    }
  }

  /** The first pass (internal/yaml-parser/parser.go:77-115): every merge line's trimmed text, by group. */
  method CollectMergeKeys(lines: seq<string>) returns (pathToMergeKeys: map<GroupKey, seq<string>>)
    ensures forall k :: Group(Entries(lines), k) == Collected(pathToMergeKeys, k)
  {
    ghost var es := Entries(lines);
    pathToMergeKeys := map[];
    var currentPath: seq<string> := [];
    var previousIndent: nat := 0;
    var i := 0;
    NothingCollectedAtStart(es);
    while i < |lines|
      invariant i <= |lines|
      invariant Track(lines, i) == Tracker(currentPath, previousIndent)
      invariant CollectedSoFar(es, i, pathToMergeKeys)
    {
      CollectStep(es, i, pathToMergeKeys);
      pathToMergeKeys, currentPath, previousIndent :=
        CollectLine(lines, i, pathToMergeKeys, currentPath, previousIndent);
      i := i + 1;
    }
  }

  /** The body of the first pass's loop for line `i` (internal/yaml-parser/parser.go:80-114). */
  method CollectLine(lines: seq<string>, i: nat, pathToMergeKeys: map<GroupKey, seq<string>>,
                     currentPath: seq<string>, previousIndent: nat)
    returns (pathToMergeKeys': map<GroupKey, seq<string>>, path: seq<string>, indent: nat)
    requires i < |lines|
    requires Track(lines, i) == Tracker(currentPath, previousIndent)
    ensures pathToMergeKeys' == CollectEntry(Entries(lines)[i], pathToMergeKeys)
    ensures Track(lines, i + 1) == Tracker(path, indent)
  {
    var line := lines[i];
    if line == "" || TrimSpace(line) == "" {
      EntryOfBlank(lines, i);
      return pathToMergeKeys, currentPath, previousIndent;
    }
    var trimmed;
    path, indent, trimmed := TrackLine(currentPath, previousIndent, line);
    EntryOfTracked(lines, i, path, indent, trimmed);
    pathToMergeKeys' := pathToMergeKeys;
    if HasPrefix(trimmed, Marker) {
      var key := GroupKey(indent, Join(path, "."));
      var collected := if key in pathToMergeKeys then pathToMergeKeys[key] else [];
      pathToMergeKeys' := pathToMergeKeys[key := collected + [trimmed]];
    }
  }

  /** The second pass (internal/yaml-parser/parser.go:117-169): one combined line per group, at its first member. */
  method ReconstructLines(lines: seq<string>, pathToMergeKeys: map<GroupKey, seq<string>>)
    returns (resultLines: seq<string>)
    requires forall k :: Group(Entries(lines), k) == Collected(pathToMergeKeys, k)
    ensures resultLines == Rewrite(lines, Entries(lines), |lines|)
  {
    ghost var es := Entries(lines);
    resultLines := [];
    var processedKeys: map<GroupKey, bool> := map[];
    var currentPath: seq<string> := [];
    var previousIndent: nat := 0;
    var i := 0;
    NothingWrittenAtStart(es);
    while i < |lines|
      invariant i <= |lines|
      invariant Track(lines, i) == Tracker(currentPath, previousIndent)
      invariant WrittenSoFar(es, i, processedKeys)
      invariant resultLines == Rewrite(lines, es, i)
    {
      MarkStep(es, i, processedKeys);
      var written;
      written, processedKeys, currentPath, previousIndent :=
        ReconstructLine(lines, i, pathToMergeKeys, processedKeys, currentPath, previousIndent);
      resultLines := resultLines + written;
      i := i + 1;
    }
  }

  /** The body of the second pass's loop for line `i` (internal/yaml-parser/parser.go:124-168). */
  method ReconstructLine(lines: seq<string>, i: nat, pathToMergeKeys: map<GroupKey, seq<string>>,
                         processedKeys: map<GroupKey, bool>, currentPath: seq<string>, previousIndent: nat)
    returns (written: seq<string>, processedKeys': map<GroupKey, bool>, path: seq<string>, indent: nat)
    requires i < |lines|
    requires forall k :: Group(Entries(lines), k) == Collected(pathToMergeKeys, k)
    requires Track(lines, i) == Tracker(currentPath, previousIndent)
    requires WrittenSoFar(Entries(lines), i, processedKeys)
    ensures written == Emit(lines, Entries(lines), i)
    ensures processedKeys' == MarkEntry(Entries(lines)[i], processedKeys)
    ensures Track(lines, i + 1) == Tracker(path, indent)
  {
    var line := lines[i];
    if line == "" || TrimSpace(line) == "" {
      EntryOfBlank(lines, i);
      return [line], processedKeys, currentPath, previousIndent;
    }
    var trimmed;
    path, indent, trimmed := TrackLine(currentPath, previousIndent, line);
    EntryOfTracked(lines, i, path, indent, trimmed);
    if HasPrefix(trimmed, Marker) {
      var key := GroupKey(indent, Join(path, "."));
      ghost var es := Entries(lines);
      assert Collected(pathToMergeKeys, key) == Group(es, key);
      assert Written(processedKeys, key) <==> Members(es, i, key) != [];
      written, processedKeys' := WriteMergeLine(lines, es, i, key, trimmed, pathToMergeKeys, processedKeys);
    } else {
      written, processedKeys' := [line], processedKeys;
    }
  }

  /** The source's three cases for a merge line of group `key` (internal/yaml-parser/parser.go:146-162). */
  method WriteMergeLine(lines: seq<string>, ghost es: seq<Option<Entry>>, i: nat, key: GroupKey, trimmed: string,
                        pathToMergeKeys: map<GroupKey, seq<string>>, processedKeys: map<GroupKey, bool>)
    returns (written: seq<string>, processedKeys': map<GroupKey, bool>)
    requires i < |lines| == |es| && es[i] == Some(Entry(key, trimmed))
    requires Collected(pathToMergeKeys, key) == Group(es, key)
    requires Written(processedKeys, key) <==> Members(es, i, key) != []
    ensures written == Emit(lines, es, i)
    ensures processedKeys' == MarkEntry(es[i], processedKeys)
  {
    var indent := key.indent;
    var mergeKeys := if key in pathToMergeKeys then pathToMergeKeys[key] else [];
    var processed := key in processedKeys && processedKeys[key];
    EmitMergeLine(lines, es, i, processed);
    processedKeys' := processedKeys;
    if |mergeKeys| > 1 && !processed {
      var mergeKeysLine := Spaces(indent) + "<<: [" + Join(mergeKeys, ", ") + "]";
      assert mergeKeysLine == CombinedLine(indent, mergeKeys);
      written := [mergeKeysLine];
      processedKeys' := processedKeys[key := true];
    } else if |mergeKeys| == 1 || !processed {
      written := [lines[i]];
      processedKeys' := processedKeys[key := true];
    } else {
      // a later member of a group already written is skipped
      written := [];
    }
  }
}
