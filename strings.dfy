/** Go's string operations (package strings), its string order (package sort) and `%v` of integers. */
module Strings {
  import opened Wrappers

  /** Go's unicode.IsSpace: the white space that strings.TrimSpace removes. */
  predicate IsSpace(c: char) {
    || c == ' '
    || ('\t' <= c <= '\r')
    || c == '\U{85}' || c == '\U{A0}' || c == '\U{1680}'
    || ('\U{2000}' <= c <= '\U{200A}')
    || c == '\U{2028}' || c == '\U{2029}' || c == '\U{202F}' || c == '\U{205F}' || c == '\U{3000}'
  }

  /** The suffix of `s` left after dropping its leading white space. */
  function TrimLeftSpace(s: string): (r: string)
    ensures |r| <= |s|
    ensures r == [] || !IsSpace(r[0])
  {
    if |s| > 0 && IsSpace(s[0]) then TrimLeftSpace(s[1..]) else s
  }

  /** The prefix of `s` left after dropping its trailing white space. */
  function TrimRightSpace(s: string): (r: string)
    ensures |r| <= |s|
    ensures r == [] || !IsSpace(r[|r| - 1])
  {
    if |s| > 0 && IsSpace(s[|s| - 1]) then TrimRightSpace(s[..|s| - 1]) else s
  }

  /** strings.TrimSpace */
  function TrimSpace(s: string): string {
    TrimRightSpace(TrimLeftSpace(s))
  }

  /** A string made only of white space trims to the empty string, and only such a string does. */
  lemma TrimSpaceEmpty(s: string)
    ensures TrimSpace(s) == [] <==> forall i :: 0 <= i < |s| ==> IsSpace(s[i])
  {
    var l := TrimLeftSpace(s);
    TrimLeftDropsSpace(s);
    assert |l| > 0 ==> l[0] == s[|s| - |l|];
    if l != [] {
      assert TrimRightSpace(l) != [] by {
        assert !IsSpace(l[0]);
        TrimRightKeepsSolid(l);
      }
    }
  }

  /** TrimLeftSpace drops a prefix of white space. */
  lemma {:induction false} TrimLeftDropsSpace(s: string)
    ensures TrimLeftSpace(s) == s[|s| - |TrimLeftSpace(s)|..]
    ensures forall i :: 0 <= i < |s| - |TrimLeftSpace(s)| ==> IsSpace(s[i])
  {
    if |s| > 0 && IsSpace(s[0]) {
      TrimLeftDropsSpace(s[1..]);
    }
  }

  /** TrimRightSpace keeps any string that has a non-space character. */
  lemma {:induction false} TrimRightKeepsSolid(s: string)
    requires |s| > 0 && !IsSpace(s[0])
    ensures TrimRightSpace(s) != []
  {
    if |s| > 1 && IsSpace(s[|s| - 1]) {
      TrimRightKeepsSolid(s[..|s| - 1]);
    }
  }

  /** Trimming a string whose first character is not white space and whose last is not either changes nothing. */
  lemma TrimSpaceOfSolid(s: string)
    requires |s| > 0 && !IsSpace(s[0]) && !IsSpace(s[|s| - 1])
    ensures TrimSpace(s) == s
  {
  }

  /** Leading spaces never reach the trimmed text, so trimming `spaces + s` is trimming `s`. */
  lemma TrimSpaceAfterSpaces(n: nat, s: string)
    ensures TrimSpace(Spaces(n) + s) == TrimSpace(s)
  {
    TrimLeftAfterSpaces(n, s);
  }

  lemma {:induction false} TrimLeftAfterSpaces(n: nat, s: string)
    ensures TrimLeftSpace(Spaces(n) + s) == TrimLeftSpace(s)
  {
    if n > 0 {
      assert (Spaces(n) + s)[0] == ' ';
      assert (Spaces(n) + s)[1..] == Spaces(n - 1) + s;
      TrimLeftAfterSpaces(n - 1, s);
    } else {
      assert Spaces(n) + s == s;
    }
  }

  /** `n` space characters (strings.Repeat(" ", n)). */
  function Spaces(n: nat): (r: string)
    ensures |r| == n && forall i :: 0 <= i < n ==> r[i] == ' '
  {
    if n == 0 then "" else " " + Spaces(n - 1)
  }

  /** `len(s) - len(strings.TrimLeft(s, " "))`: how many ' ' characters `s` starts with. */
  function LeadingSpaces(s: string): (n: nat)
    ensures n <= |s|
    ensures forall i :: 0 <= i < n ==> s[i] == ' '
    ensures n == |s| || s[n] != ' '
  {
    if |s| > 0 && s[0] == ' ' then 1 + LeadingSpaces(s[1..]) else 0
  }

  lemma {:induction false} LeadingSpacesOfSpaces(n: nat, s: string)
    requires s == [] || s[0] != ' '
    ensures LeadingSpaces(Spaces(n) + s) == n
  {
    if n > 0 {
      assert (Spaces(n) + s)[1..] == Spaces(n - 1) + s;
      LeadingSpacesOfSpaces(n - 1, s);
    } else {
      assert Spaces(n) + s == s;
    }
  }

  /** strings.HasPrefix */
  predicate HasPrefix(s: string, p: string) {
    |p| <= |s| && s[..|p|] == p
  }

  /** Does `sub` occur in `s` at position `i`? */
  predicate OccursAt(s: string, sub: string, i: nat) {
    i + |sub| <= |s| && s[i..i + |sub|] == sub
  }

  /** strings.Index: the first position at which `sub` occurs in `s`. */
  function IndexOf(s: string, sub: string): (r: Option<nat>)
    ensures r.Some? ==> OccursAt(s, sub, r.value) && forall j :: 0 <= j < r.value ==> !OccursAt(s, sub, j)
    ensures r.None? ==> forall j :: 0 <= j <= |s| ==> !OccursAt(s, sub, j)
  {
    IndexFrom(s, sub, 0)
  }

  function IndexFrom(s: string, sub: string, i: nat): (r: Option<nat>)
    requires forall j :: 0 <= j < i ==> !OccursAt(s, sub, j)
    ensures r.Some? ==> OccursAt(s, sub, r.value) && forall j :: 0 <= j < r.value ==> !OccursAt(s, sub, j)
    ensures r.None? ==> forall j :: 0 <= j <= |s| ==> !OccursAt(s, sub, j)
    decreases |s| - i
  {
    if i + |sub| > |s| then None
    else if s[i..i + |sub|] == sub then Some(i)
    else IndexFrom(s, sub, i + 1)
  }

  /** strings.Contains */
  predicate Contains(s: string, sub: string) {
    IndexOf(s, sub).Some?
  }

  /** strings.SplitN(s, sep, 2) for a non-empty separator: split at the first occurrence, if any. */
  function SplitOnce(s: string, sep: string): (parts: seq<string>)
    requires |sep| > 0
    ensures 1 <= |parts| <= 2
    ensures |parts| == 1 ==> parts[0] == s
    ensures |parts| == 2 ==> s == parts[0] + sep + parts[1]
  {
    match IndexOf(s, sep)
    case None => [s]
    case Some(i) =>
      assert s == s[..i] + sep + s[i + |sep|..];
      [s[..i], s[i + |sep|..]]
  }

  /** A text split at the first separator when none occurs inside the part before it. */
  lemma SplitOnceAt(a: string, sep: string, b: string)
    requires |sep| > 0
    requires forall j :: 0 <= j < |a| ==> !OccursAt(a + sep + b, sep, j)
    ensures SplitOnce(a + sep + b, sep) == [a, b]
  {
    var s := a + sep + b;
    assert s[|a|..|a| + |sep|] == sep;
    assert OccursAt(s, sep, |a|);
    assert s[..|a|] == a && s[|a| + |sep|..] == b;
  }

  /** SplitN splits exactly when the separator occurs, and at its first occurrence. */
  lemma SplitOnceAtFirst(s: string, sep: string)
    requires |sep| > 0
    ensures |SplitOnce(s, sep)| == 2 <==> Contains(s, sep)
    ensures |SplitOnce(s, sep)| == 2 ==> !Contains(SplitOnce(s, sep)[0], sep)
  {
    match IndexOf(s, sep)
    case None =>
    case Some(i) =>
      var before := s[..i];
      assert forall j :: 0 <= j <= |before| ==> OccursAt(before, sep, j) ==> OccursAt(s, sep, j);
  }

  /** `strings.SplitN(s, sep, 2)[0]`: the text before the first `sep`, or all of `s`. */
  function BeforeFirst(s: string, sep: string): string
    requires |sep| > 0
  {
    SplitOnce(s, sep)[0]
  }

  /** The text before the first separator starts `s` and holds no separator. */
  lemma BeforeFirstIsPrefix(s: string, sep: string)
    requires |sep| > 0
    ensures HasPrefix(s, BeforeFirst(s, sep))
    ensures !Contains(BeforeFirst(s, sep), sep)
  {
    SplitOnceAtFirst(s, sep);
    var parts := SplitOnce(s, sep);
    if |parts| == 2 {
      assert s[..|parts[0]|] == parts[0];
    }
  }

  /** strings.Split(s, sep) for a one-character separator. */
  function Split(s: string, sep: char): (r: seq<string>)
    ensures |r| >= 1
    ensures forall i :: 0 <= i < |r| ==> sep !in r[i]
    decreases |s|
  {
    match IndexOf(s, [sep])
    case None =>
      assert forall j :: 0 <= j < |s| ==> s[j] == sep ==> OccursAt(s, [sep], j);
      [s]
    case Some(i) =>
      assert forall j :: 0 <= j < i ==> s[j] == sep ==> OccursAt(s, [sep], j);
      [s[..i]] + Split(s[i + 1..], sep)
  }

  /** strings.Join */
  function Join(parts: seq<string>, sep: string): string
  {
    if |parts| == 0 then ""
    else if |parts| == 1 then parts[0]
    else parts[0] + sep + Join(parts[1..], sep)
  }

  /** A join starts with its first part. */
  lemma JoinStartsWithFirst(parts: seq<string>, sep: string)
    requires |parts| >= 1
    ensures HasPrefix(Join(parts, sep), parts[0])
  {
    if |parts| > 1 {
      assert Join(parts, sep) == parts[0] + (sep + Join(parts[1..], sep));
    }
  }

  /** Joining one more part adds the separator and the part at the end. */
  lemma {:induction false} JoinAppend(parts: seq<string>, part: string, sep: string)
    ensures Join(parts + [part], sep) == if parts == [] then part else Join(parts, sep) + sep + part
  {
    if |parts| == 1 {
      assert (parts + [part])[1..] == [part];
    } else if |parts| > 1 {
      assert (parts + [part])[1..] == parts[1..] + [part];
      JoinAppend(parts[1..], part, sep);
    }
  }

  /** Splitting on a character and joining on it again gives back the text. */
  lemma {:induction false} JoinSplit(s: string, sep: char)
    ensures Join(Split(s, sep), [sep]) == s
    decreases |s|
  {
    match IndexOf(s, [sep])
    case None =>
    case Some(i) =>
      var rest := Split(s[i + 1..], sep);
      JoinSplit(s[i + 1..], sep);
      assert Split(s, sep) == [s[..i]] + rest;
      assert ([s[..i]] + rest)[1..] == rest;
      assert Join(Split(s, sep), [sep]) == s[..i] + [sep] + Join(rest, [sep]);
      assert s == s[..i] + [sep] + s[i + 1..];
  }

  /** Joining separator-free pieces and splitting again gives back the pieces. */
  lemma {:induction false} SplitJoin(parts: seq<string>, sep: char)
    requires |parts| >= 1
    requires forall i :: 0 <= i < |parts| ==> sep !in parts[i]
    ensures Split(Join(parts, [sep]), sep) == parts
    decreases |parts|
  {
    if |parts| == 1 {
      forall j | 0 <= j <= |parts[0]| ensures !OccursAt(parts[0], [sep], j) {
        if j + 1 <= |parts[0]| {
          assert parts[0][j..j + 1] == [parts[0][j]];
        }
      }
    } else {
      var s := Join(parts, [sep]);
      var rest := Join(parts[1..], [sep]);
      assert s == parts[0] + [sep] + rest;
      assert OccursAt(s, [sep], |parts[0]|);
      forall j | 0 <= j < |parts[0]| ensures !OccursAt(s, [sep], j) {
        assert s[j] == parts[0][j];
      }
      assert IndexOf(s, [sep]) == Some(|parts[0]|);
      assert s[..|parts[0]|] == parts[0];
      assert s[|parts[0]| + 1..] == rest;
      SplitJoin(parts[1..], sep);
    }
  }

  /** `fmt.Sprintf("%v", b)` for a bool. */
  function BoolText(b: bool): string {
    if b then "true" else "false"
  }

  /** The decimal digits of a natural number, most significant first. */
  function Digits(n: nat): (r: string)
    ensures |r| > 0
    ensures forall i :: 0 <= i < |r| ==> '0' <= r[i] <= '9'
  {
    var d := ['0' + (n % 10) as char];
    if n < 10 then d else Digits(n / 10) + d
  }

  /** `fmt.Sprintf("%v", i)` for an integer: decimal, with a leading '-' when negative. */
  function IntText(i: int): string {
    if i < 0 then "-" + Digits(-i) else Digits(i)
  }

  // ---------------------------------------------------------------------
  // Go's string order: byte-wise comparison of UTF-8, which is the same as
  // comparing code points one by one.

  /** `a < b` on Go strings. */
  predicate Less(a: string, b: string)
    decreases |a|
  {
    if |b| == 0 then false
    else if |a| == 0 then true
    else if a[0] != b[0] then a[0] < b[0]
    else Less(a[1..], b[1..])
  }

  predicate LessEq(a: string, b: string) {
    a == b || Less(a, b)
  }

  lemma {:induction false} LessIrreflexive(a: string)
    ensures !Less(a, a)
    decreases |a|
  {
    if |a| > 0 {
      LessIrreflexive(a[1..]);
    }
  }

  lemma {:induction false} LessTransitive(a: string, b: string, c: string)
    requires Less(a, b) && Less(b, c)
    ensures Less(a, c)
    decreases |a|
  {
    if |a| > 0 && a[0] == b[0] && b[0] == c[0] {
      LessTransitive(a[1..], b[1..], c[1..]);
    }
  }

  lemma {:induction false} LessTotal(a: string, b: string)
    ensures a == b || Less(a, b) || Less(b, a)
    decreases |a|
  {
    if |a| > 0 && |b| > 0 && a[0] == b[0] {
      LessTotal(a[1..], b[1..]);
      if a[1..] == b[1..] {
        assert a == [a[0]] + a[1..] && b == [b[0]] + b[1..];
      }
    }
  }

  lemma {:induction false} LessAsymmetric(a: string, b: string)
    requires Less(a, b)
    ensures !Less(b, a)
    decreases |a|
  {
    if |a| > 0 && a[0] == b[0] {
      LessAsymmetric(a[1..], b[1..]);
    }
  }

  lemma LessEqAntisymmetric(a: string, b: string)
    requires LessEq(a, b) && LessEq(b, a)
    ensures a == b
  {
    if a != b {
      LessAsymmetric(a, b);
      assert false;
    }
  }

  lemma LessEqTransitive(a: string, b: string, c: string)
    requires LessEq(a, b) && LessEq(b, c)
    ensures LessEq(a, c)
  {
    if a != b && b != c {
      LessTransitive(a, b, c);
    }
  }

  // ---------------------------------------------------------------------
  // sort.Strings and sort.Slice: the result is the input, reordered so that
  // the sort keys never decrease.

  predicate SortedBy<T>(xs: seq<T>, key: T -> string) {
    forall i, j :: 0 <= i < j < |xs| ==> LessEq(key(xs[i]), key(xs[j]))
  }

  predicate StrictlySorted(xs: seq<string>) {
    forall i, j :: 0 <= i < j < |xs| ==> Less(xs[i], xs[j])
  }

  ghost predicate Distinct<T>(xs: seq<T>) {
    forall i, j :: 0 <= i < j < |xs| ==> xs[i] != xs[j]
  }

  function Identity(s: string): string { s }

  /** Insert `x` into a list sorted by `key`, after every element whose key is not above x's. */
  function InsertBy<T>(xs: seq<T>, x: T, key: T -> string): (r: seq<T>)
    ensures |r| == |xs| + 1
  {
    if |xs| == 0 then [x]
    else if LessEq(key(xs[0]), key(x)) then [xs[0]] + InsertBy(xs[1..], x, key)
    else [x] + xs
  }

  /** Inserting adds exactly `x`. */
  lemma {:induction false} InsertByPermutes<T>(xs: seq<T>, x: T, key: T -> string)
    ensures multiset(InsertBy(xs, x, key)) == multiset(xs) + multiset{x}
  {
    if |xs| > 0 {
      assert xs == [xs[0]] + xs[1..];
      if LessEq(key(xs[0]), key(x)) {
        InsertByPermutes(xs[1..], x, key);
      }
    }
  }

  /** Inserting into a sorted list keeps it sorted. */
  lemma {:induction false} InsertBySorted<T>(xs: seq<T>, x: T, key: T -> string)
    requires SortedBy(xs, key)
    ensures SortedBy(InsertBy(xs, x, key), key)
  {
    if |xs| == 0 {
    } else if LessEq(key(xs[0]), key(x)) {
      var rest := InsertBy(xs[1..], x, key);
      InsertBySorted(xs[1..], x, key);
      InsertByPermutes(xs[1..], x, key);
      forall j | 0 <= j < |rest| ensures LessEq(key(xs[0]), key(rest[j])) {
        assert rest[j] in multiset(rest);
        if rest[j] != x {
          assert rest[j] in multiset(xs[1..]);
          var k :| 0 <= k < |xs[1..]| && xs[1..][k] == rest[j];
          assert xs[k + 1] == rest[j];
        }
      }
      assert InsertBy(xs, x, key) == [xs[0]] + rest;
    } else {
      LessTotal(key(xs[0]), key(x));
      forall j | 0 <= j < |xs| ensures LessEq(key(x), key(xs[j])) {
        if j > 0 {
          LessEqTransitive(key(x), key(xs[0]), key(xs[j]));
        }
      }
    }
  }

  /** Sort by `key` (insertion sort standing for Go's sort.Slice / sort.Strings). */
  function SortBy<T>(xs: seq<T>, key: T -> string): (r: seq<T>)
    ensures |r| == |xs|
  {
    if |xs| == 0 then [] else InsertBy(SortBy(xs[1..], key), xs[0], key)
  }

  /** The sorted list is a permutation of the input whose keys never decrease. */
  lemma {:induction false} SortBySorts<T>(xs: seq<T>, key: T -> string)
    ensures multiset(SortBy(xs, key)) == multiset(xs)
    ensures SortedBy(SortBy(xs, key), key)
  {
    if |xs| > 0 {
      assert xs == [xs[0]] + xs[1..];
      SortBySorts(xs[1..], key);
      InsertByPermutes(SortBy(xs[1..], key), xs[0], key);
      InsertBySorted(SortBy(xs[1..], key), xs[0], key);
    }
  }

  /** sort.Strings */
  function SortStrings(xs: seq<string>): (r: seq<string>)
    ensures multiset(r) == multiset(xs)
    ensures SortedBy(r, Identity)
  {
    SortBySorts(xs, Identity);
    SortBy(xs, Identity)
  }

  /** A non-decreasing list with no repeated element is strictly increasing. */
  lemma SortedDistinctIsStrict(xs: seq<string>)
    requires SortedBy(xs, Identity) && Distinct(xs)
    ensures StrictlySorted(xs)
  {
    forall i, j | 0 <= i < j < |xs| ensures Less(xs[i], xs[j]) {
      assert LessEq(Identity(xs[i]), Identity(xs[j]));
    }
  }

  /** Two sorted lists holding the same strings start with the same string. */
  lemma SortedPermutationHead(a: seq<string>, b: seq<string>)
    requires SortedBy(a, Identity) && SortedBy(b, Identity)
    requires multiset(a) == multiset(b) && |a| > 0
    ensures |b| > 0 && a[0] == b[0]
  {
    assert a[0] in multiset(b);
    var i :| 0 <= i < |b| && b[i] == a[0];
    assert b[0] in multiset(a);
    var j :| 0 <= j < |a| && a[j] == b[0];
    assert LessEq(Identity(b[0]), Identity(b[i]));
    assert LessEq(Identity(a[0]), Identity(a[j]));
    LessEqAntisymmetric(a[0], b[0]);
  }

  /** Two sorted lists holding the same strings with the same multiplicities are equal. */
  lemma {:induction false} SortedPermutationUnique(a: seq<string>, b: seq<string>)
    requires SortedBy(a, Identity) && SortedBy(b, Identity)
    requires multiset(a) == multiset(b)
    ensures a == b
    decreases |a|
  {
    if |a| > 0 {
      SortedPermutationHead(a, b);
      assert a == [a[0]] + a[1..] && b == [b[0]] + b[1..];
      assert multiset(a[1..]) == multiset(a) - multiset{a[0]} by {
        assert multiset(a) == multiset{a[0]} + multiset(a[1..]);
      }
      assert multiset(b[1..]) == multiset(b) - multiset{b[0]} by {
        assert multiset(b) == multiset{b[0]} + multiset(b[1..]);
      }
      SortedPermutationUnique(a[1..], b[1..]);
    } else {
      assert |b| == |multiset(b)| == 0;
    }
  }

  /** `f` applied to every element, in order. */
  function MapSeq<T, U>(xs: seq<T>, f: T -> U): (r: seq<U>)
    ensures |r| == |xs|
  {
    if xs == [] then [] else [f(xs[0])] + MapSeq(xs[1..], f)
  }

  lemma {:induction false} MapSeqAt<T, U>(xs: seq<T>, f: T -> U, i: nat)
    requires i < |xs|
    ensures MapSeq(xs, f)[i] == f(xs[i])
  {
    if i > 0 {
      MapSeqAt(xs[1..], f, i - 1);
    }
  }

  lemma {:induction false} MapSeqAppend<T, U>(a: seq<T>, b: seq<T>, f: T -> U)
    ensures MapSeq(a + b, f) == MapSeq(a, f) + MapSeq(b, f)
  {
    if a == [] {
      assert a + b == b;
    } else {
      assert (a + b)[1..] == a[1..] + b;
      MapSeqAppend(a[1..], b, f);
    }
  }

  /** Dropping the element at `j` drops one copy of it. */
  lemma MultisetRemove<T>(ys: seq<T>, j: nat)
    requires j < |ys|
    ensures ys == ys[..j] + [ys[j]] + ys[j + 1..]
    ensures multiset(ys[..j] + ys[j + 1..]) == multiset(ys) - multiset{ys[j]}
  {
    assert ys == ys[..j] + [ys[j]] + ys[j + 1..];
  }

  /** Mapping a list with one element taken out maps the rest and that element. */
  lemma MapSeqSplit<T, U>(before: seq<T>, x: T, after: seq<T>, f: T -> U)
    ensures multiset(MapSeq(before + [x] + after, f)) == multiset(MapSeq(before + after, f)) + multiset{f(x)}
  {
    MapSeqAppend(before + [x], after, f);
    MapSeqAppend(before, [x], f);
    MapSeqAppend(before, after, f);
    assert MapSeq([x], f) == [f(x)];
  }

  /** Mapping two permutations of a list gives two permutations of the mapped list. */
  lemma {:induction false} MapSeqPermutation<T, U>(xs: seq<T>, ys: seq<T>, f: T -> U)
    requires multiset(xs) == multiset(ys)
    ensures multiset(MapSeq(xs, f)) == multiset(MapSeq(ys, f))
    decreases |xs|
  {
    if xs == [] {
      assert |ys| == |multiset(ys)| == 0;
    } else {
      var x := xs[0];
      assert x in multiset(ys);
      var j :| 0 <= j < |ys| && ys[j] == x;
      MultisetRemove(ys, j);
      MultisetRemove(xs, 0);
      assert xs[..0] + xs[1..] == xs[1..];
      MapSeqPermutation(xs[1..], ys[..j] + ys[j + 1..], f);
      MapSeqSplit(ys[..j], x, ys[j + 1..], f);
      MapSeqSplit([], x, xs[1..], f);
      assert [] + [x] + xs[1..] == xs;
      assert [] + xs[1..] == xs[1..];
    }
  }

  /** A list with no repeated element has every element exactly once in its multiset. */
  lemma {:induction false} DistinctMultiplicity<T>(xs: seq<T>, x: T)
    requires Distinct(xs)
    ensures multiset(xs)[x] == if x in xs then 1 else 0
  {
    if |xs| > 0 {
      assert xs == [xs[0]] + xs[1..];
      DistinctMultiplicity(xs[1..], x);
    }
  }

  /** Two lists without repetitions holding the same elements are permutations of each other. */
  lemma DistinctSameElements<T>(xs: seq<T>, ys: seq<T>)
    requires Distinct(xs) && Distinct(ys)
    requires forall x :: x in xs <==> x in ys
    ensures multiset(xs) == multiset(ys)
  {
    forall x ensures multiset(xs)[x] == multiset(ys)[x] {
      DistinctMultiplicity(xs, x);
      DistinctMultiplicity(ys, x);
    }
  }

  /** A permutation of a list without repetitions has no repetitions. */
  lemma PermutationKeepsDistinct<T>(xs: seq<T>, ys: seq<T>)
    requires Distinct(xs) && multiset(xs) == multiset(ys)
    ensures Distinct(ys)
  {
    forall i, j | 0 <= i < j < |ys| ensures ys[i] != ys[j] {
      if ys[i] == ys[j] {
        var y := ys[i];
        assert ys == ys[..j] + [y] + ys[j + 1..];
        assert ys[..j] == ys[..i] + [y] + ys[i + 1..j];
        assert multiset(ys)[y] >= 2;
        DistinctMultiplicity(xs, y);
      }
    }
  }

  /** The sorted listing of a finite set of strings: every member once, in increasing order. */
  ghost function SortedList(s: set<string>): (r: seq<string>)
    ensures StrictlySorted(r)
    ensures forall x :: x in r <==> x in s
    ensures |r| == |s|
  {
    var xs := SetToSeq(s);
    var r := SortStrings(xs);
    PermutationKeepsDistinct(xs, r);
    SortedDistinctIsStrict(r);
    assert forall x :: x in r <==> x in multiset(xs);
    r
  }

  /** Some listing of a finite set, each member once. */
  ghost function SetToSeq(s: set<string>): (r: seq<string>)
    ensures Distinct(r) && |r| == |s|
    ensures forall x :: x in r <==> x in s
    decreases |s|
  {
    if s == {} then []
    else
      var x :| x in s;
      [x] + SetToSeq(s - {x})
  }

  /** A strictly increasing list is the sorted listing of its elements. */
  lemma StrictlySortedIsSortedList(xs: seq<string>, s: set<string>)
    requires StrictlySorted(xs)
    requires forall x :: x in xs <==> x in s
    ensures xs == SortedList(s)
  {
    var r := SortedList(s);
    StrictlySortedIsDistinct(xs);
    StrictlySortedIsDistinct(r);
    DistinctSameElements(xs, r);
    SortedPermutationUnique(xs, r);
  }

  /** A strictly increasing list repeats nothing. */
  lemma StrictlySortedIsDistinct(xs: seq<string>)
    requires StrictlySorted(xs)
    ensures Distinct(xs)
  {
    forall i, j | 0 <= i < j < |xs| ensures xs[i] != xs[j] {
      LessIrreflexive(xs[i]);
    }
  }

  /** A proper prefix sorts first. */
  lemma {:induction false} ProperPrefixIsLess(a: string, b: string)
    requires |a| < |b| && b[..|a|] == a
    ensures Less(a, b)
    decreases |a|
  {
    if |a| > 0 {
      assert a[0] == b[0];
      assert b[1..][..|a| - 1] == a[1..];
      ProperPrefixIsLess(a[1..], b[1..]);
    }
  }

  /** Strings that share a prefix compare as what follows it. */
  lemma {:induction false} LessAfterCommonPrefix(p: string, x: string, y: string)
    ensures Less(p + x, p + y) <==> Less(x, y)
    decreases |p|
  {
    if |p| > 0 {
      assert (p + x)[0] == (p + y)[0];
      assert (p + x)[1..] == p[1..] + x;
      assert (p + y)[1..] == p[1..] + y;
      LessAfterCommonPrefix(p[1..], x, y);
    } else {
      assert p + x == x && p + y == y;
    }
  }

  /** In a sorted list, a string comes after every copy of a string below it. */
  lemma LessComesFirst(xs: seq<string>, x: string, y: string)
    requires SortedBy(xs, Identity) && Less(y, x)
    ensures forall i, j :: 0 <= i < |xs| && 0 <= j < |xs| ==> xs[i] == x && xs[j] == y ==> j < i
  {
    forall i, j | 0 <= i < |xs| && 0 <= j < |xs| && xs[i] == x && xs[j] == y
      ensures j < i
    {
      if i == j {
        LessIrreflexive(x);
      } else if i < j {
        assert LessEq(Identity(xs[i]), Identity(xs[j]));
        LessAsymmetric(y, x);
      }
    }
  }
}
