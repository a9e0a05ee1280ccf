/**
 * The value formatters of the show command (cmd/show.go): formatValue, which renders a value for
 * the variables table, and formatTerraformValue, which renders it for a .tfvars file.
 *
 * Both render a map by collecting one `key<sep>value` pair per entry in map order and then sorting
 * the pairs as strings, so the entries come out ordered by their rendered text, not by key.
 */
module ShowFormat {
  import opened Wrappers
  import Strings
  import Maps
  import opened Values
  import TableRender

  /** Which formatter: formatValue (`Display`) or formatTerraformValue (`Terraform`). */
  datatype Notation = Display | Terraform

  /** Between a key and its value in a map pair. */
  function PairSeparator(n: Notation): string {
    match n
    case Display => ": "
    case Terraform => " = "
  }

  // ---- The specification: the text of a value in each notation ----

  ghost function Render(n: Notation, v: Value): string
    decreases v, 2
  {
    match v
    case Null => "null"
    case Bool(b) => Strings.BoolText(b)
    case Str(s) => if n == Terraform then "\"" + s + "\"" else s
    case Int(i) => Strings.IntText(i)
    case Float(shown) => shown
    case Map(m) => RenderMap(n, m)
    case List(items) => RenderList(n, items)
    case Other(shown, json) => if json.Some? then json.value else shown
  }

  /** A map: its pairs sorted as strings, in braces. */
  ghost function RenderMap(n: Notation, m: map<string, Value>): string
    decreases Map(m), 1, 1
  {
    if |m| == 0 then "{}"
    else
      match n
      case Display => "{ " + Strings.Join(SortedPairs(n, m), ", ") + " }"
      case Terraform => "{\n  " + Strings.Join(SortedPairs(n, m), "\n  ") + "\n}"
  }

  /** The pairs of all entries, sorted as strings. */
  ghost function SortedPairs(n: Notation, m: map<string, Value>): seq<string>
    decreases Map(m), 1, 0
  {
    Strings.SortStrings(Pairs(n, m, Strings.SortedList(m.Keys)))
  }

  /** The pair of one entry. */
  ghost function Pair(n: Notation, m: map<string, Value>, k: string): string
    requires k in m
    decreases Map(m), 0, 0
  {
    k + PairSeparator(n) + Render(n, m[k])
  }

  /** The pairs of the entries of `keys`, in that order. */
  ghost function Pairs(n: Notation, m: map<string, Value>, keys: seq<string>): (r: seq<string>)
    requires forall k :: k in keys ==> k in m
    ensures |r| == |keys|
    decreases Map(m), 0, |keys|
  {
    if keys == [] then []
    else Pairs(n, m, keys[..|keys| - 1]) + [Pair(n, m, keys[|keys| - 1])]
  }

  /** A list: its items' texts in order, in brackets. */
  ghost function RenderList(n: Notation, items: seq<Value>): string
    decreases items, 1
  {
    if |items| == 0 then "[]"
    else
      match n
      case Display => "[ " + Strings.Join(ItemTexts(n, items, |items|), ", ") + " ]"
      case Terraform => "[" + Strings.Join(ItemTexts(n, items, |items|), ", ") + "]"
  }

  /** The texts of the first `k` items. */
  ghost function ItemTexts(n: Notation, items: seq<Value>, k: nat): (r: seq<string>)
    requires k <= |items|
    ensures |r| == k
    decreases items, 0, k
  {
    if k == 0 then [] else ItemTexts(n, items, k - 1) + [Render(n, items[k - 1])]
  }

  // ---- The formatters ----

  /** formatValue (cmd/show.go:502-558) */
  method FormatValue(v: Value) returns (s: string)
    ensures s == Render(Display, v)
    decreases v, 2
  {
    match v
    case Null => s := "null";
    case Map(m) =>
      if |m| == 0 {
        return "{}";
      }
      var pairs := CollectPairs(Display, m);
      pairs := SortPairs(Display, m, pairs);
      s := "{ " + Strings.Join(pairs, ", ") + " }";
    case List(items) =>
      if |items| == 0 {
        return "[]";
      }
      var texts := CollectItems(Display, items);
      s := "[ " + Strings.Join(texts, ", ") + " ]";
    case Str(text) => s := text;
    case Bool(b) => s := Strings.BoolText(b);
    case Int(i) => s := Strings.IntText(i);
    case Float(shown) => s := shown;
    case Other(shown, json) =>
      match json
      case Some(encoded) => s := encoded;
      case None => s := shown;
  }

  /** formatTerraformValue (cmd/show.go:591-647) */
  method FormatTerraformValue(v: Value) returns (s: string)
    ensures s == Render(Terraform, v)
    decreases v, 2
  {
    match v
    case Null => s := "null";
    case Map(m) =>
      if |m| == 0 {
        return "{}";
      }
      var pairs := CollectPairs(Terraform, m);
      pairs := SortPairs(Terraform, m, pairs);
      s := "{\n  " + Strings.Join(pairs, "\n  ") + "\n}";
    case List(items) =>
      if |items| == 0 {
        return "[]";
      }
      var texts := CollectItems(Terraform, items);
      s := "[" + Strings.Join(texts, ", ") + "]";
    case Str(text) => s := "\"" + text + "\"";
    case Bool(b) => s := Strings.BoolText(b);
    case Int(i) => s := Strings.IntText(i);
    case Float(shown) => s := shown;
    case Other(shown, json) =>
      match json
      case Some(encoded) => s := encoded;
      case None => s := shown;
  }

  /** One value in the chosen notation. */
  method FormatIn(n: Notation, v: Value) returns (s: string)
    ensures s == Render(n, v)
    decreases v, 3
  {
    match n
    case Display => s := FormatValue(v);
    case Terraform => s := FormatTerraformValue(v);
  }

  /** The map loop of both formatters: one pair per entry, in the order the range visits them. */
  method CollectPairs(n: Notation, m: map<string, Value>) returns (pairs: seq<string>)
    ensures multiset(pairs) == multiset(Pairs(n, m, Strings.SortedList(m.Keys)))
    decreases Map(m), 1
  {
    var keys := Maps.RangeKeys(m);
    pairs := [];
    var i := 0;
    while i < |keys|
      invariant i <= |keys|
      invariant pairs == Pairs(n, m, keys[..i])
    {
      var val := FormatIn(n, m[keys[i]]);
      pairs := pairs + [keys[i] + PairSeparator(n) + val];
      assert keys[..i + 1][..i] == keys[..i];
      i := i + 1;
    }
    assert keys[..i] == keys;
    Strings.StrictlySortedIsDistinct(Strings.SortedList(m.Keys));
    PairsAnyOrder(n, m, keys, Strings.SortedList(m.Keys));
  }

  /** sort.Strings on the collected pairs: whatever order they were collected in, the same list. */
  method SortPairs(n: Notation, m: map<string, Value>, pairs: seq<string>) returns (sorted: seq<string>)
    requires multiset(pairs) == multiset(Pairs(n, m, Strings.SortedList(m.Keys)))
    ensures sorted == SortedPairs(n, m)
  {
    sorted := Strings.SortStrings(pairs);
    Strings.SortedPermutationUnique(sorted, SortedPairs(n, m));
  }

  /** The slice loop of both formatters: each item's text, in order. */
  method CollectItems(n: Notation, items: seq<Value>) returns (texts: seq<string>)
    ensures texts == ItemTexts(n, items, |items|)
    decreases items, 1
  {
    texts := [];
    var i := 0;
    while i < |items|
      invariant i <= |items|
      invariant texts == ItemTexts(n, items, i)
    {
      var item := FormatIn(n, items[i]);
      texts := texts + [item];
      i := i + 1;
    }
  }

  // ---- Pairs in any order ----

  /** A pair for any string: the entry's pair for a key of the map, else nothing. */
  ghost function PairOrEmpty(n: Notation, m: map<string, Value>, k: string): string {
    if k in m then Pair(n, m, k) else ""
  }

  lemma {:induction false} PairsAreMapped(n: Notation, m: map<string, Value>, keys: seq<string>)
    requires forall k :: k in keys ==> k in m
    ensures Pairs(n, m, keys) == Strings.MapSeq(keys, k => PairOrEmpty(n, m, k))
    decreases |keys|
  {
    if keys != [] {
      var init, last := keys[..|keys| - 1], keys[|keys| - 1];
      PairsAreMapped(n, m, init);
      assert keys == init + [last];
      Strings.MapSeqAppend(init, [last], k => PairOrEmpty(n, m, k));
    }
  }

  /** Two listings of the keys, each key once, give the same pairs up to order. */
  lemma PairsAnyOrder(n: Notation, m: map<string, Value>, keys: seq<string>, others: seq<string>)
    requires Strings.Distinct(keys) && Strings.Distinct(others)
    requires forall k :: k in keys <==> k in m
    requires forall k :: k in others <==> k in m
    ensures multiset(Pairs(n, m, keys)) == multiset(Pairs(n, m, others))
  {
    Strings.DistinctSameElements(keys, others);
    PairsAreMapped(n, m, keys);
    PairsAreMapped(n, m, others);
    Strings.MapSeqPermutation(keys, others, k => PairOrEmpty(n, m, k));
  }

  // ---- What the formatters promise ----

  /** A map's pairs: one per entry, in ascending string order. */
  lemma MapPairsSorted(n: Notation, m: map<string, Value>)
    ensures |SortedPairs(n, m)| == |m|
    ensures Strings.SortedBy(SortedPairs(n, m), Strings.Identity)
  {
  }

  /** Every entry has its pair among the sorted pairs. */
  lemma EveryEntryHasItsPair(n: Notation, m: map<string, Value>, k: string)
    requires k in m
    ensures Pair(n, m, k) in SortedPairs(n, m)
  {
    var keys := Strings.SortedList(m.Keys);
    var collected := Pairs(n, m, keys);
    assert multiset(SortedPairs(n, m)) == multiset(collected);
    var i :| 0 <= i < |keys| && keys[i] == k;
    PairAt(n, m, keys, i);
    assert collected[i] in multiset(collected);
  }

  /** Every sorted pair is the pair of an entry. */
  lemma EveryPairIsAnEntry(n: Notation, m: map<string, Value>, p: string)
    requires p in SortedPairs(n, m)
    ensures exists k :: k in m && p == Pair(n, m, k)
  {
    var keys := Strings.SortedList(m.Keys);
    var collected := Pairs(n, m, keys);
    assert multiset(SortedPairs(n, m)) == multiset(collected);
    assert p in multiset(collected);
    var i :| 0 <= i < |collected| && collected[i] == p;
    PairAt(n, m, keys, i);
  }

  lemma {:induction false} PairAt(n: Notation, m: map<string, Value>, keys: seq<string>, i: nat)
    requires forall k :: k in keys ==> k in m
    requires i < |keys|
    ensures Pairs(n, m, keys)[i] == Pair(n, m, keys[i])
    decreases |keys|
  {
    if i < |keys| - 1 {
      PairAt(n, m, keys[..|keys| - 1], i);
    }
  }

  /**
   * A scalar reads the same in both notations, except that Terraform wraps a string in double
   * quotes, without escaping anything inside it.
   */
  lemma TerraformScalarsAsDisplayed(v: Value)
    requires !v.Map? && !v.List?
    ensures Render(Terraform, v) == if v.Str? then "\"" + Render(Display, v) + "\"" else Render(Display, v)
  {
  }

  /** A string with a double quote in it comes out with that quote bare inside the Terraform quotes. */
  lemma TerraformQuotesAreNotEscaped(s: string, i: nat)
    requires i < |s| && s[i] == '"'
    ensures var text := Render(Terraform, Str(s));
      |text| == |s| + 2 && text[0] == '"' && text[i + 1] == '"' && text[|text| - 1] == '"'
  {
  }

  /**
   * The display formatter orders a map's entries by their rendered pairs, not by key: when key `a`
   * is a proper prefix of key `b` and the next character of `b` sorts before ':' (a space, say),
   * `a` comes first as a key but `b`'s pair comes first in the text.
   */
  lemma DisplayOrderIsNotKeyOrder(m: map<string, Value>, a: string, b: string)
    requires a in m && b in m
    requires |a| < |b| && b[..|a|] == a && b[|a|] < ':'
    ensures Strings.Less(a, b)
    ensures forall i, j :: 0 <= i < |SortedPairs(Display, m)| && 0 <= j < |SortedPairs(Display, m)| ==>
      SortedPairs(Display, m)[i] == Pair(Display, m, a) && SortedPairs(Display, m)[j] == Pair(Display, m, b) ==> j < i
  {
    Strings.ProperPrefixIsLess(a, b);
    PrefixKeyPairSortsFirst(m, a, b);
    MapPairsSorted(Display, m);
    Strings.LessComesFirst(SortedPairs(Display, m), Pair(Display, m, a), Pair(Display, m, b));
  }

  lemma PrefixKeyPairSortsFirst(m: map<string, Value>, a: string, b: string)
    requires a in m && b in m
    requires |a| < |b| && b[..|a|] == a && b[|a|] < ':'
    ensures Strings.Less(Pair(Display, m, b), Pair(Display, m, a))
  {
    var rest := b[|a|..] + ": " + Render(Display, m[b]);
    assert b == a + b[|a|..];
    assert Pair(Display, m, b) == a + rest;
    assert Pair(Display, m, a) == a + (": " + Render(Display, m[a]));
    Strings.LessAfterCommonPrefix(a, rest, ": " + Render(Display, m[a]));
  }
}
