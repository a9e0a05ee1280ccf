/**
 * Go's maps with string keys: `for k := range m` visits every key once, in an order the program
 * cannot rely on; the formatters then sort what they collected.
 */
module Maps {
  import Strings

  /** `for k := range m { keys = append(keys, k) }`: every key once, in the order the range takes. */
  method RangeKeys<V>(m: map<string, V>) returns (keys: seq<string>)
    ensures Strings.Distinct(keys)
    ensures forall k :: k in keys <==> k in m
  {
    keys := [];
    var remaining := m.Keys;
    while remaining != {}
      invariant remaining <= m.Keys
      invariant Strings.Distinct(keys)
      invariant forall k :: k in keys <==> k in m.Keys - remaining
      decreases remaining
    {
      var k :| k in remaining;
      assert k !in keys;
      keys := keys + [k];
      remaining := remaining - {k};
    }
  }

  /** The keys collected by a range, then put in order with sort.Strings: the map's keys, ascending. */
  method SortedKeys<V>(m: map<string, V>) returns (keys: seq<string>)
    ensures keys == Strings.SortedList(m.Keys)
  {
    var collected := RangeKeys(m);
    keys := Strings.SortStrings(collected);
    Strings.PermutationKeepsDistinct(collected, keys);
    Strings.SortedDistinctIsStrict(keys);
    assert forall k :: k in keys <==> k in multiset(collected);
    Strings.StrictlySortedIsSortedList(keys, m.Keys);
  }
}
