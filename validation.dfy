/**
 * FindDuplicateStacks (internal/utils/validation.go): the stack names that more than one stack
 * file declares, each with the paths of those files in the order the stacks were found.
 */
module Validation {
  import opened StackFinder
  import Strings

  /** The paths of the stacks called `name`, in their order. */
  function PathsNamed(stacks: seq<StackMetadata>, name: string): seq<string> {
    if stacks == [] then []
    else
      var last := stacks[|stacks| - 1];
      PathsNamed(stacks[..|stacks| - 1], name) + (if last.name == name then [last.filePath] else [])
  }

  function Names(stacks: seq<StackMetadata>): set<string> {
    set i | 0 <= i < |stacks| :: stacks[i].name
  }

  /** The first loop's map: every name with the paths that carry it. */
  function NameToPath(stacks: seq<StackMetadata>): map<string, seq<string>> {
    map name | name in Names(stacks) :: PathsNamed(stacks, name)
  }

  /** The result: the names carried by more than one path. */
  function Duplicates(stacks: seq<StackMetadata>): map<string, seq<string>> {
    map name | name in Names(stacks) && |PathsNamed(stacks, name)| > 1 :: PathsNamed(stacks, name)
  }

  /** `m[name]` as Go reads it: the empty slice for a missing key. */
  function Lookup(m: map<string, seq<string>>, name: string): seq<string> {
    if name in m then m[name] else []
  }

  /** One more stack adds its path to the end of its name's list and changes no other list. */
  lemma NameToPathStep(stacks: seq<StackMetadata>, stack: StackMetadata)
    ensures NameToPath(stacks + [stack]) ==
      NameToPath(stacks)[stack.name := Lookup(NameToPath(stacks), stack.name) + [stack.filePath]]
  {
    var longer := stacks + [stack];
    assert longer[..|longer| - 1] == stacks;
    assert Names(longer) == Names(stacks) + {stack.name} by {
      assert forall i :: 0 <= i < |stacks| ==> longer[i] == stacks[i];
      assert longer[|stacks|] == stack;
    }
    if stack.name !in Names(stacks) {
      NoPathsForMissingName(stacks, stack.name);
    }
    var before, after := NameToPath(stacks), NameToPath(longer);
    var expected := before[stack.name := Lookup(before, stack.name) + [stack.filePath]];
    assert after.Keys == expected.Keys;
    forall name | name in after.Keys
      ensures after[name] == expected[name]
    {
      assert after[name] == PathsNamed(stacks, name) + (if stack.name == name then [stack.filePath] else []);
    }
  }

  lemma {:induction false} NoPathsForMissingName(stacks: seq<StackMetadata>, name: string)
    requires name !in Names(stacks)
    ensures PathsNamed(stacks, name) == []
  {
    if stacks != [] {
      var init := stacks[..|stacks| - 1];
      assert Names(init) <= Names(stacks) by {
        assert forall i :: 0 <= i < |init| ==> init[i] == stacks[i];
      }
      assert stacks[|stacks| - 1].name in Names(stacks);
      NoPathsForMissingName(init, name);
    }
  }

  /**
   * FindDuplicateStacks (internal/utils/validation.go:8-26): gather each name's paths, then keep
   * the names with more than one. Go visits the map in no fixed order; the second loop takes the
   * names in any order.
   */
  method FindDuplicateStacks(stacks: seq<StackMetadata>) returns (duplicates: map<string, seq<string>>)
    ensures duplicates == Duplicates(stacks)
  {
    var nameToPath: map<string, seq<string>> := map[];
    var i := 0;
    while i < |stacks|
      invariant i <= |stacks|
      invariant nameToPath == NameToPath(stacks[..i])
    {
      var stack := stacks[i];
      assert stacks[..i + 1] == stacks[..i] + [stack];
      NameToPathStep(stacks[..i], stack);
      nameToPath := nameToPath[stack.name := Lookup(nameToPath, stack.name) + [stack.filePath]];
      i := i + 1;
    }
    assert stacks[..i] == stacks;

    duplicates := map[];
    var remaining := nameToPath.Keys;
    while remaining != {}
      invariant remaining <= nameToPath.Keys
      invariant duplicates == map name | name in nameToPath.Keys - remaining && |nameToPath[name]| > 1 :: nameToPath[name]
      decreases remaining
    {
      var name :| name in remaining;
      if |nameToPath[name]| > 1 {
        duplicates := duplicates[name := nameToPath[name]];
      }
      remaining := remaining - {name};
    }
  }

  // ---- What the duplicates promise ----

  /** The names of the stacks, in order. */
  function NameList(stacks: seq<StackMetadata>): (r: seq<string>)
    ensures |r| == |stacks|
  {
    seq(|stacks|, i requires 0 <= i < |stacks| => stacks[i].name)
  }

  /** A name has one path for each stack that carries it. */
  lemma {:induction false} PathsCountStacks(stacks: seq<StackMetadata>, name: string)
    ensures |PathsNamed(stacks, name)| == multiset(NameList(stacks))[name]
  {
    if stacks != [] {
      var init := stacks[..|stacks| - 1];
      PathsCountStacks(init, name);
      assert NameList(stacks) == NameList(init) + [stacks[|stacks| - 1].name];
    }
  }

  /** A name is reported exactly when two or more stacks carry it, with one path per stack. */
  lemma DuplicateWhenRepeated(stacks: seq<StackMetadata>, name: string)
    ensures name in Duplicates(stacks) <==> multiset(NameList(stacks))[name] >= 2
    ensures name in Duplicates(stacks) ==> |Duplicates(stacks)[name]| == multiset(NameList(stacks))[name]
  {
    PathsCountStacks(stacks, name);
    if name !in Names(stacks) {
      NoPathsForMissingName(stacks, name);
    }
  }

  /** Stacks with distinct names have no duplicates. */
  lemma DistinctNamesNoDuplicates(stacks: seq<StackMetadata>)
    requires forall i, j :: 0 <= i < j < |stacks| ==> stacks[i].name != stacks[j].name
    ensures Duplicates(stacks) == map[]
  {
    forall name | name in Names(stacks)
      ensures |PathsNamed(stacks, name)| <= 1
    {
      DistinctNamesOnePath(stacks, name);
    }
  }

  lemma {:induction false} DistinctNamesOnePath(stacks: seq<StackMetadata>, name: string)
    requires forall i, j :: 0 <= i < j < |stacks| ==> stacks[i].name != stacks[j].name
    ensures |PathsNamed(stacks, name)| <= 1
    ensures stacks != [] && stacks[|stacks| - 1].name == name ==> PathsNamed(stacks[..|stacks| - 1], name) == []
  {
    if stacks != [] {
      var init := stacks[..|stacks| - 1];
      DistinctNamesOnePath(init, name);
      if stacks[|stacks| - 1].name == name {
        assert name !in Names(init);
        NoPathsForMissingName(init, name);
      }
    }
  }

  /** The paths of a duplicate keep the order of the stacks: they split as the stacks do. */
  lemma {:induction false} PathsInStackOrder(a: seq<StackMetadata>, b: seq<StackMetadata>, name: string)
    ensures PathsNamed(a + b, name) == PathsNamed(a, name) + PathsNamed(b, name)
  {
    if b == [] {
      assert a + b == a;
    } else {
      var init := b[..|b| - 1];
      assert (a + b)[..|a + b| - 1] == a + init;
      assert (a + b)[|a + b| - 1] == b[|b| - 1];
      PathsInStackOrder(a, init, name);
    }
  }

  /** Every path reported for a name is the path of a stack that carries the name. */
  lemma {:induction false} PathsBelongToName(stacks: seq<StackMetadata>, name: string, k: nat)
    requires k < |PathsNamed(stacks, name)|
    ensures exists i :: 0 <= i < |stacks| && stacks[i].name == name && stacks[i].filePath == PathsNamed(stacks, name)[k]
  {
    var init := stacks[..|stacks| - 1];
    if k < |PathsNamed(init, name)| {
      PathsBelongToName(init, name, k);
      var i :| 0 <= i < |init| && init[i].name == name && init[i].filePath == PathsNamed(init, name)[k];
      assert stacks[i] == init[i];
    } else {
      assert stacks[|stacks| - 1].name == name;
    }
  }

  // ---- How many paths the maps hold ----

  /** The number of paths `m` lists under `keys`, a missing key counting as none. */
  function PathTotal(m: map<string, seq<string>>, keys: seq<string>): nat {
    if keys == [] then 0 else PathTotal(m, keys[..|keys| - 1]) + |Lookup(m, keys[|keys| - 1])|
  }

  /** The number of stacks carrying one of `keys`, counted name by name. */
  function PathsUnder(stacks: seq<StackMetadata>, keys: seq<string>): nat {
    if keys == [] then 0 else PathsUnder(stacks, keys[..|keys| - 1]) + |PathsNamed(stacks, keys[|keys| - 1])|
  }

  /** How often `name` is among `keys`. */
  function Occurrences(keys: seq<string>, name: string): nat {
    if keys == [] then 0 else Occurrences(keys[..|keys| - 1], name) + (if keys[|keys| - 1] == name then 1 else 0)
  }

  lemma {:induction false} OccursOnce(keys: seq<string>, name: string)
    requires Strings.Distinct(keys)
    ensures Occurrences(keys, name) == if name in keys then 1 else 0
  {
    if keys != [] {
      var init := keys[..|keys| - 1];
      assert forall i :: 0 <= i < |init| ==> init[i] == keys[i];
      OccursOnce(init, name);
      assert keys == init + [keys[|keys| - 1]];
    }
  }

  lemma {:induction false} PathsUnderNoStacks(keys: seq<string>)
    ensures PathsUnder([], keys) == 0
  {
    if keys != [] {
      PathsUnderNoStacks(keys[..|keys| - 1]);
    }
  }

  /** One more stack adds one path for each time its name is among `keys`. */
  lemma {:induction false} PathsUnderStep(stacks: seq<StackMetadata>, keys: seq<string>)
    requires stacks != []
    ensures PathsUnder(stacks, keys) ==
      PathsUnder(stacks[..|stacks| - 1], keys) + Occurrences(keys, stacks[|stacks| - 1].name)
  {
    if keys != [] {
      PathsUnderStep(stacks, keys[..|keys| - 1]);
    }
  }

  /** Each stack is counted under at most one of distinct names, and under exactly one when its name is listed. */
  lemma {:induction false} PathsUnderBound(stacks: seq<StackMetadata>, keys: seq<string>)
    requires Strings.Distinct(keys)
    ensures PathsUnder(stacks, keys) <= |stacks|
    ensures (forall i :: 0 <= i < |stacks| ==> stacks[i].name in keys) ==> PathsUnder(stacks, keys) == |stacks|
  {
    if stacks == [] {
      PathsUnderNoStacks(keys);
    } else {
      var init := stacks[..|stacks| - 1];
      PathsUnderBound(init, keys);
      PathsUnderStep(stacks, keys);
      OccursOnce(keys, stacks[|stacks| - 1].name);
      assert forall i :: 0 <= i < |init| ==> init[i] == stacks[i];
    }
  }

  /** The first loop's map files every stack's path under the stack's name, and nowhere else. */
  lemma {:induction false} NameToPathTotal(stacks: seq<StackMetadata>, keys: seq<string>)
    ensures PathTotal(NameToPath(stacks), keys) == PathsUnder(stacks, keys)
  {
    if keys != [] {
      var name := keys[|keys| - 1];
      NameToPathTotal(stacks, keys[..|keys| - 1]);
      if name !in Names(stacks) {
        NoPathsForMissingName(stacks, name);
      }
    }
  }

  /** The result keeps some of the first loop's lists whole and drops the others. */
  lemma {:induction false} DuplicatesTotal(stacks: seq<StackMetadata>, keys: seq<string>)
    ensures PathTotal(Duplicates(stacks), keys) <= PathsUnder(stacks, keys)
  {
    if keys != [] {
      DuplicatesTotal(stacks, keys[..|keys| - 1]);
    }
  }

  /**
   * Over distinct names that include every stack's name, the first loop's lists hold exactly
   * one path per stack.
   */
  lemma NameToPathHoldsEveryStack(stacks: seq<StackMetadata>, keys: seq<string>)
    requires Strings.Distinct(keys)
    requires forall i :: 0 <= i < |stacks| ==> stacks[i].name in keys
    ensures PathTotal(NameToPath(stacks), keys) == |stacks|
  {
    NameToPathTotal(stacks, keys);
    PathsUnderBound(stacks, keys);
  }

  /**
   * Every reported list holds two paths or more, and over any distinct names (the result's keys
   * among them) the reported lists hold at most one path per stack.
   */
  lemma DuplicatePathsBounded(stacks: seq<StackMetadata>, keys: seq<string>)
    requires Strings.Distinct(keys)
    ensures forall name :: name in Duplicates(stacks) ==> |Duplicates(stacks)[name]| >= 2
    ensures PathTotal(Duplicates(stacks), keys) <= |stacks|
  {
    DuplicatesTotal(stacks, keys);
    PathsUnderBound(stacks, keys);
  }
}
