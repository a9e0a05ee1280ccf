/**
 * The `show stack` command (cmd/show.go): which stack and component it shows, what it reads from
 * the component's `vars`, and which of its outcomes a run ends in.
 *
 * Everything the command asks of the outside world is in `World`: the configuration, the stack
 * finder, the regex engine, the component listing of a stack file, the YAML library and the file
 * system. A run ends in an `Outcome`: a fatal error, an early return, or the data one of the
 * printers would print.
 */
module ShowStack {
  import opened Wrappers
  import Strings
  import Maps
  import opened Values
  import opened StackFinder
  import Filters
  import Validation
  import YamlParser

  datatype Component = Component(componentType: string, name: string)

  datatype ComponentVar = ComponentVar(name: string, value: Value)

  /** The command's flags: --stackName, --component, --tfvars, --json, --no-color and each --filter. */
  datatype Flags = Flags(
    stackName: string,
    componentName: string,
    tfVars: bool,
    jsonOutput: bool,
    noColor: bool,
    filters: seq<string>)

  datatype World = World(
    /** viper's stacksPath */
    stacksPath: string,
    /** viper's catalogDir */
    catalogDir: string,
    /** stackfinder.FindStacks */
    findStacks: string -> Result<seq<StackMetadata>>,
    /** regexp.MatchString, for the stack filters */
    regex: Filters.RegexMatch,
    /** extractComponents: the components of a stack file, in the order its map range gives them */
    components: string -> Result<seq<Component>>,
    /** The YAML library and the file system, for MergeYAML */
    env: YamlParser.Env,
    /** yaml.Unmarshal into a map */
    unmarshal: string -> Result<map<string, Value>>)

  /** How a run ends: logger.Log.Fatalf, os.Exit(1) after listing duplicates, a return, or an output. */
  datatype Outcome =
    | Fatal(message: string)
    | DuplicateStacks(duplicates: map<string, seq<string>>)
    | NoMatchingStacks
    | NoComponents(stackName: string)
    | NoVars(componentName: string, stackName: string)
    /** outputTerraformVars: the variables, the stack file's base name and the component */
    | TerraformVars(vars: seq<ComponentVar>, stackFile: string, componentName: string)
    | VarsJson(vars: seq<ComponentVar>)
    /** printComponentVarsBubblesTable when `styled`, else printComponentVarsStandardTable */
    | VarsTable(vars: seq<ComponentVar>, component: Component, styled: bool)
    | ComponentsJson(components: seq<Component>)
    /** printComponentsBubblesTable when `styled`, else printComponentsStandardTable */
    | ComponentsTable(components: seq<Component>, styled: bool)

  const NeedStackOrFilter := "Error: either stack name or filter is required. Use --stackName/-s or --filter"
  const TfvarsNeedComponent := "Error: --tfvars can only be used with --component"
  const NoStacksPath := "Error: stacksPath not defined in config"
  const NoMatchingStack := "Error: no matching stack found"
  const DefaultCatalogDir := "fixtures/catalog"

  // ---- Finding by name ----

  /** The index of the first element of `xs` whose name, as `nameOf` reads it, is `name`. */
  function FirstNamed<T>(xs: seq<T>, nameOf: T -> string, name: string): (r: Option<nat>)
    ensures r.Some? ==> r.value < |xs| && nameOf(xs[r.value]) == name
    ensures r.Some? ==> forall j :: 0 <= j < r.value ==> nameOf(xs[j]) != name
    ensures r.None? ==> forall j :: 0 <= j < |xs| ==> nameOf(xs[j]) != name
  {
    if xs == [] then None
    else if nameOf(xs[0]) == name then Some(0)
    else
      match FirstNamed(xs[1..], nameOf, name)
      case None => None
      case Some(i) => Some(i + 1)
  }

  function StackName(stack: StackMetadata): string { stack.name }

  function ComponentName(component: Component): string { component.name }

  /**
   * The stack the command shows: without a stack name the first candidate, with one the first
   * candidate of exactly that name.
   */
  function Target(stackName: string, candidates: seq<StackMetadata>): (t: Option<StackMetadata>)
    ensures stackName == "" && |candidates| > 0 ==> t == Some(candidates[0])
    ensures stackName != "" && t.Some? ==> t.value.name == stackName
    ensures stackName != "" && t.Some? ==>
      exists i :: 0 <= i < |candidates| && candidates[i] == t.value && (forall j :: 0 <= j < i ==> candidates[j].name != stackName)
    ensures stackName != "" ==> (t.None? <==> forall i :: 0 <= i < |candidates| ==> candidates[i].name != stackName)
    ensures t.Some? ==> t.value in candidates
  {
    if stackName == "" && |candidates| > 0 then Some(candidates[0])
    else
      match FirstNamed(candidates, StackName, stackName)
      case None => None
      case Some(i) => Some(candidates[i])
  }

  // ---- A component's variables ----

  /** viper's catalogDir, or fixtures/catalog when it is not set. */
  function CatalogDir(configured: string): string {
    if configured == "" then DefaultCatalogDir else configured
  }

  /** `m[key].(map[string]interface{})`: the map under a key, if there is one. */
  function MapAt(m: map<string, Value>, key: string): Option<map<string, Value>> {
    if key in m && m[key].Map? then Some(m[key].entries) else None
  }

  /** The path extractComponentVars walks down the merged stack. */
  function VarsPath(componentType: string, componentName: string): seq<string> {
    ["spec", "components", componentType, componentName, "vars"]
  }

  /** The error for each step of that path. */
  function LevelMessage(level: nat, componentType: string, componentName: string): string
    requires level < 5
  {
    [ "spec section not found in YAML",
      "components section not found in YAML",
      "component type '" + componentType + "' not found",
      "component '" + componentName + "' not found",
      "vars section not found for component '" + componentName + "'" ][level]
  }

  /**
   * The vars map of a component (cmd/show.go:250-294): merge the stack file, unmarshal it, then
   * take the map under each step of the path, failing at the first step that is missing or not a
   * map.
   */
  function VarsSection(w: World, filePath: string, componentType: string, componentName: string): Result<map<string, Value>> {
    match YamlParser.MergeYAML(YamlParser.Pkg, w.env, filePath, CatalogDir(w.catalogDir))
    case Err(e) => Err("failed to merge YAML: " + e)
    case Ok(mergedYAML) =>
      match w.unmarshal(mergedYAML)
      case Err(e) => Err("failed to parse merged YAML: " + e)
      case Ok(stack) => VarsIn(stack, componentType, componentName)
  }

  /** The walk down spec.components.<type>.<name>.vars, failing at the first step that is missing or not a map. */
  function VarsIn(stack: map<string, Value>, componentType: string, componentName: string): Result<map<string, Value>> {
    match MapAt(stack, "spec")
    case None => Err(LevelMessage(0, componentType, componentName))
    case Some(spec) =>
      match MapAt(spec, "components")
      case None => Err(LevelMessage(1, componentType, componentName))
      case Some(components) =>
        match MapAt(components, componentType)
        case None => Err(LevelMessage(2, componentType, componentName))
        case Some(typeComponents) =>
          match MapAt(typeComponents, componentName)
          case None => Err(LevelMessage(3, componentType, componentName))
          case Some(component) =>
            match MapAt(component, "vars")
            case None => Err(LevelMessage(4, componentType, componentName))
            case Some(vars) => Ok(vars)
  }

  /** One variable per key of the vars map, by ascending name. */
  ghost function SortedVars(vars: map<string, Value>): (r: seq<ComponentVar>)
    ensures |r| == |vars|
  {
    var names := Strings.SortedList(vars.Keys);
    seq(|names|, i requires 0 <= i < |names| => ComponentVar(names[i], vars[names[i]]))
  }

  ghost function ComponentVars(w: World, filePath: string, componentType: string, componentName: string): Result<seq<ComponentVar>> {
    match VarsSection(w, filePath, componentType, componentName)
    case Err(e) => Err(e)
    case Ok(vars) => Ok(SortedVars(vars))
  }

  function VarName(v: ComponentVar): string {
    v.name
  }

  /** extractComponentVars (cmd/show.go:250-311): find the vars map, list its entries, sort them by name. */
  method ExtractComponentVars(w: World, filePath: string, componentType: string, componentName: string)
    returns (result: Result<seq<ComponentVar>>)
    ensures result == ComponentVars(w, filePath, componentType, componentName)
  {
    var section := VarsSection(w, filePath, componentType, componentName);
    if section.Err? {
      return Err(section.error);
    }
    var varsMap := section.value;
    var names := Maps.RangeKeys(varsMap);
    var vars: seq<ComponentVar> := [];
    var i := 0;
    while i < |names|
      invariant i <= |names|
      invariant |vars| == i
      invariant forall j :: 0 <= j < i ==> vars[j] == ComponentVar(names[j], varsMap[names[j]])
    {
      vars := vars + [ComponentVar(names[i], varsMap[names[i]])];
      i := i + 1;
    }
    var sorted := Strings.SortBy(vars, VarName);
    SortingGivesSortedVars(varsMap, names, vars);
    return Ok(sorted);
  }

  /** However the range ordered the entries, sorting them by name gives the same list. */
  lemma SortingGivesSortedVars(varsMap: map<string, Value>, names: seq<string>, vars: seq<ComponentVar>)
    requires Strings.Distinct(names) && forall k :: k in names <==> k in varsMap
    requires |vars| == |names| && forall j :: 0 <= j < |vars| ==> vars[j] == ComponentVar(names[j], varsMap[names[j]])
    ensures Strings.SortBy(vars, VarName) == SortedVars(varsMap)
  {
    var sorted := Strings.SortBy(vars, VarName);
    var listed := Strings.SortedList(varsMap.Keys);
    assert multiset(sorted) == multiset(vars) by {
      Strings.SortBySorts(vars, VarName);
    }
    assert Strings.MapSeq(sorted, VarName) == listed by {
      Strings.SortBySorts(vars, VarName);
      NamesOfVars(vars, names);
      Strings.StrictlySortedIsDistinct(listed);
      Strings.DistinctSameElements(names, listed);
      SortedNamesAreListed(sorted, vars, listed);
    }
    VarsByListedNames(varsMap, vars, sorted, listed);
    SortedVarsByPosition(varsMap, sorted);
  }

  lemma SortedVarsByPosition(varsMap: map<string, Value>, sorted: seq<ComponentVar>)
    requires var listed := Strings.SortedList(varsMap.Keys);
      |sorted| == |listed| && forall j :: 0 <= j < |sorted| ==> listed[j] in varsMap && sorted[j] == ComponentVar(listed[j], varsMap[listed[j]])
    ensures sorted == SortedVars(varsMap)
  {
  }

  /** Each sorted variable is the entry of the name at its position. */
  lemma VarsByListedNames(varsMap: map<string, Value>, vars: seq<ComponentVar>, sorted: seq<ComponentVar>, listed: seq<string>)
    requires forall x :: x in vars ==> x.name in varsMap && x.value == varsMap[x.name]
    requires multiset(sorted) == multiset(vars) && Strings.MapSeq(sorted, VarName) == listed
    ensures forall j :: 0 <= j < |sorted| ==> listed[j] in varsMap && sorted[j] == ComponentVar(listed[j], varsMap[listed[j]])
  {
    forall j | 0 <= j < |sorted|
      ensures listed[j] in varsMap && sorted[j] == ComponentVar(listed[j], varsMap[listed[j]])
    {
      Strings.MapSeqAt(sorted, VarName, j);
      assert sorted[j] in multiset(vars);
    }
  }

  lemma NamesOfVars(vars: seq<ComponentVar>, names: seq<string>)
    requires |vars| == |names| && forall j :: 0 <= j < |vars| ==> vars[j].name == names[j]
    ensures Strings.MapSeq(vars, VarName) == names
  {
    forall j | 0 <= j < |vars|
      ensures Strings.MapSeq(vars, VarName)[j] == names[j]
    {
      Strings.MapSeqAt(vars, VarName, j);
    }
  }

  /** Variables sorted by name, listed by name, are the sorted list of those names. */
  lemma SortedNamesAreListed(sorted: seq<ComponentVar>, vars: seq<ComponentVar>, listed: seq<string>)
    requires multiset(sorted) == multiset(vars) && Strings.SortedBy(sorted, VarName)
    requires multiset(Strings.MapSeq(vars, VarName)) == multiset(listed) && Strings.StrictlySorted(listed)
    ensures Strings.MapSeq(sorted, VarName) == listed
  {
    var sortedNames := Strings.MapSeq(sorted, VarName);
    Strings.MapSeqPermutation(sorted, vars, VarName);
    forall i, j | 0 <= i < j < |sorted|
      ensures Strings.LessEq(sortedNames[i], sortedNames[j])
    {
      Strings.MapSeqAt(sorted, VarName, i);
      Strings.MapSeqAt(sorted, VarName, j);
    }
    Strings.SortedPermutationUnique(sortedNames, listed);
  }

  // ---- The run ----

  /**
   * The run of `show stack` (cmd/show.go:55-203), as a decision: the flags are checked first,
   * then the configuration and the stacks found, duplicates, the filters and the target.
   */
  ghost function RunOutcome(f: Flags, w: World): Outcome {
    if f.stackName == "" && |f.filters| == 0 then Fatal(NeedStackOrFilter)
    else if f.tfVars && f.componentName == "" then Fatal(TfvarsNeedComponent)
    else if w.stacksPath == "" then Fatal(NoStacksPath)
    else
      match w.findStacks(w.stacksPath)
      case Err(e) => Fatal("Error finding stacks: " + e)
      case Ok(stacks) => FoundOutcome(f, w, stacks)
  }

  /** What the run does with the stacks found: reject duplicates, filter, pick the target. */
  ghost function FoundOutcome(f: Flags, w: World, stacks: seq<StackMetadata>): Outcome {
    if |Validation.Duplicates(stacks)| > 0 then DuplicateStacks(Validation.Duplicates(stacks))
    else
      var candidates := if |f.filters| > 0 then Filters.Selected(w.regex, stacks, f.filters) else stacks;
      if |f.filters| > 0 && |candidates| == 0 then NoMatchingStacks
      else
        match Target(f.stackName, candidates)
        case None =>
          Fatal(if f.stackName != "" then "Error: stack with name '" + f.stackName + "' not found" else NoMatchingStack)
        case Some(t) => StackOutcome(f, w, t)
  }

  /** What the run does once it has a target stack. */
  ghost function StackOutcome(f: Flags, w: World, t: StackMetadata): Outcome {
    match w.components(t.filePath)
    case Err(e) => Fatal("Error extracting components: " + e)
    case Ok(components) =>
      if |components| == 0 then NoComponents(t.name)
      else if f.componentName == "" then
        if f.jsonOutput then ComponentsJson(components) else ComponentsTable(components, !f.noColor)
      else
        match FirstNamed(components, ComponentName, f.componentName)
        case None =>
          Fatal("Error: component with name '" + f.componentName + "' not found in stack '" + f.stackName + "'")
        case Some(i) => VarsOutcome(f, w, t, components[i])
  }

  /** What the run does once it has the component. */
  ghost function VarsOutcome(f: Flags, w: World, t: StackMetadata, component: Component): Outcome {
    match ComponentVars(w, t.filePath, component.componentType, component.name)
    case Err(e) => Fatal("Error extracting component variables: " + e)
    case Ok(vars) =>
      if |vars| == 0 then NoVars(f.componentName, f.stackName)
      else if f.tfVars then TerraformVars(vars, Base(t.filePath), f.componentName)
      else if f.jsonOutput then VarsJson(vars)
      else VarsTable(vars, component, !f.noColor)
  }

  /** showStackCmd.Run (cmd/show.go:55-126): validate, find, reject duplicates, filter, pick the target. */
  method Run(f: Flags, w: World) returns (outcome: Outcome)
    ensures outcome == RunOutcome(f, w)
  {
    if f.stackName == "" && |f.filters| == 0 {
      return Fatal(NeedStackOrFilter);
    }
    if f.tfVars && f.componentName == "" {
      return Fatal(TfvarsNeedComponent);
    }
    var stacksPath := w.stacksPath;
    if stacksPath == "" {
      return Fatal(NoStacksPath);
    }
    var found := w.findStacks(stacksPath);
    if found.Err? {
      return Fatal("Error finding stacks: " + found.error);
    }
    var stacks := found.value;
    var duplicates := Validation.FindDuplicateStacks(stacks);
    if |duplicates| > 0 {
      return DuplicateStacks(duplicates);
    }
    if |f.filters| > 0 {
      stacks := Filters.FilterStacks(w.regex, stacks, f.filters);
      if |stacks| == 0 {
        return NoMatchingStacks;
      }
    }
    var target: Option<StackMetadata> := None;
    if f.stackName == "" && |stacks| > 0 {
      target := Some(stacks[0]);
    } else {
      var i := 0;
      while i < |stacks|
        invariant i <= |stacks|
        invariant forall j :: 0 <= j < i ==> stacks[j].name != f.stackName
        invariant target.None?
      {
        if stacks[i].name == f.stackName {
          target := Some(stacks[i]);
          break;
        }
        i := i + 1;
      }
      assert target == Target(f.stackName, stacks);
    }
    if target.None? {
      if f.stackName != "" {
        return Fatal("Error: stack with name '" + f.stackName + "' not found");
      }
      return Fatal(NoMatchingStack);
    }
    outcome := ShowTarget(f, w, target.value);
  }

  /** The rest of the run (cmd/show.go:128-203): list the components, or find one and show its variables. */
  method ShowTarget(f: Flags, w: World, t: StackMetadata) returns (outcome: Outcome)
    ensures outcome == StackOutcome(f, w, t)
  {
    var listed := w.components(t.filePath);
    if listed.Err? {
      return Fatal("Error extracting components: " + listed.error);
    }
    var components := listed.value;
    if |components| == 0 {
      return NoComponents(t.name);
    }
    if f.componentName != "" {
      var found: Option<Component> := None;
      var i := 0;
      while i < |components|
        invariant i <= |components|
        invariant forall j :: 0 <= j < i ==> components[j].name != f.componentName
        invariant found.None?
      {
        if components[i].name == f.componentName {
          found := Some(components[i]);
          break;
        }
        i := i + 1;
      }
      if found.None? {
        return Fatal("Error: component with name '" + f.componentName + "' not found in stack '" + f.stackName + "'");
      }
      assert FirstNamed(components, ComponentName, f.componentName) == Some(i);
      var vars := ExtractComponentVars(w, t.filePath, found.value.componentType, found.value.name);
      if vars.Err? {
        return Fatal("Error extracting component variables: " + vars.error);
      }
      if |vars.value| == 0 {
        return NoVars(f.componentName, f.stackName);
      }
      if f.tfVars {
        return TerraformVars(vars.value, Base(t.filePath), f.componentName);
      }
      if f.jsonOutput {
        return VarsJson(vars.value);
      }
      return VarsTable(vars.value, found.value, !f.noColor);
    }
    if f.jsonOutput {
      return ComponentsJson(components);
    }
    return ComponentsTable(components, !f.noColor);
  }

  // ---- filepath.Base ----

  /** filepath.Base on a slash-separated path: the last element, "." for "", "/" for only slashes. */
  function Base(path: string): string {
    if path == "" then "."
    else
      var last := LastElement(TrimTrailingSlashes(path));
      if last == "" then "/" else last
  }

  function TrimTrailingSlashes(s: string): (r: string)
    ensures |r| <= |s| && r == s[..|r|]
    ensures r == "" || r[|r| - 1] != '/'
  {
    if s != [] && s[|s| - 1] == '/' then TrimTrailingSlashes(s[..|s| - 1]) else s
  }

  /** What follows the last slash. */
  function LastElement(s: string): (r: string)
    ensures |r| <= |s| && r == s[|s| - |r|..]
    ensures '/' !in r
  {
    if s == [] then []
    else if s[|s| - 1] == '/' then []
    else LastElement(s[..|s| - 1]) + [s[|s| - 1]]
  }

  // ---- What the run promises ----

  /** The file name of a stack file under a directory is its base name. */
  lemma {:induction false} BaseOfFileInDirectory(dir: string, name: string)
    requires name != "" && '/' !in name
    ensures Base(dir + "/" + name) == name
  {
    var path := dir + "/" + name;
    assert TrimTrailingSlashes(path) == path by {
      assert path[|path| - 1] == name[|name| - 1];
    }
    LastElementAfterSlash(dir + "/", name);
  }

  lemma {:induction false} LastElementAfterSlash(prefix: string, name: string)
    requires prefix != [] && prefix[|prefix| - 1] == '/' && '/' !in name
    ensures LastElement(prefix + name) == name
    decreases |name|
  {
    if name == [] {
      assert prefix + name == prefix;
    } else {
      var init := name[..|name| - 1];
      assert (prefix + name)[..|prefix + name| - 1] == prefix + init;
      assert (prefix + name)[|prefix + name| - 1] == name[|name| - 1];
      LastElementAfterSlash(prefix, init);
      assert init + [name[|name| - 1]] == name;
    }
  }

  /** A run without stack name and filters, or with --tfvars and no component, fails whatever the world holds. */
  lemma FlagsCheckedFirst(f: Flags, w: World, other: World)
    requires (f.stackName == "" && |f.filters| == 0) || (f.tfVars && f.componentName == "")
    ensures RunOutcome(f, w) == RunOutcome(f, other)
    ensures RunOutcome(f, w) == if f.stackName == "" && |f.filters| == 0 then Fatal(NeedStackOrFilter) else Fatal(TfvarsNeedComponent)
  {
  }

  /** Duplicate names end the run before any filter is tried: the regex engine is never consulted. */
  lemma DuplicatesAbortBeforeFilters(f: Flags, w: World, stacks: seq<StackMetadata>, regex: Filters.RegexMatch)
    requires !(f.stackName == "" && |f.filters| == 0) && !(f.tfVars && f.componentName == "")
    requires w.stacksPath != "" && w.findStacks(w.stacksPath) == Ok(stacks)
    requires exists i, j :: 0 <= i < j < |stacks| && stacks[i].name == stacks[j].name
    ensures RunOutcome(f, w.(regex := regex)) == DuplicateStacks(Validation.Duplicates(stacks))
    ensures |Validation.Duplicates(stacks)| > 0
  {
    var i, j :| 0 <= i < j < |stacks| && stacks[i].name == stacks[j].name;
    RepeatedNameIsDuplicate(stacks, i, j);
  }

  lemma RepeatedNameIsDuplicate(stacks: seq<StackMetadata>, i: nat, j: nat)
    requires i < j < |stacks| && stacks[i].name == stacks[j].name
    ensures stacks[i].name in Validation.Duplicates(stacks)
  {
    var name := stacks[i].name;
    var names := Validation.NameList(stacks);
    assert names == names[..j] + [names[j]] + names[j + 1..];
    assert names[..j] == names[..i] + [names[i]] + names[i + 1..j];
    assert multiset(names)[name] >= 2;
    Validation.DuplicateWhenRepeated(stacks, name);
  }

  /** Filters that leave no stack end the run quietly, before a target is looked for. */
  lemma NoMatchesReturns(f: Flags, w: World, stacks: seq<StackMetadata>)
    requires !(f.tfVars && f.componentName == "")
    requires w.stacksPath != "" && w.findStacks(w.stacksPath) == Ok(stacks)
    requires Validation.Duplicates(stacks) == map[]
    requires |f.filters| > 0 && Filters.Selected(w.regex, stacks, f.filters) == []
    ensures RunOutcome(f, w) == NoMatchingStacks
  {
  }

  /** The run never fails with "no matching stack found": without a stack name there is always a first candidate. */
  lemma NoMatchingStackIsUnreachable(f: Flags, w: World)
    ensures RunOutcome(f, w) != Fatal(NoMatchingStack)
  {
    assert NoMatchingStack[5] == ':';
    if !(f.stackName == "" && |f.filters| == 0) && !(f.tfVars && f.componentName == "") && w.stacksPath != "" {
      match w.findStacks(w.stacksPath) {
        case Err(e) =>
          assert ("Error finding stacks: " + e)[5] == ' ';
        case Ok(stacks) =>
          FoundOutcomeIsNotNoMatching(f, w, stacks);
      }
    }
  }

  lemma FoundOutcomeIsNotNoMatching(f: Flags, w: World, stacks: seq<StackMetadata>)
    requires f.stackName != "" || |f.filters| > 0
    ensures FoundOutcome(f, w, stacks) != Fatal(NoMatchingStack)
  {
    assert NoMatchingStack[7] == 'n';
    var candidates := if |f.filters| > 0 then Filters.Selected(w.regex, stacks, f.filters) else stacks;
    if |Validation.Duplicates(stacks)| == 0 && !(|f.filters| > 0 && |candidates| == 0) {
      match Target(f.stackName, candidates) {
        case None =>
          assert ("Error: stack with name '" + f.stackName + "' not found")[7] == 's';
        case Some(t) =>
          StackOutcomeIsNotNoMatching(f, w, t);
      }
    }
  }

  lemma StackOutcomeIsNotNoMatching(f: Flags, w: World, t: StackMetadata)
    ensures StackOutcome(f, w, t) != Fatal(NoMatchingStack)
  {
    assert NoMatchingStack[5] == ':' && NoMatchingStack[7] == 'n';
    match w.components(t.filePath) {
      case Err(e) =>
        assert ("Error extracting components: " + e)[5] == ' ';
      case Ok(components) =>
        if |components| > 0 && f.componentName != "" {
          match FirstNamed(components, ComponentName, f.componentName) {
            case None =>
              assert ("Error: component with name '" + f.componentName + "' not found in stack '" + f.stackName + "'")[7] == 'c';
            case Some(i) =>
              VarsOutcomeIsNotNoMatching(f, w, t, components[i]);
          }
        }
    }
  }

  lemma VarsOutcomeIsNotNoMatching(f: Flags, w: World, t: StackMetadata, component: Component)
    ensures VarsOutcome(f, w, t, component) != Fatal(NoMatchingStack)
  {
    assert NoMatchingStack[5] == ':';
    match ComponentVars(w, t.filePath, component.componentType, component.name) {
      case Err(e) =>
        assert ("Error extracting component variables: " + e)[5] == ' ';
      case Ok(_) =>
    }
  }

  /** The stack shown carries the requested name when one is given, and always passes every filter. */
  lemma TargetPassesFilters(f: Flags, w: World, stacks: seq<StackMetadata>, t: StackMetadata)
    requires |f.filters| > 0
    requires Target(f.stackName, Filters.Selected(w.regex, stacks, f.filters)) == Some(t)
    ensures Filters.Admits(w.regex, t, f.filters)
    ensures f.stackName != "" ==> t.name == f.stackName
  {
    Filters.SelectedAreAdmitted(w.regex, stacks, f.filters, t);
  }

  /** --tfvars comes before --json and --no-color; --json before --no-color. */
  lemma VarsOutputPrecedence(f: Flags, w: World, t: StackMetadata, component: Component)
    requires ComponentVars(w, t.filePath, component.componentType, component.name).Ok?
    requires |ComponentVars(w, t.filePath, component.componentType, component.name).value| > 0
    ensures var vars := ComponentVars(w, t.filePath, component.componentType, component.name).value;
      && (f.tfVars ==> VarsOutcome(f, w, t, component) == TerraformVars(vars, Base(t.filePath), f.componentName))
      && (!f.tfVars && f.jsonOutput ==> VarsOutcome(f, w, t, component) == VarsJson(vars))
      && (!f.tfVars && !f.jsonOutput ==> VarsOutcome(f, w, t, component) == VarsTable(vars, component, !f.noColor))
  {
  }

  // ---- What extractComponentVars promises ----

  /** Each variable is an entry of the vars map, with its value. */
  lemma SortedVarsAreEntries(vars: map<string, Value>)
    ensures forall i :: 0 <= i < |SortedVars(vars)| ==> SortedVars(vars)[i].name in vars && SortedVars(vars)[i].value == vars[SortedVars(vars)[i].name]
  {
  }

  /** The variables' names are strictly ascending, so no name appears twice. */
  lemma SortedVarsAscending(vars: map<string, Value>)
    ensures forall i, j :: 0 <= i < j < |SortedVars(vars)| ==> Strings.Less(SortedVars(vars)[i].name, SortedVars(vars)[j].name)
  {
    var names := Strings.SortedList(vars.Keys);
    assert forall i :: 0 <= i < |names| ==> SortedVars(vars)[i].name == names[i];
  }

  /** Every key of the vars map has its variable. */
  lemma SortedVarsListEveryKey(vars: map<string, Value>, k: string)
    requires k in vars
    ensures exists i :: 0 <= i < |SortedVars(vars)| && SortedVars(vars)[i] == ComponentVar(k, vars[k])
  {
    var names := Strings.SortedList(vars.Keys);
    var i :| 0 <= i < |names| && names[i] == k;
    assert SortedVars(vars)[i] == ComponentVar(k, vars[k]);
  }

  /** The map reached by following a path of keys, each step a map. */
  function Descend(m: map<string, Value>, path: seq<string>): Option<map<string, Value>>
    decreases |path|
  {
    if path == [] then Some(m)
    else
      match MapAt(m, path[0])
      case None => None
      case Some(inner) => Descend(inner, path[1..])
  }

  /** One step down a path: the map under its first key, then the rest of the path. */
  lemma DescendCons(m: map<string, Value>, key: string, rest: seq<string>)
    ensures Descend(m, [key] + rest) == match MapAt(m, key) case None => None case Some(inner) => Descend(inner, rest)
  {
    assert ([key] + rest)[0] == key && ([key] + rest)[1..] == rest;
  }

  /** The vars are found exactly when every step of spec.components.<type>.<name>.vars is a map. */
  lemma VarsFoundAlongPath(stack: map<string, Value>, componentType: string, componentName: string)
    ensures VarsIn(stack, componentType, componentName).Ok? <==> Descend(stack, VarsPath(componentType, componentName)).Some?
    ensures VarsIn(stack, componentType, componentName).Ok? ==>
      VarsIn(stack, componentType, componentName).value == Descend(stack, VarsPath(componentType, componentName)).value
  {
    var q4 := ["vars"];
    var q3 := [componentName] + q4;
    var q2 := [componentType] + q3;
    var q1 := ["components"] + q2;
    assert VarsPath(componentType, componentName) == ["spec"] + q1;
    DescendCons(stack, "spec", q1);
    match MapAt(stack, "spec") {
      case None =>
      case Some(spec) =>
        DescendCons(spec, "components", q2);
        match MapAt(spec, "components") {
          case None =>
          case Some(components) =>
            DescendCons(components, componentType, q3);
            match MapAt(components, componentType) {
              case None =>
              case Some(typeComponents) =>
                DescendCons(typeComponents, componentName, q4);
                match MapAt(typeComponents, componentName) {
                  case None =>
                  case Some(component) =>
                    DescendCons(component, "vars", []);
                }
            }
        }
    }
  }

  /**
   * The first step that is missing or not a map names the error: with the steps before it all
   * maps and step `level` not one, the vars section fails with that step's message.
   */
  lemma FirstMissingStepNamesError(stack: map<string, Value>, componentType: string, componentName: string, level: nat)
    requires level < 5
    requires Descend(stack, VarsPath(componentType, componentName)[..level]).Some?
    requires MapAt(Descend(stack, VarsPath(componentType, componentName)[..level]).value, VarsPath(componentType, componentName)[level]).None?
    ensures VarsIn(stack, componentType, componentName) == Err(LevelMessage(level, componentType, componentName))
  {
    var path := VarsPath(componentType, componentName);
    var prefix := path[..level];
    assert Descend(stack, []) == Some(stack);
    if level > 0 {
      assert prefix == ["spec"] + prefix[1..];
      DescendCons(stack, "spec", prefix[1..]);
      var spec := MapAt(stack, "spec").value;
      if level > 1 {
        assert prefix[1..] == ["components"] + prefix[2..];
        DescendCons(spec, "components", prefix[2..]);
        var components := MapAt(spec, "components").value;
        if level > 2 {
          assert prefix[2..] == [componentType] + prefix[3..];
          DescendCons(components, componentType, prefix[3..]);
          var typeComponents := MapAt(components, componentType).value;
          if level > 3 {
            assert prefix[3..] == [componentName] + prefix[4..];
            assert prefix[4..] == [];
            DescendCons(typeComponents, componentName, []);
          } else {
            assert prefix[3..] == [];
          }
        } else {
          assert prefix[2..] == [];
        }
      } else {
        assert prefix[1..] == [];
      }
    }
  }

  /** A stack file that cannot be merged fails before anything is unmarshalled. */
  lemma MergeFailureComesFirst(w: World, filePath: string, componentType: string, componentName: string)
    requires YamlParser.MergeYAML(YamlParser.Pkg, w.env, filePath, CatalogDir(w.catalogDir)).Err?
    ensures ComponentVars(w, filePath, componentType, componentName) ==
      Err("failed to merge YAML: " + YamlParser.MergeYAML(YamlParser.Pkg, w.env, filePath, CatalogDir(w.catalogDir)).error)
  {
  }
}
