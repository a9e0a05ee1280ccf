# skunk, modelled in Dafny

skunk is a command-line tool for Atmos-style infrastructure stacks. It finds stack files, filters
them by name and label, and reports duplicate stack names. It parses a stack's YAML, including
anchors, aliases and merge keys that point into a catalog directory. It shows a stack's components
and a component's variables as a table, as JSON or as Terraform variables.

This project models the core of that behaviour and proves properties of the model:

- `merge_keys.dfy` (`MergeKeys`) is the merge-key normaliser of `internal/yaml-parser`. It is a
  two-pass, line-by-line rewrite. It groups every `<<:` line by its indentation and the path of
  section names above it, and writes one combined line `<<: [<<: *a, <<: *b]` in place of each
  group of two or more. The method keeps the source's loops, path stack and maps. It is proved
  equal to a specification (`Preprocess`), and the properties are proved about that specification.
- `dir_walk.dfy` (`DirWalk`) is `FindSubdirectories`, run over a directory tree given as a value.
- `yaml_parser.dfy` (`YamlParser`) holds `Decode`, `ParseYAMLWithAnchors`, `ParseStack` and
  `MergeYAML` for both packages. The two differ only in their preprocessor: the
  `internal/yaml-parser` one is the normaliser, and the `pkg/yamlparser` one is the identity. The
  YAML library and the file system are parameters (`Env`).
- `filters.dfy` (`Filters`) is the stack filter language. It covers `/re/`, `name=`, `name!=`,
  `name~=`, `name!~=`, `k!=v`, `k=v` and naked wildcards, combined with AND. The regular-expression
  engine is a parameter. `MatchWildcard` builds its regular expression in a loop, as the source
  does. The fragment of regular-expression syntax it writes is read back, and the result is proved
  to be the direct `*`/`?` glob.
- `validation.dfy` (`Validation`) is `FindDuplicateStacks`.
- `table_render.dfy` (`TableRender`) covers the table style's width arithmetic and the cell texts
  of values (`formatValue`, `formatMap`, `formatSlice`). It also covers the key/value rows.
- `colorize.dfy` (`Colorize`) covers the colour decision (`NO_COLOR`, `CLICOLOR_FORCE`, terminal),
  the colour of each kind of value, and the coloured rows. Drawing the colour is a parameter
  (`Paint`).
- `show_format.dfy` (`ShowFormat`) is the two value formatters of `cmd/show.go`: the display
  notation (`formatValue`) and the Terraform notation (`formatTerraformValue`).
- `show_stack.dfy` (`ShowStack`) is the `show stack` command. The run is a method proved equal to
  an outcome function. The outcome is a fatal message, an early return, or the data a printer
  would print. The module also covers `extractComponentVars` (the walk down
  `spec.components.<type>.<name>.vars`, then the sort by name) and `filepath.Base`.
- `strings.dfy`, `maps.dfy`, `values.dfy`, `wrappers.dfy` and `stack_finder.dfy` hold the shared
  pieces:
  - Go's string functions;
  - byte-wise string order;
  - `sort.Strings` and `sort.Slice` as an insertion sort;
  - Go's unordered map range, as any duplicate-free key order;
  - the decoded YAML value;
  - `Result`/`Option`;
  - the stack record.

Some behaviour of the code is easy to get wrong from its description. The model follows the code:

- The normaliser groups merge lines over the whole document, not only neighbouring lines.
  - A shallower line pops names but does not push its own.
  - Lines at indentation 0 never enter the path.
  - So merge lines of two top-level sections at the same depth share a group, and they are
    combined into the first one's line.
- `ParseStack` passes the catalog directory twice: once itself, and once as the first directory
  the walk reports (`YamlParser.CatalogListedTwice`).
- A filter whose text starts with `name` but is not one of the four name forms is a wildcard on
  the stack name. So `namespace=prod` never looks at the labels
  (`Filters.NamePrefixedKeyIsWildcard`).
- An invalid regular expression makes `name~=` and `/re/` admit the stack. It makes `name!~=`
  reject every stack (`Filters.NameNotRegexNegates`).
- With a width of 5 or less, the default style leaves the second column a width of zero or less
  (`TableRender.DefaultSecondColumn`).
- The Terraform notation does not escape quotes inside strings
  (`ShowFormat.TerraformQuotesAreNotEscaped`).
- The display notation sorts map entries by their `k: v` text, not by key. So key `a!` is listed
  before key `a` (`ShowFormat.DisplayOrderIsNotKeyOrder`).
- The walk lists the catalog root as it was given, but names everything below it with
  `filepath.Join`, which cleans the path. Below `./catalog` the first child is `catalog/sub`, and
  below `catalog/` it is `catalog/sub` (`DirWalk.JoinDropsLeadingDot`,
  `DirWalk.JoinDropsTrailingSlash`).
- The command's "no matching stack found" error cannot happen
  (`ShowStack.NoMatchingStackIsUnreachable`).
- The "component not found" message and the "no variables" notice name the `--stackName` flag,
  not the stack that was chosen. So the name is empty when a filter chose the stack.

## Model

| member | source | states |
|---|---|---|
| MergeKeys.Advance | internal/yaml-parser/parser.go:86-107 | A shallower line pops (previous − indent)/2 names, or empties a path that is too short. A deeper ordinary line pushes the text before its first `:`. A deeper merge line, or one at the same depth, leaves the path alone. The line's indentation becomes the previous indentation. |
| MergeKeys.TrackBlank | internal/yaml-parser/parser.go:81-84 | A blank or all-space line does not move the path or the previous indentation. |
| MergeKeys.EntryOfTracked | internal/yaml-parser/parser.go:109-114 | A line whose trimmed text starts with `<<:` is collected as that text, under the key (indentation, path joined with `.`). Other lines are not collected. |
| MergeKeys.EntryInOwnGroup | internal/yaml-parser/parser.go:110-113 | Every merge line's text is in its own group. |
| MergeKeys.EmitMergeLine | internal/yaml-parser/parser.go:150-165 | For a group of two or more, the first member is replaced by the combined line and later members are dropped. A group of one keeps its line. |
| MergeKeys.CombinedLineIsMergeLine | internal/yaml-parser/parser.go:157-158 | The combined line is itself a merge line, at the group's indentation. |
| MergeKeys.RewriteWithoutRepeats | internal/yaml-parser/parser.go:155-163 | When no group has two members, the second pass copies every line unchanged. |
| MergeKeys.PreprocessWithoutRepeats | internal/yaml-parser/parser.go:65-172 | When no group has two members, the normalised text equals the input text. |
| MergeKeys.PreprocessWithoutMergeLines | internal/yaml-parser/parser.go:65-172 | A text without merge lines is returned byte for byte: the split on `\n` and the join undo each other. |
| MergeKeys.RewriteKeepsOrdinaryLines | internal/yaml-parser/parser.go:124-168 | Blank lines and lines that are not merge lines come out in the same order, none removed or added. |
| MergeKeys.OneFirstMemberPerGroup | internal/yaml-parser/parser.go:150-164 | Among the lines read so far, a group has exactly one first member once any of its lines has been read, and none before. |
| MergeKeys.EmitLength | internal/yaml-parser/parser.go:150-168 | The second pass drops a line exactly when it is a merge line after its group's first member. Every other line gives one line. |
| MergeKeys.RewriteLength | internal/yaml-parser/parser.go:124-171 | The output has as many lines as the input, less the sum of \|g\| − 1 over the groups g of two or more lines. |
| MergeKeys.EmitMergeLines | internal/yaml-parser/parser.go:150-168 | The merge lines written for one line: its group's line at the group's first member, nothing elsewhere. |
| MergeKeys.RewriteMergeLines | internal/yaml-parser/parser.go:124-171 | The output's merge lines are one line per group, in the order of the groups' first members. That line is the combined line for a group of two or more and the original line for a group of one. No other member of a combined group is written. |
| MergeKeys.TrackLine | internal/yaml-parser/parser.go:86-107 | The source's path-tracking code computes `Advance` and the trimmed line. |
| MergeKeys.CollectLine | internal/yaml-parser/parser.go:80-114 | One step of the first pass adds the line's entry to its group and moves the tracker one line on. |
| MergeKeys.CollectMergeKeys | internal/yaml-parser/parser.go:75-115 | After the first pass, each key's list is exactly its group's members, in line order. |
| MergeKeys.WriteMergeLine | internal/yaml-parser/parser.go:150-165 | The second pass's three cases write what `Emit` says, and mark the group as processed. |
| MergeKeys.ReconstructLine | internal/yaml-parser/parser.go:124-168 | One step of the second pass writes the line's output and moves the tracker one line on. |
| MergeKeys.ReconstructLines | internal/yaml-parser/parser.go:117-169 | The second pass writes `Rewrite` of the lines. |
| MergeKeys.PreprocessMultipleMergeKeys | internal/yaml-parser/parser.go:65-172 | The source's two-pass method computes `Preprocess` of its input. |
| DirWalk.WalkFindsAllDirs | internal/yaml-parser/parser.go:17-25 | Whatever way children are named, a walk succeeds exactly when every directory in the tree can be read. It then lists every directory path, in pre-order, and no file. |
| DirWalk.WalkAllFindsAllDirs | internal/yaml-parser/parser.go:17-25 | The same for the entries of one directory, walked one after the other. |
| DirWalk.RootFirst | internal/yaml-parser/parser.go:17-23 | A successful walk of a directory lists the root first. |
| DirWalk.FileRootHasNoDirs | internal/yaml-parser/parser.go:21-24 | A walk of a plain file finds no directories. |
| DirWalk.ErrorNamesRoot | internal/yaml-parser/parser.go:27-29 | A failed walk's error starts with `error walking directory <root>: `. |
| DirWalk.PrefixErrorStops | internal/yaml-parser/parser.go:17-20 | The first error ends the walk: later entries change nothing. |
| DirWalk.Visit | internal/yaml-parser/parser.go:17-25 | The callback's appends give the walk's directories after those already found, or the walk's error. |
| DirWalk.FindSubdirectories | internal/yaml-parser/parser.go:14-32 | The method computes `Subdirectories`: the directories, each child named by `filepath.Join` of its parent's path and its name, or the error put in context. |
| DirWalk.SubdirectoriesFindsAllDirs | internal/yaml-parser/parser.go:14-32 | `FindSubdirectories` succeeds exactly when every directory of the tree can be read. It then lists every directory, each child named by `filepath.Join` of its parent's path and its name. |
| DirWalk.VisitEntries | internal/yaml-parser/parser.go:17-25 | Walking a directory's entries in order appends their directories to those already found, or stops at the first error. |
| DirWalk.VisitChild | internal/yaml-parser/parser.go:17-25 | One more entry of a directory adds the directories below it, or stops the walk with its error. |
| DirWalk.CleanOfPlain | internal/yaml-parser/parser.go:17 | A relative path of plain elements (not empty, not `.` or `..`, no slash) is already clean. |
| DirWalk.JoinBelowCleanDir | internal/yaml-parser/parser.go:17 | Below a clean relative directory, a child's path is the directory, a slash and the child's name. |
| DirWalk.JoinDropsLeadingDot | internal/yaml-parser/parser.go:17 | Below `./dir`, a child's path loses the leading `./`: it is `dir/name`. |
| DirWalk.JoinDropsTrailingSlash | internal/yaml-parser/parser.go:17 | Below `dir/`, a child's path has one slash: it is `dir/name`. |
| DirWalk.JoinBelowRoot | internal/yaml-parser/parser.go:17 | Below `/`, a child's path is `/name`. |
| YamlParser.PkgPreprocess | pkg/yamlparser/parser.go:65-69 | The `pkg/yamlparser` preprocessor returns its input unchanged. |
| YamlParser.DecodeAfterPreprocess | pkg/yamlparser/parser.go:49-61 | The decoder is given the preprocessed text. Its failure comes back as `failed to decode YAML: <error>` with no document, and its success is returned as it is. |
| YamlParser.PkgDecodesTextAsRead | pkg/yamlparser/parser.go:72-90 | The `pkg` variant decodes the file's text exactly as read. A decode error is put in context twice. |
| YamlParser.InternalDecodesNormalisedText | internal/yaml-parser/parser.go:175-193 | For a file without merge lines, the two variants parse the same way. |
| YamlParser.UnreadableFile | pkg/yamlparser/parser.go:74-77 | A file that cannot be read fails with `failed to read YAML file <name>: <error>`, before any decoding. |
| YamlParser.ReferenceDirs | pkg/yamlparser/parser.go:100-101 | The anchor directories are the catalog directory, then the walk's directories in order. |
| YamlParser.ParseStackAnchorDirs | pkg/yamlparser/parser.go:93-110 | ParseStack parses with those anchor directories, and puts a parse failure in context. |
| YamlParser.ParseStackWalkFails | pkg/yamlparser/parser.go:95-98 | A walk failure ends ParseStack with `failed to find subdirectories: <error>`, before any parsing. |
| YamlParser.CatalogListedTwice | internal/yaml-parser/parser.go:198-204 | For a catalog that is a directory, the anchor list starts with the catalog directory twice. |
| YamlParser.MergeYAMLPassesParseErrors | pkg/yamlparser/parser.go:113-127 | MergeYAML returns ParseStack's error unchanged. Otherwise it returns the marshalled document, or the marshal error in context. |
| Filters.MatchWildcard | internal/utils/filters.go:145-170 | Building the anchored regular expression and matching it is the glob match: `*` is any run, `?` is one character, everything else is literal. |
| Filters.ReadTranslate | internal/utils/filters.go:148-160 | The escaped text reads back as the pattern's own atoms, so every special character stays literal. |
| Filters.WildcardRegexReadsBack | internal/utils/filters.go:145-169 | The anchored expression matches a name exactly when the glob does. |
| Filters.LiteralPatternMatchesItself | internal/utils/filters.go:154-158 | A pattern without `*` and `?` matches exactly the name equal to it. |
| Filters.StarMatchesAnyLine | internal/utils/filters.go:150-151 | `*` alone matches every name without a newline, including the empty one. |
| Filters.QuestionMatchesOneCharacter | internal/utils/filters.go:152-153 | `?` alone matches exactly the one-character names other than a newline. |
| Filters.PrefixStar | internal/utils/filters.go:148-161 | `p*` for a literal `p` matches the names that start with `p` and have no newline after it. |
| Filters.ApplyFilter | internal/utils/filters.go:50-88 | The method decides each filter as `FilterHolds` says, trying the filter kinds in the source's order. |
| Filters.ShouldIncludeStack | internal/utils/filters.go:34-47 | The loop with its early stop admits a stack exactly when every filter holds for it. |
| Filters.FilterStacks | internal/utils/filters.go:21-31 | The loop keeps exactly `Selected`: the admitted stacks, in input order. |
| Filters.SelectedAreAdmitted | internal/utils/filters.go:21-31 | A stack is kept exactly when it is an input stack that every filter admits. |
| Filters.SelectedAppend | internal/utils/filters.go:24-28 | Selection keeps input order: selecting from `a + b` selects from `a`, then from `b`. |
| Filters.NoFiltersKeepAll | internal/utils/filters.go:36-46 | With no filters, every stack is kept. |
| Filters.AdmitsBoth | internal/utils/filters.go:39-44 | Filters combine with AND. |
| Filters.FiltersConjoin | internal/utils/filters.go:21-47 | Filtering by `f + g` is filtering by `f`, then by `g`. |
| Filters.NameNotEqualsNegates | internal/utils/filters.go:57-65 | `name!=p` holds exactly when `name=p` does not. |
| Filters.NameNotRegexNegates | internal/utils/filters.go:67-75 | `name!~=p` holds exactly when `name~=p` does not. An invalid expression admits under `name~=` and rejects under `name!~=`. |
| Filters.InvalidSlashRegexAdmits | internal/utils/filters.go:96-104 | A `/re/` filter whose expression is invalid admits the stack. |
| Filters.NotNameFilter | internal/utils/filters.go:57-75 | A filter that does not start with `name` is none of the four name forms. |
| Filters.LabelEqualsFilter | internal/utils/filters.go:118-128 | `k=v` holds exactly when the trimmed key is a label whose value is the trimmed value. |
| Filters.LabelNotEqualsFilter | internal/utils/filters.go:131-141 | `k!=v` holds exactly when the trimmed key is no label, or a label with another value. |
| Filters.KeyKeepsNamePrefixOff | internal/utils/filters.go:78-83 | A key that does not start with `name` gives a filter that does not either, so the label branches are reached. |
| Filters.LabelFiltersComplement | internal/utils/filters.go:118-141 | `k!=v` is the negation of `k=v`. |
| Filters.NamePrefixedKeyIsWildcard | internal/utils/filters.go:78-87 | A label filter whose key starts with `name` (such as `namespace=x`) is a wildcard on the stack name. |
| Validation.FindDuplicateStacks | internal/utils/validation.go:8-26 | The two loops compute `Duplicates`: each name carried more than once, with its stacks' paths. |
| Validation.NameToPathStep | internal/utils/validation.go:13-15 | One more stack adds its path at the end of its name's list and changes no other list. |
| Validation.DuplicateWhenRepeated | internal/utils/validation.go:13-24 | A name is reported exactly when two or more stacks carry it, with one path per such stack. |
| Validation.PathsCountStacks | internal/utils/validation.go:13-15 | A name's list has one path for each stack with that name. |
| Validation.DistinctNamesNoDuplicates | internal/utils/validation.go:10-25 | Stacks with distinct names have no duplicates. |
| Validation.PathsInStackOrder | internal/utils/validation.go:13-15 | The paths keep the stacks' order: they split as the stacks split. |
| Validation.PathsBelongToName | internal/utils/validation.go:13-22 | Every reported path is the path of a stack carrying that name. |
| Validation.NameToPathHoldsEveryStack | internal/utils/validation.go:13-15 | Over distinct names that include every stack's name, the first loop's lists hold exactly one path per stack. |
| Validation.DuplicatePathsBounded | internal/utils/validation.go:17-24 | Every reported list holds at least two paths. Over any distinct names, the reported lists together hold at most one path per stack. |
| Validation.PathsUnderBound | internal/utils/validation.go:13-15 | Each stack is counted under at most one of a set of distinct names, and under exactly one when its name is among them. |
| TableRender.MaxWidth | internal/table-render/table.go:24-27 | The maximum width is the configured width when it is positive, else 80. |
| TableRender.FirstColumnWidth | internal/table-render/table.go:30 | The first column is two fifths of the total, rounded down. |
| TableRender.DefaultTableStyle | internal/table-render/table.go:22-39 | The default style has the maximum width, the first column at two fifths of it, colours 99 and 245, and no title. |
| TableRender.DefaultSecondColumn | internal/table-render/table.go:71 | The default style's second column is positive exactly when the width is at least 6. |
| TableRender.RenderTable | internal/table-render/table.go:42-92 | A width over the maximum is clamped, with the first column recomputed. Zero widths and empty colours take their defaults. The second column is width − first − 3, and each row keeps its first two cells. |
| TableRender.FormatValue | internal/table-render/table.go:169-186 | The cell text is null, true/false, the string itself, the decimal integer, or the map or list text. |
| TableRender.FormatMap | internal/table-render/table.go:189-211 | `{}` for an empty map. Otherwise `{ k: v, … }` with the keys ascending and each value's own text. |
| TableRender.AppendEntry | internal/table-render/table.go:203-208 | Each step appends the next key's `k: v` entry. |
| TableRender.FormatSlice | internal/table-render/table.go:214-229 | `[]` for an empty list. Otherwise `[ a, b ]` with the items in order. |
| TableRender.FormatKeyValueData | internal/table-render/table.go:147-166 | The rows are `KeyValueRows`: one `[key, text]` row per key, keys ascending. |
| TableRender.FormatRows | internal/table-render/table.go:159-163 | The loop gives one row per key, in the order of the keys. |
| TableRender.KeyValueRowsAreEntries | internal/table-render/table.go:159-163 | Every row has two cells: a key of the data and its value's text. |
| TableRender.KeyValueRowsAscending | internal/table-render/table.go:150-156 | The rows' keys are strictly ascending. |
| TableRender.KeyValueRowsListEveryKey | internal/table-render/table.go:150-163 | Every key of the data has a row. |
| Colorize.DefaultColorScheme | internal/table-render/colorize.go:24-34 | The default colours: strings 149, numbers 170, true 76, false 203, null 245, maps 105, lists 39. |
| Colorize.ShouldUseColor | internal/table-render/colorize.go:37-53 | A non-empty NO_COLOR turns colour off. Otherwise a non-empty CLICOLOR_FORCE turns it on. Otherwise the terminal decides. |
| Colorize.NoColorWins | internal/table-render/colorize.go:41-43 | NO_COLOR wins over CLICOLOR_FORCE and over a terminal. |
| Colorize.FormatValueWithColor | internal/table-render/colorize.go:56-113 | The cell is the table's text of the value, painted in its kind's colour when colour is on. Other values are never painted. |
| Colorize.WithoutColorIsTableText | internal/table-render/colorize.go:60-79 | Without colour, a cell is exactly the plain table's cell. |
| Colorize.StrippedCellIsTableText | internal/table-render/colorize.go:82-112 | With colour, removing the colour codes gives the plain cell back. |
| Colorize.DefaultSchemeTellsKindsApart | internal/table-render/colorize.go:24-34 | Under the default scheme, two values share a colour exactly when they are of the same kind, and only other values have none. |
| Colorize.DefaultNullIsTableTextColor | internal/table-render/colorize.go:30 | The default null colour is the table's text colour. |
| Colorize.FormatKeyValueDataWithColor | internal/table-render/colorize.go:116-135 | The rows are one `[key, coloured text]` row per key, keys ascending. |
| Colorize.FormatColoredRows | internal/table-render/colorize.go:128-132 | The loop gives one coloured row per key, in the order of the keys. |
| Colorize.WithoutColorIsTableRows | internal/table-render/colorize.go:116-135 | Without colour, the coloured rows are the plain table's rows. |
| Colorize.KeysUnchangedByColor | internal/table-render/colorize.go:120-131 | The key column is the same with or without colour. |
| ShowFormat.FormatValue | cmd/show.go:502-558 | The display text: null, the string unquoted, `{ k: v, … }` sorted by the pair text, `[ a, b ]`, `{}` and `[]` when empty. |
| ShowFormat.FormatTerraformValue | cmd/show.go:591-647 | The Terraform text: strings in quotes, `{\n  k = v\n}` sorted by the pair text, `[a, b]`. |
| ShowFormat.CollectPairs | cmd/show.go:516-522 | Whatever order the map range takes, the pairs collected are the map's pairs, one per key. |
| ShowFormat.SortPairs | cmd/show.go:524 | Sorting the collected pairs gives the one sorted list of the map's pairs. |
| ShowFormat.CollectItems | cmd/show.go:533-537 | The items' texts, in order. |
| ShowFormat.PairsAnyOrder | cmd/show.go:517-522 | Any two duplicate-free orders of the keys give the same pairs, up to order. |
| ShowFormat.MapPairsSorted | cmd/show.go:524 | There is one pair per key, and they are in ascending order. |
| ShowFormat.EveryEntryHasItsPair | cmd/show.go:517-522 | Every entry's `k: v` pair is listed. |
| ShowFormat.EveryPairIsAnEntry | cmd/show.go:517-522 | Every listed pair is some entry's pair. |
| ShowFormat.TerraformScalarsAsDisplayed | cmd/show.go:629-637 | On a scalar, the Terraform text is the display text, in quotes for a string. |
| ShowFormat.TerraformQuotesAreNotEscaped | cmd/show.go:629-631 | A quote inside a string is written as it is. |
| ShowFormat.DisplayOrderIsNotKeyOrder | cmd/show.go:516-525 | When key `a` is a proper prefix of key `b`, and `b` continues with a character below `:`, then `a` sorts first as a key, but `b`'s pair is listed before `a`'s. |
| ShowFormat.PrefixKeyPairSortsFirst | cmd/show.go:519-524 | In that case `b`'s pair text is smaller than `a`'s. |
| ShowStack.FirstNamed | cmd/show.go:112-117 | The index of the first element with the name, or none exactly when no element has it. The stack search and the component search (cmd/show.go:142-148) both use it. |
| ShowStack.Target | cmd/show.go:103-118 | With no stack name, the first candidate. With a name, the first candidate of exactly that name, or none exactly when no candidate has it. |
| ShowStack.Run | cmd/show.go:55-126 | The method ends in `RunOutcome`, the decision sequence: flags, stacksPath, stack search, duplicates, filters, target. |
| ShowStack.ShowTarget | cmd/show.go:128-203 | The rest of the run ends in `StackOutcome`: list the components, or find one and output its variables. |
| ShowStack.ExtractComponentVars | cmd/show.go:250-311 | The result is `ComponentVars`: the walk's error, or one variable per vars key, sorted by name. |
| ShowStack.SortingGivesSortedVars | cmd/show.go:297-308 | Whatever order the map range gives, sorting by name gives the same list. |
| ShowStack.SortedVarsAreEntries | cmd/show.go:297-302 | Every variable is an entry of the vars map, with its value. |
| ShowStack.SortedVarsAscending | cmd/show.go:305-308 | The variables' names are strictly ascending. |
| ShowStack.SortedVarsListEveryKey | cmd/show.go:297-302 | Every key of the vars map has its variable. |
| ShowStack.VarsFoundAlongPath | cmd/show.go:271-294 | The vars are found exactly when every step of `spec.components.<type>.<name>.vars` is a map, and they are the map at its end. |
| ShowStack.FirstMissingStepNamesError | cmd/show.go:271-294 | The first step that is missing or not a map gives that step's error message. |
| ShowStack.MergeFailureComesFirst | cmd/show.go:259-262 | A stack that cannot be merged fails with `failed to merge YAML: <error>`. |
| ShowStack.FlagsCheckedFirst | cmd/show.go:59-66 | No stack name and no filter, or `--tfvars` without `--component`, fail before anything is looked up, whatever the world holds. |
| ShowStack.DuplicatesAbortBeforeFilters | cmd/show.go:80-92 | Two stacks of one name end the run with the duplicates before any filter is tried, whatever the regex engine does. |
| ShowStack.NoMatchesReturns | cmd/show.go:95-101 | Filters that leave no stack end the run before a target is sought. |
| ShowStack.NoMatchingStackIsUnreachable | cmd/show.go:120-126 | The run never ends in `Error: no matching stack found`. |
| ShowStack.TargetPassesFilters | cmd/show.go:94-118 | The stack shown passes every filter, and carries the requested name when one is given. |
| ShowStack.VarsOutputPrecedence | cmd/show.go:165-185 | `--tfvars` comes before `--json`, and `--json` before `--no-color`. |
| ShowStack.BaseOfFileInDirectory | cmd/show.go:167 | The base name of `dir/name` is `name`. |

## Left out

- File-system access (`os.ReadFile`, `filepath.WalkDir`) is not modelled. The file contents and the directory tree are inputs.
- The go-yaml decoder, `yaml.Marshal` and `yaml.Unmarshal` are inputs of type `Env` and `World`. This covers cross-file alias resolution and the override semantics of merge keys.
- The regular-expression engine (`regexp.MatchString`) is an input for `/re/` and `name~=`. `MatchWildcard` is modelled only on the fragment of the syntax it writes.
- Filters.MatchWildcard: does not model Go's byte-to-string conversion of non-ASCII pattern bytes. The model works on characters.
- Floating-point formatting (`%v` of a float) is not modelled: a float carries the text Go would print.
- JSON marshalling is not modelled. A value of another Go type carries its `%v` text and, optionally, its JSON text.
- Drawing is not modelled. This covers lipgloss styles, bubbles tables, tabwriter, ANSI codes, the `print*` and `output*` functions of `cmd/show.go`, and `RenderTable` beyond its widths and cells. Colour painting is the `Paint` input.
- `extractComponents` is not modelled, because its order comes from an unordered map range. The component list is an input.
- Logging, `logger.Log.Fatalf` and `os.Exit` become `Outcome` values. Nothing is printed.
- viper and cobra are not modelled. Configuration and flags are inputs.
- Go's fixed-width integers are not modelled. Integers are unbounded, and widths are never near the limit.
- Only string map keys are modelled. YAML keys of other types do not occur in stack files.
- Stack discovery (`internal/stack-finder`) is not modelled. The stacks found are an input.
- `cmd/list.go` is not part of this model.
- The tests of `cmd/show.go` are not modelled, because they call functions that the source does not define.
- The tests of `pkg/yamlparser` are not modelled, because they expect a rewrite that its identity preprocessor does not perform.
