# ApprovalTestsExtensions, modelled in Dafny

ApprovalTestsExtensions is a helper layer over the ApprovalTests snapshot
library. An `ExplicitApprover` handles the test-side work around a
snapshot comparison:

- it names the snapshot after the test file, the test method and an
  optional test case or scenario;
- it refuses to verify twice under the same name;
- it scrubs volatile content out of the text with these scrubbers:
  - regex placeholders (`PatternScrubber`),
  - JSONPath masking (`JsonPathScrubber`),
  - and any composition of scrubbers (`ComposedScrubber`);
- it formats JSON diffs, optionally with keys sorted
  (`AlphabeticallySortedJsonDiffFormatter`);
- it chooses how a mismatch is reported:
  - an inline text diff for build servers (`EnhancedInlineDiffReporter`,
    behind `BuildServerReporter`),
  - a diff tool picked from the IDE that runs the tests
    (`ContextAwareDiffToolReporter`),
  - or automatic approval.

The model has one module per source file or concern:

| file | module | models |
|---|---|---|
| base.dfy | `Base` | `Option`, `Result`, and the exceptions as `Error` values |
| text.dfy | `Text` | string operations the code calls: `IsNullOrWhiteSpace`, `Replace`, `ToLower`, number printing, ordinal order |
| naming.dfy | `Naming` | `ExplicitNamer` and the name built in the approver's constructor |
| pattern_scrubber.dfy | `PatternScrubbing` | `PatternScrubber` |
| composed_scrubber.dfy | `Composition` | `ComposedScrubber` |
| json.dfy | `JsonTree` | the `JToken` tree, node addresses, reading and replacing a node |
| json_path_scrubber.dfy | `JsonPathScrubbing` | `JsonPathScrubber` |
| sorted_diff_formatter.dfy | `SortedDiffFormatting` | `AlphabeticallySortedJsonDiffFormatter` and `DefaultJsonDiffFormatter` |
| inline_diff.dfy | `InlineDiff` | `EnhancedInlineDiffReporter` and `ContentDifferentThanExpectedException` |
| reporters.dfy | `Reporters` | `ContextAwareDiffToolReporter`, both `BuildServerReporter` files, and the default reporter chain |
| approver.dfy | `Approving` | `ExplicitApprover` |

Exceptions become `Result` values:

| exception | `Error` value |
|---|---|
| `SnapshotOverriddenException` | `SnapshotOverridden(name)` |
| JSON reader failure | `ParseError` |
| `JsonException` from `SelectTokens` for a malformed JSONPath | `PathError(path)` |
| `InvalidOperationException` | `InvalidOperation(message)` |
| `ContentDifferentThanExpectedException` | `ContentDifferent(...)` |

Foreign code is passed in as parameters:

| foreign code | parameter |
|---|---|
| regex engine | a function from a text to ordered, non-overlapping match spans |
| JSON parser | `Parser` |
| JSON printer | `Printer` |
| JSONPath engine | `Selector`, which gives the addresses of the selected nodes, or none for a path it rejects |
| JsonDiffPatch | `Differ` |
| DiffPlex line diff | a sequence of `DiffPiece`s |
| running processes | a `Process` value |
| operating system | a flag |
| environment variables | `Option<string>` values |
| build-server detector | a function |
| object serializer | a function |
| `File.ReadAllText` | a function |

The static configuration of `ExplicitApprover` is also passed in:

- `UseAutoApprover` goes to the constructor, which is where it is read.
- The static `Scrubber` goes to each verification, which is where it is read.

Four behaviours of the code that are easy to misread:

- **Masking a selected object.** `JsonPathScrubber` replaces a selected
  object inside its parent. When the selected object is the root,
  `JToken.Replace` throws, because the root has no parent. That case is
  modelled as `Err(InvalidOperation(...))`, not excluded by a
  precondition.
- **Making line endings visible.** `MakeWhitespacesVisible` replaces every
  terminator of the kind the text ends with, wherever it occurs in the
  text.
- **Failure message of the inline reporter.** The message names both files
  with their full paths.
- **When static settings are read.** `ExplicitApprover` reads the static
  scrubber and the serializer at each verification. Only `UseAutoApprover`
  and the reporter factory are read by the constructor.

## Model

| member | source | states |
|---|---|---|
| Naming.AdjustScenarioName | src/ApprovalTestsExtensions/ExplicitNamer.cs:21-27 | the result has the input's length; every space, `\` and `/` becomes `_` and every other character stays in place; no unsafe character is left |
| Naming.ForScenario | src/ApprovalTestsExtensions/ExplicitNamer.cs:16-19 | the new namer keeps the source path; its name is the old name, then `.ForScenario.`, then the adjusted scenario |
| Naming.AdjustIdempotent | src/ApprovalTestsExtensions/ExplicitNamer.cs:21-27 | adjusting an adjusted scenario name changes nothing |
| Naming.ScenarioNamesCollide | src/ApprovalTestsExtensions/ExplicitNamer.cs:16-27 | two scenarios give the same namer if and only if their adjusted names are equal |
| Naming.ScenarioNameDiffersFromBase | src/ApprovalTestsExtensions/ExplicitNamer.cs:18 | a scenario name is never the approver's own name |
| Naming.ScenarioCollisionExample | src/ApprovalTestsExtensions/ExplicitNamer.cs:18-26 | "a b" and "a_b" name the same snapshot |
| Naming.AdjustExample | src/ApprovalTestsExtensions/ExplicitNamer.cs:23-26 | a space, a slash and a back slash each become `_`; "a.b" is kept as it is |
| Naming.BaseName | src/ApprovalTestsExtensions/ExplicitApprover.cs:54 | `{class}.{method}` when the test case is absent or blank, otherwise `{class}.{method}.{testCase}` |
| Naming.TestCaseExtendsBaseName | src/ApprovalTestsExtensions/ExplicitApprover.cs:54 | a test case appends `.{testCase}` to the plain name; two non-blank cases give equal names if and only if they are equal |
| Naming.LastSeparator | src/ApprovalTestsExtensions/ExplicitApprover.cs:52-53 | the position of the last directory separator, with none after it; none when the path has no separator |
| Naming.LastDot | src/ApprovalTestsExtensions/ExplicitApprover.cs:52 | the position of the last dot, with none after it; none when there is no dot |
| Naming.FileName | src/ApprovalTestsExtensions/ExplicitApprover.cs:52 | the file name is a suffix of the path with no directory separator in it, preceded by a separator unless it is the whole path |
| Naming.FileNameWithoutExtension | src/ApprovalTestsExtensions/ExplicitApprover.cs:52 | the class name is the file name up to its last dot, followed in the file name by that dot and dot-free text; or the whole file name when it has no dot; it holds no directory separator |
| Naming.DirectoryName | src/ApprovalTestsExtensions/ExplicitApprover.cs:53 | the directory is the prefix of the path before its last directory separator, so a separator follows it and none comes later; a path without separators gives "" |
| Naming.ApproverNamer | src/ApprovalTestsExtensions/ExplicitApprover.cs:52-54 | the namer's source path is the test file's directory; its name is the base name of the file name without extension and the method |
| Naming.PathExample | src/ApprovalTestsExtensions/ExplicitApprover.cs:52-53 | the test file "/t/A.cs" lies in "/t", and its name without extension is "A" |
| Naming.ApproverNamerExample | src/ApprovalTestsExtensions/ExplicitApprover.cs:52-54 | "/t/A.cs" and "M" give "A.M" in "/t"; a blank test case is ignored; a test case "B" gives "A.M.B" |
| PatternScrubbing.PlaceholderInjective | src/ApprovalTestsExtensions/Scrubbers/PatternScrubber.cs:32 | two placeholders of one prefix are equal if and only if their numbers are |
| PatternScrubbing.FirstSeen | src/ApprovalTestsExtensions/Scrubbers/PatternScrubber.cs:26-33 | the distinct matched texts in order of first appearance: the same set of texts as the matches, and no more of them than there are matches |
| PatternScrubbing.FirstSeenPrefix | src/ApprovalTestsExtensions/Scrubbers/PatternScrubber.cs:26-33 | the distinct texts of a prefix of the matches are a prefix of the distinct texts of all of them |
| PatternScrubbing.Placeholders | src/ApprovalTestsExtensions/Scrubbers/PatternScrubber.cs:29-34 | one placeholder per match |
| PatternScrubbing.NewTextGetsNextNumber | src/ApprovalTestsExtensions/Scrubbers/PatternScrubber.cs:30-33 | a text seen for the first time gets the number of distinct texts seen before it |
| PatternScrubbing.SamePlaceholderIffSameText | src/ApprovalTestsExtensions/Scrubbers/PatternScrubber.cs:8-10 | two matches get the same placeholder if and only if they matched the same text |
| PatternScrubbing.PlaceholdersExample | src/ApprovalTestsExtensions/Scrubbers/PatternScrubber.cs:26-35 | matches "7", "9", "7" under prefix "id" become `__id_0__`, `__id_1__`, `__id_0__` |
| PatternScrubbing.Values | src/ApprovalTestsExtensions/Scrubbers/PatternScrubber.cs:29 | one matched text per match |
| PatternScrubbing.SpliceOwnTextIsIdentity | src/ApprovalTestsExtensions/Scrubbers/PatternScrubber.cs:27 | replacing each match by its own text gives the input back, so the text between matches is copied unchanged and in order |
| PatternScrubbing.Masked | src/ApprovalTestsExtensions/Scrubbers/PatternScrubber.cs:24-36 | one rule's `ScrubMatches`; a rule whose pattern does not match leaves the text unchanged (the placeholders it writes are stated by `ScrubMatches`) |
| PatternScrubbing.MaskedByRules | src/ApprovalTestsExtensions/Scrubbers/PatternScrubber.cs:14-22 | the rules applied one after another, each to the previous output (definition only; stated by `NoRulesIsIdentity`, `RulesCompose` and `PatternScrubber.Scrub`) |
| PatternScrubbing.NoRulesIsIdentity | src/ApprovalTestsExtensions/Scrubbers/PatternScrubber.cs:16-21 | with no rules the text is unchanged |
| PatternScrubbing.RulesCompose | src/ApprovalTestsExtensions/Scrubbers/PatternScrubber.cs:17-20 | the rules `r1 + r2` act as `r1` followed by `r2`: each rule applies to the previous rule's output |
| PatternScrubbing.ScrubMatches | src/ApprovalTestsExtensions/Scrubbers/PatternScrubber.cs:24-36 | the output is the input with every match replaced by the placeholder of its text's first-appearance number |
| PatternScrubbing.ReplaceMatches | src/ApprovalTestsExtensions/Scrubbers/PatternScrubber.cs:26-35 | the dictionary loop over the matches produces the text in which each match is replaced by its numbered placeholder |
| PatternScrubbing.PatternScrubber.constructor | src/ApprovalTestsExtensions/Scrubbers/PatternScrubber.cs:38 | a new scrubber has no rules |
| PatternScrubbing.PatternScrubber.Add | src/ApprovalTestsExtensions/Scrubbers/PatternScrubber.cs:40-43 | the rule is appended at the end; the earlier rules are kept in order |
| PatternScrubbing.PatternScrubber.Scrub | src/ApprovalTestsExtensions/Scrubbers/PatternScrubber.cs:14-22 | the output is every rule, in insertion order, applied to the previous output |
| Composition.Present | src/ApprovalTestsExtensions/Scrubbers/ComposedScrubber.cs:16 | `OfType` keeps exactly the present scrubbers |
| Composition.Compose | src/ApprovalTestsExtensions/Scrubbers/ComposedScrubber.cs:14-17 | an empty or all-absent list returns the input unchanged; a failure needs a present scrubber |
| Composition.AbsentSkipped | src/ApprovalTestsExtensions/Scrubbers/ComposedScrubber.cs:16 | composing the list is folding over its present scrubbers alone, in list order |
| Composition.SingleIsItself | src/ApprovalTestsExtensions/Scrubbers/ComposedScrubber.cs:16 | a single scrubber composes to itself |
| Composition.ConcatIsSequential | src/ApprovalTestsExtensions/Scrubbers/ComposedScrubber.cs:16 | composing `a + b` applies `b`'s composition to the output of `a`'s |
| Composition.FailureStops | src/ApprovalTestsExtensions/Scrubbers/ComposedScrubber.cs:16 | a failing scrubber ends the fold with its failure |
| JsonTree.FindKey | src/ApprovalTestsExtensions/Scrubbers/JsonPathScrubber.cs:27 | the first property with the name, or none when no property has it |
| JsonTree.Child | src/ApprovalTestsExtensions/Scrubbers/JsonPathScrubber.cs:27 | a child is a strictly smaller node: an array item by index or an object property by its first matching name (definition; stated by `GetAfterPut` and `SetChildKeepsSibling`) |
| JsonTree.Get | src/ApprovalTestsExtensions/Scrubbers/JsonPathScrubber.cs:27 | the node an address leads to, step by step from the root (definition; stated by `GetAfterPut`, `PutNowhere` and `PutKeepsApart`) |
| JsonTree.Put | src/ApprovalTestsExtensions/Scrubbers/JsonPathScrubber.cs:31-40 | the tree with the node at an address replaced (definition; stated by `GetAfterPut`, `PutWhatIsThere`, `PutNowhere` and `PutKeepsApart`) |
| JsonTree.SetChild | src/ApprovalTestsExtensions/Scrubbers/JsonPathScrubber.cs:31-40 | the child is replaced when it exists; otherwise the node is unchanged |
| JsonTree.GetAfterPut | src/ApprovalTestsExtensions/Scrubbers/JsonPathScrubber.cs:31-40 | after a replacement the address leads to the new node |
| JsonTree.PutWhatIsThere | src/ApprovalTestsExtensions/Scrubbers/JsonPathScrubber.cs:31-40 | replacing a node by itself changes nothing |
| JsonTree.PutNowhere | src/ApprovalTestsExtensions/Scrubbers/JsonPathScrubber.cs:27-29 | a replacement at an address that leads nowhere changes nothing |
| JsonTree.SetChildKeepsSibling | src/ApprovalTestsExtensions/Scrubbers/JsonPathScrubber.cs:31-40 | replacing one child leaves every other child as it was |
| JsonTree.PutKeepsApart | src/ApprovalTestsExtensions/Scrubbers/JsonPathScrubber.cs:31-40 | replacing a node leaves every node in a disjoint subtree as it was |
| JsonPathScrubbing.JsonPathScrubber.constructor | src/ApprovalTestsExtensions/Scrubbers/JsonPathScrubber.cs:10-13 | the scrubber keeps the ignored paths it is given |
| JsonPathScrubbing.MaskNode | src/ApprovalTestsExtensions/Scrubbers/JsonPathScrubber.cs:29-41 | the masked form of one selected node (definition; stated by `MaskedValue`, `MaskedArray` and `MaskedObject`) |
| JsonPathScrubbing.MaskAt | src/ApprovalTestsExtensions/Scrubbers/JsonPathScrubber.cs:29-41 | the tree with one selected node masked in place (definition; stated by `MaskedObject`, `MaskAtKeepsApart` and `MaskAtTwice`) |
| JsonPathScrubbing.MaskAll | src/ApprovalTestsExtensions/Scrubbers/JsonPathScrubber.cs:27-42 | the selected nodes of one path masked in order, stopping at a failure (definition; stated by `MaskAllKeepsApart`) |
| JsonPathScrubbing.MaskPaths | src/ApprovalTestsExtensions/Scrubbers/JsonPathScrubber.cs:25-43 | every path in turn, each selecting in the tree the earlier paths left; a path the engine rejects fails with `PathError` (definition; stated by `PathsInOrder`, `MalformedPathFails` and `RejectedPathFails`) |
| JsonPathScrubbing.Scrubbed | src/ApprovalTestsExtensions/Scrubbers/JsonPathScrubber.cs:15-46 | the scrub of one text (definition; stated by `BlankIsEmpty`, `MalformedFails`, `RejectedPathFails`, `NoPathsReprints` and the `Scrub` method) |
| JsonPathScrubbing.JsonPathScrubber.Scrub | src/ApprovalTestsExtensions/Scrubbers/JsonPathScrubber.cs:15-46 | the nested loops over paths and selected nodes return the specified scrub: blank input gives "", malformed input fails to parse, a path the engine rejects fails with its `PathError`, and otherwise every path in turn masks its nodes and the tree is printed |
| JsonPathScrubbing.BlankIsEmpty | src/ApprovalTestsExtensions/Scrubbers/JsonPathScrubber.cs:17-20 | blank input gives "", whatever the parser would say |
| JsonPathScrubbing.MalformedFails | src/ApprovalTestsExtensions/Scrubbers/JsonPathScrubber.cs:22 | malformed non-blank input fails with the parse error |
| JsonPathScrubbing.RejectedPathFails | src/ApprovalTestsExtensions/Scrubbers/JsonPathScrubber.cs:25-27 | a first path that the engine rejects fails the scrub with that path's `PathError` |
| JsonPathScrubbing.MalformedPathFails | src/ApprovalTestsExtensions/Scrubbers/JsonPathScrubber.cs:25-27 | a path the engine rejects on every tree fails every scrub that lists it, wherever it stands among the paths |
| JsonPathScrubbing.NoPathsReprints | src/ApprovalTestsExtensions/Scrubbers/JsonPathScrubber.cs:22-45 | with no paths the parsed tree is printed unchanged |
| JsonPathScrubbing.MaskedValue | src/ApprovalTestsExtensions/Scrubbers/JsonPathScrubber.cs:31-33 | a selected scalar becomes the string `_IGNORED_VALUE_` |
| JsonPathScrubbing.MaskedArray | src/ApprovalTestsExtensions/Scrubbers/JsonPathScrubber.cs:34-37 | a selected array becomes exactly `["_IGNORED_VALUE_"]` |
| JsonPathScrubbing.MaskedObject | src/ApprovalTestsExtensions/Scrubbers/JsonPathScrubber.cs:38-40 | a selected object below the root becomes the string `_IGNORED_VALUE_`; selecting the root object fails with "The parent is missing.", and only that case fails |
| JsonPathScrubbing.MaskAtKeepsApart | src/ApprovalTestsExtensions/Scrubbers/JsonPathScrubber.cs:29-41 | masking a node leaves nodes outside it unchanged |
| JsonPathScrubbing.MaskAllKeepsApart | src/ApprovalTestsExtensions/Scrubbers/JsonPathScrubber.cs:27-42 | nodes that no selected address covers are unchanged |
| JsonPathScrubbing.MaskAtTwice | src/ApprovalTestsExtensions/Scrubbers/JsonPathScrubber.cs:29-41 | masking a node twice is masking it once |
| JsonPathScrubbing.GetAfterPutTwice | src/ApprovalTestsExtensions/Scrubbers/JsonPathScrubber.cs:29-41 | writing the same node twice is writing it once |
| JsonPathScrubbing.PathsInOrder | src/ApprovalTestsExtensions/Scrubbers/JsonPathScrubber.cs:25-43 | the paths `p1 + p2` act as `p1` followed by `p2`; each path selects in the tree as the earlier paths left it |
| SortedDiffFormatting.SortValue | src/ApprovalTestsExtensions/AlphabeticallySortedJsonDiffFormatter.cs:31-45 | sorting keeps the node's kind: an object stays an object, and nothing else becomes one |
| SortedDiffFormatting.SortProps | src/ApprovalTestsExtensions/AlphabeticallySortedJsonDiffFormatter.cs:31-45 | an object's properties with their values sorted, then ordered by name (definition; stated by `SortOrdersKeys`, `SortKeepsPairs` and `SortIgnoresNestedKeyOrder`) |
| SortedDiffFormatting.SortProperty | src/ApprovalTestsExtensions/AlphabeticallySortedJsonDiffFormatter.cs:42-43 | a property keeps its name when its value is sorted |
| SortedDiffFormatting.SortValues | src/ApprovalTestsExtensions/AlphabeticallySortedJsonDiffFormatter.cs:39-44 | each property keeps its name and position, and its value is sorted |
| SortedDiffFormatting.SortValuesAppend | src/ApprovalTestsExtensions/AlphabeticallySortedJsonDiffFormatter.cs:39-44 | sorting the values of two joined property lists is joining their sorted values |
| SortedDiffFormatting.Insert | src/ApprovalTestsExtensions/AlphabeticallySortedJsonDiffFormatter.cs:39 | insertion adds exactly the one property |
| SortedDiffFormatting.InsertionSort | src/ApprovalTestsExtensions/AlphabeticallySortedJsonDiffFormatter.cs:39 | the result is a permutation of the properties |
| SortedDiffFormatting.InsertKeepsSorted | src/ApprovalTestsExtensions/AlphabeticallySortedJsonDiffFormatter.cs:39 | inserting into an ordered list keeps it ordered |
| SortedDiffFormatting.InsertionSortSorts | src/ApprovalTestsExtensions/AlphabeticallySortedJsonDiffFormatter.cs:39 | the result is in ascending name order |
| SortedDiffFormatting.InsertAtEnd | src/ApprovalTestsExtensions/AlphabeticallySortedJsonDiffFormatter.cs:39 | a property no smaller than all others goes last, so equal names keep their order |
| SortedDiffFormatting.SortedIsFixed | src/ApprovalTestsExtensions/AlphabeticallySortedJsonDiffFormatter.cs:39 | an ordered list is left as it is |
| SortedDiffFormatting.InsertKeepsUnique | src/ApprovalTestsExtensions/AlphabeticallySortedJsonDiffFormatter.cs:39-41 | inserting a new name keeps the names distinct |
| SortedDiffFormatting.InsertionSortKeepsUnique | src/ApprovalTestsExtensions/AlphabeticallySortedJsonDiffFormatter.cs:39-41 | sorting keeps distinct names distinct |
| SortedDiffFormatting.SortOrdersKeys | src/ApprovalTestsExtensions/AlphabeticallySortedJsonDiffFormatter.cs:39-41 | an object's keys end up in ascending order, and in strictly ascending order when they are distinct |
| SortedDiffFormatting.SortKeepsPairs | src/ApprovalTestsExtensions/AlphabeticallySortedJsonDiffFormatter.cs:33-41 | the sorted properties are a permutation of the name/value pairs, with nothing added or dropped |
| SortedDiffFormatting.ArraysKeepOrder | src/ApprovalTestsExtensions/AlphabeticallySortedJsonDiffFormatter.cs:42-43 | an array, and every object in it, is left in its order |
| SortedDiffFormatting.SortValueIdempotent | src/ApprovalTestsExtensions/AlphabeticallySortedJsonDiffFormatter.cs:31-45 | sorting a sorted tree changes nothing |
| SortedDiffFormatting.SortPropsIdempotent | src/ApprovalTestsExtensions/AlphabeticallySortedJsonDiffFormatter.cs:31-45 | sorting sorted properties changes nothing |
| SortedDiffFormatting.SortValuesPermutation | src/ApprovalTestsExtensions/AlphabeticallySortedJsonDiffFormatter.cs:42-43 | sorting values commutes with reordering the properties |
| SortedDiffFormatting.StrictlySortedUnique | src/ApprovalTestsExtensions/AlphabeticallySortedJsonDiffFormatter.cs:39 | two strictly ordered permutations of each other are equal |
| SortedDiffFormatting.SortIgnoresKeyOrder | src/ApprovalTestsExtensions/AlphabeticallySortedJsonDiffFormatter.cs:31-45 | two objects that differ only in key order sort to the same properties |
| SortedDiffFormatting.SortIgnoresNestedKeyOrder | src/ApprovalTestsExtensions/AlphabeticallySortedJsonDiffFormatter.cs:31-45 | two trees that differ only in the key order of their objects, at any depth reached through property values, sort to the same tree |
| SortedDiffFormatting.PropsPermutedSortEqual | src/ApprovalTestsExtensions/AlphabeticallySortedJsonDiffFormatter.cs:39-44 | two property lists with distinct names, the same names, and values that differ only in key order sort to the same list |
| SortedDiffFormatting.StrictlySortedSameElements | src/ApprovalTestsExtensions/AlphabeticallySortedJsonDiffFormatter.cs:39 | two strictly ordered lists with the same elements are the same list |
| SortedDiffFormatting.SortSortsDeeply | src/ApprovalTestsExtensions/AlphabeticallySortedJsonDiffFormatter.cs:39-44 | after sorting, every object reached through property values, at any depth, has its keys in ascending order |
| SortedDiffFormatting.SortedPropertySortedDeeply | src/ApprovalTestsExtensions/AlphabeticallySortedJsonDiffFormatter.cs:42-43 | each value of a sorted object is itself sorted at every depth |
| SortedDiffFormatting.FormatIsDefaultOfSorted | src/ApprovalTestsExtensions/AlphabeticallySortedJsonDiffFormatter.cs:11-29 | no diff gives ""; an object diff is printed sorted; any other diff is printed as the default formatter prints it |
| SortedDiffFormatting.FormatSortedIsDefault | src/ApprovalTestsExtensions/AlphabeticallySortedJsonDiffFormatter.cs:18-28 | on an already sorted diff both formatters agree |
| SortedDiffFormatting.DefaultFormat | src/ApprovalTestsExtensions/DefaultJsonDiffFormatter.cs:7 | no diff gives "", a diff is printed as it is (definition; stated by `FormatIsDefaultOfSorted`) |
| SortedDiffFormatting.Format | src/ApprovalTestsExtensions/AlphabeticallySortedJsonDiffFormatter.cs:11-29 | no diff gives "", an object diff is printed sorted, any other diff as it is (definition; stated by `FormatIsDefaultOfSorted` and `FormatSortedIsDefault`) |
| InlineDiff.LinePrefix | src/ApprovalTestsExtensions/EnhancedInlineDiffReporter.cs:120-130 | every prefix is two characters ending in a space |
| InlineDiff.PrefixesTellKindsApart | src/ApprovalTestsExtensions/EnhancedInlineDiffReporter.cs:120-130 | two pieces get the same prefix if and only if they are of the same kind |
| InlineDiff.MarkSpaces | src/ApprovalTestsExtensions/EnhancedInlineDiffReporter.cs:97-100 | space becomes U+00B7 and tab becomes U+2192; every other character stays in place |
| InlineDiff.MarkSpacesKeepsEnding | src/ApprovalTestsExtensions/EnhancedInlineDiffReporter.cs:97-103 | marking spaces does not change how the text ends in line terminators |
| InlineDiff.MakeWhitespacesVisible | src/ApprovalTestsExtensions/EnhancedInlineDiffReporter.cs:97-117 | no space or tab is left in the visualised text |
| InlineDiff.EndingBecomes | src/ApprovalTestsExtensions/EnhancedInlineDiffReporter.cs:102-117 | replacing a terminator the text ends with leaves the text ending in its visualisation |
| InlineDiff.LineEndingShown | src/ApprovalTestsExtensions/EnhancedInlineDiffReporter.cs:102-117 | the first matching rule applies: CRLF, then LF, then CR; the visualised text ends in that terminator's visualisation, and every occurrence of it is shown: no CR LF pair is left, every LF follows U+240A, or no CR is left; a text with no terminator is only space-marked |
| InlineDiff.CrLfShown | src/ApprovalTestsExtensions/EnhancedInlineDiffReporter.cs:102-105 | replacing CR LF leaves the text ending in U+240D U+240A and a new line, with no CR LF pair anywhere |
| InlineDiff.LfShown | src/ApprovalTestsExtensions/EnhancedInlineDiffReporter.cs:107-110 | replacing LF leaves the text ending in U+240A and a new line, with every LF right after a U+240A |
| InlineDiff.CrShown | src/ApprovalTestsExtensions/EnhancedInlineDiffReporter.cs:112-115 | replacing CR leaves the text ending in U+240D and a new line, with no CR anywhere |
| InlineDiff.LineBeforeStep | src/ApprovalTestsExtensions/EnhancedInlineDiffReporter.cs:53-85 | the counter starts at 1 and grows by one after every piece except an insertion |
| InlineDiff.Header | src/ApprovalTestsExtensions/EnhancedInlineDiffReporter.cs:60-62 | the separator line and `From line N:` (definition; used by `EmittedByStep` and `BlockExample`) |
| InlineDiff.Emitted | src/ApprovalTestsExtensions/EnhancedInlineDiffReporter.cs:56-75 | one piece's contribution: the header when it opens a block, then a change's prefix and text (definition; stated by `EmittedByStep`, `OneHeaderPerBlock` and `NoChangesRenderEmpty`) |
| InlineDiff.Rendered | src/ApprovalTestsExtensions/EnhancedInlineDiffReporter.cs:54-86 | the contributions of the first n pieces, in order (definition; stated by `RenderedStep` and `GenerateInlineDiff`) |
| InlineDiff.OneHeaderPerBlock | src/ApprovalTestsExtensions/EnhancedInlineDiffReporter.cs:56-65 | in a maximal run of changes, only the first piece opens a block |
| InlineDiff.NoChangesRenderEmpty | src/ApprovalTestsExtensions/EnhancedInlineDiffReporter.cs:54-88 | unchanged pieces render nothing, so an empty or all-unchanged diff renders "" |
| InlineDiff.EmittedByStep | src/ApprovalTestsExtensions/EnhancedInlineDiffReporter.cs:56-75 | the separator, the `From line N:` header (N is the position, or the counter when there is none) and the prefixed text written for one piece are that piece's contribution |
| InlineDiff.RenderedStep | src/ApprovalTestsExtensions/EnhancedInlineDiffReporter.cs:54-86 | the rendering grows piece by piece |
| InlineDiff.EnhancedInlineDiffReporter.constructor | src/ApprovalTestsExtensions/EnhancedInlineDiffReporter.cs:33 | whitespace is not shown by default |
| InlineDiff.EnhancedInlineDiffReporter.GenerateInlineDiff | src/ApprovalTestsExtensions/EnhancedInlineDiffReporter.cs:45-89 | the loop with `lastChanged` and `lastLine` produces the specified rendering: one header per block of changes, then each change's prefix and text |
| InlineDiff.EnhancedInlineDiffReporter.Report | src/ApprovalTestsExtensions/EnhancedInlineDiffReporter.cs:20-41 | always fails with the content-different error: received as the actual content and file, approved as the expected ones, the rendered diff, and a message naming both files |
| InlineDiff.DifferenceMessage | src/ApprovalTestsExtensions/EnhancedInlineDiffReporter.cs:20-21 | the exception message: both file names, then a new line and the diff (definition; used by `Report`) |
| InlineDiff.EnhancedInlineDiffReporter.IsWorkingInThisEnvironment | src/ApprovalTestsExtensions/EnhancedInlineDiffReporter.cs:43 | the reporter applies everywhere (definition) |
| InlineDiff.BlockExample | src/ApprovalTestsExtensions/EnhancedInlineDiffReporter.cs:54-86 | an unpositioned deletion and an insertion at line 2, between unchanged lines, render as one block "From line 2:" holding "- b" then "+ x" |
| Reporters.PreferredDiffToolTable | src/ApprovalTestsExtensions/Reporters/ContextAwareDiffToolReporter.cs:75-86 | VS Code exactly for `testhost` off Windows or `omnisharp`; Rider exactly for `resharpertestrunner` off Windows or `rider64`; Visual Studio exactly for `devenv` |
| Reporters.PreferredDiffTool | src/ApprovalTestsExtensions/Reporters/ContextAwareDiffToolReporter.cs:75-86 | the tool a process name calls for (definition; stated by `PreferredDiffToolTable` and `PreferredDiffToolIgnoresCase`) |
| Reporters.PreferredDiffToolIgnoresCase | src/ApprovalTestsExtensions/Reporters/ContextAwareDiffToolReporter.cs:77 | names that agree in lower case call for the same tool |
| Reporters.PreferredDiffToolExample | src/ApprovalTestsExtensions/Reporters/ContextAwareDiffToolReporter.cs:77-84 | "Rider64" gives Rider; "testhost" gives nothing on Windows |
| Reporters.RiderInLowerCase | src/ApprovalTestsExtensions/Reporters/ContextAwareDiffToolReporter.cs:77 | the process name "Rider64" is compared as "rider64" |
| Reporters.TestHostInLowerCase | src/ApprovalTestsExtensions/Reporters/ContextAwareDiffToolReporter.cs:77 | the process name "testhost" is already in lower case and is compared unchanged |
| Reporters.ProcessChainLinks | src/ApprovalTestsExtensions/Reporters/ContextAwareDiffToolReporter.cs:59-73 | the chain starts at the current process and each later process is the live parent of the one before; off Windows it is the current process alone; on Windows it ends at a missing or exited parent |
| Reporters.LiveAncestors | src/ApprovalTestsExtensions/Reporters/ContextAwareDiffToolReporter.cs:67-71 | the parents, nearest first, up to one that is missing or has exited (definition; stated by `ProcessChainLinks`) |
| Reporters.ProcessChain | src/ApprovalTestsExtensions/Reporters/ContextAwareDiffToolReporter.cs:59-73 | the current process, then on Windows its live ancestors (definition; stated by `ProcessChainLinks`) |
| Reporters.FirstToolIsFirstMatch | src/ApprovalTestsExtensions/Reporters/ContextAwareDiffToolReporter.cs:46-57 | the preferred tool is that of the first process in the chain that calls for one, or none if and only if no process does |
| Reporters.FirstTool | src/ApprovalTestsExtensions/Reporters/ContextAwareDiffToolReporter.cs:46-57 | the tool of the first process in a chain that calls for one (definition; stated by `FirstToolIsFirstMatch`) |
| Reporters.ToolFor | src/ApprovalTestsExtensions/Reporters/ContextAwareDiffToolReporter.cs:22-30 | the tool the lazy lookup settles on (definition; used by `ContextAwareDiffToolReporter.PreferredTool`) |
| Reporters.EnumerateExecutingProcesses | src/ApprovalTestsExtensions/Reporters/ContextAwareDiffToolReporter.cs:59-73 | the loop over parents produces the process chain |
| Reporters.FindPreferredTool | src/ApprovalTestsExtensions/Reporters/ContextAwareDiffToolReporter.cs:46-57 | the loop returns the first match in the chain |
| Reporters.AutoDetectionExample | src/ApprovalTestsExtensions/Reporters/ContextAwareDiffToolReporter.cs:44 | "TRUE" enables detection and an unset variable does not |
| Reporters.AutoDetectionEnabled | src/ApprovalTestsExtensions/Reporters/ContextAwareDiffToolReporter.cs:44 | the variable is set and reads "true" in lower case (definition; stated by `AutoDetectionExample`) |
| Reporters.ContextAwareDiffToolReporter.constructor | src/ApprovalTestsExtensions/Reporters/ContextAwareDiffToolReporter.cs:20-31 | the lookup has not run yet |
| Reporters.ContextAwareDiffToolReporter.PreferredTool | src/ApprovalTestsExtensions/Reporters/ContextAwareDiffToolReporter.cs:18-30 | returns the first-match tool; the lookup runs on first use only and then keeps its value |
| Reporters.ContextAwareDiffToolReporter.IsWorkingInThisEnvironment | src/ApprovalTestsExtensions/Reporters/ContextAwareDiffToolReporter.cs:42-44 | true if and only if the variable reads "true" in lower case and a tool was found; the lookup is not run when detection is off |
| Reporters.ContextAwareDiffToolReporter.Report | src/ApprovalTestsExtensions/Reporters/ContextAwareDiffToolReporter.cs:33-40 | fails with the "Unable to find a preferred reported for current used IDE" error when no tool was found; otherwise opens the tool on the same two files; the looked-up value is kept, and a value already there is reused without a new lookup |
| Reporters.LookupRunsOnce | src/ApprovalTestsExtensions/Reporters/ContextAwareDiffToolReporter.cs:18-42 | two applicability checks agree, and the lookup runs once |
| Reporters.ReportReusesLookup | src/ApprovalTestsExtensions/Reporters/ContextAwareDiffToolReporter.cs:18-42 | after an applicability check, a report reuses the same lookup and opens a tool exactly when the check said the reporter works |
| Reporters.BuildServerReporter.constructor | src/ApprovalTestsExtensions/Reporters/BuildServerReporter.cs:14-17 | keeps the inner reporter; nothing is detected yet |
| Reporters.BuildServerReporter.Report | src/ApprovalTestsExtensions/Reporters/BuildServerReporter.cs:19 | forwards both files, unchanged, to the inner reporter |
| Reporters.BuildServerReporter.IsWorkingInThisEnvironment | src/ApprovalTestsExtensions/Reporters/BuildServerReporter.cs:12-21 | the first call stores the detector's answer; later calls return it without consulting the detector, whatever the file; the inner reporter is never asked |
| Reporters.DetectorAskedOnce | src/ApprovalTestsExtensions/BuildServerReporter.cs:9-18 | in the second copy of the decorator too, two calls with different files and detectors both return the first detector's answer, and it runs once |
| Approving.ReporterChoice | src/ApprovalTestsExtensions/ExplicitApprover.cs:36-51 | the auto-approver exactly when the flag is true, or is absent while the static default is true; otherwise the given reporter, or the chain BuildServer(EnhancedInline), ContextAware, DiffReporter |
| Approving.ReporterFor | src/ApprovalTestsExtensions/ExplicitApprover.cs:50-51 | the reporter chosen at construction (definition; stated by `ReporterChoice`) |
| Approving.StaticScrubberRunsLast | src/ApprovalTestsExtensions/ExplicitApprover.cs:234-235 | the static scrubber runs on the output of the per-call scrubber; a failure of the per-call scrubber is final; absent scrubbers are skipped |
| Approving.ScrubText | src/ApprovalTestsExtensions/ExplicitApprover.cs:234-235 | the per-call scrubber composed with the static one (definition; stated by `StaticScrubberRunsLast`) |
| Approving.DuplicateFailsFirst | src/ApprovalTestsExtensions/ExplicitApprover.cs:230-247 | a name already verified fails with SnapshotOverridden whatever the text; under a fresh name the scrubbed text is verified |
| Approving.TextOutcome | src/ApprovalTestsExtensions/ExplicitApprover.cs:230-247 | the result of a text verification (definition; stated by `DuplicateFailsFirst` and `ExplicitApprover.VerifyTextWith`) |
| Approving.JsonOutcomeScrubsPaths | src/ApprovalTestsExtensions/ExplicitApprover.cs:225-228 | a JSON payload is verified with the extension "json", after the JSON path scrubber |
| Approving.JsonOutcome | src/ApprovalTestsExtensions/ExplicitApprover.cs:225-228 | a text verification with extension "json" and the JSON path scrubber (definition; stated by `JsonOutcomeScrubsPaths`) |
| Approving.DiffPayload | src/ApprovalTestsExtensions/ExplicitApprover.cs:215-221 | the formatted diff of the two parsed payloads, or none when either does not parse (definition; used by `ExplicitApprover.VerifyJsonDiffWith`) |
| Approving.FormatDiff | src/ApprovalTestsExtensions/ExplicitApprover.cs:221 | the diff printed by the chosen formatter (definition; stated by `FormatIsDefaultOfSorted`) |
| Approving.ExplicitApprover.constructor | src/ApprovalTestsExtensions/ExplicitApprover.cs:47-55 | derives the namer from the test file, the method and the test case; picks the reporter and the formatter; starts with no names verified |
| Approving.ExplicitApprover.EnsureSnapshotNotDuplicated | src/ApprovalTestsExtensions/ExplicitApprover.cs:241-247 | the name is added to the tracker; the call fails with SnapshotOverridden if and only if the name was already there |
| Approving.ExplicitApprover.VerifyTextWith | src/ApprovalTestsExtensions/ExplicitApprover.cs:230-239 | the name is recorded before scrubbing, even when scrubbing fails; the result is the text outcome for the earlier tracker |
| Approving.ExplicitApprover.VerifyJsonWith | src/ApprovalTestsExtensions/ExplicitApprover.cs:225-228 | a text verification with extension "json" and the JSON path scrubber |
| Approving.ExplicitApprover.VerifyJsonDiffWith | src/ApprovalTestsExtensions/ExplicitApprover.cs:215-223 | a payload that does not parse fails before anything is recorded; otherwise the formatted diff is verified as JSON, with the ignored paths applied to the diff |
| Approving.ExplicitApprover.VerifyText | src/ApprovalTestsExtensions/ExplicitApprover.cs:196-199 | verified under the approver's own name, with the inline scrubber when one is given |
| Approving.ExplicitApprover.VerifyTextForScenario | src/ApprovalTestsExtensions/ExplicitApprover.cs:208-212 | verified under the scenario's name, which is the only name recorded |
| Approving.ExplicitApprover.VerifyJson | src/ApprovalTestsExtensions/ExplicitApprover.cs:113 | a JSON verification under the approver's own name |
| Approving.ExplicitApprover.VerifyJsonForScenario | src/ApprovalTestsExtensions/ExplicitApprover.cs:119-123 | a JSON verification under the scenario's name |
| Approving.ExplicitApprover.VerifyObject | src/ApprovalTestsExtensions/ExplicitApprover.cs:133 | the serialized object, verified as JSON |
| Approving.ExplicitApprover.VerifyObjectForScenario | src/ApprovalTestsExtensions/ExplicitApprover.cs:139-143 | the serialized object, verified as JSON under the scenario's name |
| Approving.ExplicitApprover.VerifyJsonDiff | src/ApprovalTestsExtensions/ExplicitApprover.cs:179 | the diff route under the approver's own name |
| Approving.ExplicitApprover.VerifyJsonDiffForScenario | src/ApprovalTestsExtensions/ExplicitApprover.cs:184-188 | the diff route under the scenario's name |
| Approving.ExplicitApprover.VerifyObjectDiff | src/ApprovalTestsExtensions/ExplicitApprover.cs:153-158 | the diff route on the two serialized objects |
| Approving.ExplicitApprover.VerifyObjectDiffForScenario | src/ApprovalTestsExtensions/ExplicitApprover.cs:164-169 | the diff route on the two serialized objects, under the scenario's name |
| Approving.SecondVerificationFails | src/ApprovalTestsExtensions/ExplicitApprover.cs:241-247 | a second verification under the same name fails with SnapshotOverridden |
| Approving.ApproversAreIndependent | src/ApprovalTestsExtensions/ExplicitApprover.cs:31 | each approver has its own set of names: a verification on either succeeds exactly when its name is new to that approver, even right after the other approver verified the same name |
| Approving.ScenariosDoNotCollide | src/ApprovalTestsExtensions/ExplicitApprover.cs:208-212 | scenarios with different adjusted names both succeed, and the approver's own name is not recorded |
| Text.IsBlank | src/ApprovalTestsExtensions/Scrubbers/JsonPathScrubber.cs:17 | every character is white space (definition) |
| Text.ReplaceChar | src/ApprovalTestsExtensions/EnhancedInlineDiffReporter.cs:99-100 | the result has the input's length; every `from` becomes `to` and every other character stays in place |
| Text.ReplaceAll | src/ApprovalTestsExtensions/EnhancedInlineDiffReporter.cs:104 | scanning left to right, every non-overlapping occurrence of the pattern becomes the replacement (definition; stated by the lemmas below) |
| Text.ReplaceAllAvoids | src/ApprovalTestsExtensions/EnhancedInlineDiffReporter.cs:104 | a character in neither the text nor the replacement is not in the result |
| Text.ReplaceAllRemoves | src/ApprovalTestsExtensions/EnhancedInlineDiffReporter.cs:114 | replacing a character by text without it leaves no occurrence of it |
| Text.ReplaceAllMarks | src/ApprovalTestsExtensions/EnhancedInlineDiffReporter.cs:109 | replacing every `c` by a mark and `c` leaves every `c` directly after a mark |
| Text.ReplaceAllRemovesPair | src/ApprovalTestsExtensions/EnhancedInlineDiffReporter.cs:104 | replacing a two-character pattern by text that cannot form it with its neighbours leaves no occurrence of the pattern |
| Text.ReplaceAllOfTerminated | src/ApprovalTestsExtensions/EnhancedInlineDiffReporter.cs:102-115 | a text that ends with a borderless pattern ends, after replacement, with the replacement |
| Text.ToLower | src/ApprovalTestsExtensions/Reporters/ContextAwareDiffToolReporter.cs:77 | the result has the input's length, with every ASCII capital lowered and every other character kept |
| Text.NatToString | src/ApprovalTestsExtensions/EnhancedInlineDiffReporter.cs:62 | at least one character, all of them decimal digits |
| Text.NatToStringRoundTrip | src/ApprovalTestsExtensions/EnhancedInlineDiffReporter.cs:62 | reading the printed digits back gives the number |
| Text.NatToStringInjective | src/ApprovalTestsExtensions/EnhancedInlineDiffReporter.cs:62 | two numbers print alike if and only if they are equal |
| Text.LessIrreflexive | src/ApprovalTestsExtensions/AlphabeticallySortedJsonDiffFormatter.cs:39 | no name comes before itself |
| Text.LessTransitive | src/ApprovalTestsExtensions/AlphabeticallySortedJsonDiffFormatter.cs:39 | the name order is transitive |
| Text.LessTotal | src/ApprovalTestsExtensions/AlphabeticallySortedJsonDiffFormatter.cs:39 | of two different names, one comes first |
| Text.LessAsymmetric | src/ApprovalTestsExtensions/AlphabeticallySortedJsonDiffFormatter.cs:39 | two names never both come before each other |

## Left out

- The HTTP entry points (`VerifyHttpResponse…`) are left out. They only read a response body asynchronously and then call the JSON routes, which are modelled.
- The comparison with the stored snapshot is left out. This covers `WriterFactory`, `FileApprover` and `Approvals.Verify`, which belong to the ApprovalTests storage library. A verification ends in the `Verification` record it would be handed.
- `AutoApprover`, `DebuggerStepApprovalFailureReporter` and the `DiffToolReporter`/`DiffReporter` launch are left out; they are file, debugger or process I/O. A reporter is named by a `Reporter` value. A launch is a `Launch` record.
- The regex engine, the JSON parser and printer, the JSONPath engine, JsonDiffPatch and DiffPlex are foreign code, so they are parameters. What the model promises holds for whatever those parameters return.
- `JsonPathScrubbing.JsonPathScrubber.Scrub`: the selection runs once per path, on the tree as it stands, and gives addresses. The lazy enumeration of `SelectTokens` during the edits is not modelled. When a wildcard or filter selection such as `$.items[*]` yields objects inside an array, replacing the first of them changes the array while it is still being enumerated, and the enumeration can then fail with "Collection was modified". Under `$..*` a replaced object is detached from the tree, or a cleared array loses its children, while the descent is still walking them. In these cases the model masks every selected node in turn and succeeds where the C# can throw. A write to a node that an earlier edit detached from the tree is modelled as changing nothing.
- JSON numbers are integers. Floating-point values are not modelled.
- `SortedDiffFormatting.SortValue` sorts by ordinal order of the names. `OrderBy` with the current culture's comparer is not modelled. The deep clone is implicit, because trees are values.
- `Text.ToLower` lowers the ASCII capitals A to Z and keeps every other character. `string.ToLower()` follows the current culture, and this matters for ASCII letters too. Under Turkish (tr-TR), "RIDER64" lowers to "rıder64" with a dotless ı (U+0131), and "OMNISHARP" to "omnısharp". Neither then matches a tool name. Culture-dependent mapping is not modelled, for ASCII or other letters.
- `Reporters.PreferredDiffTool` and `Reporters.AutoDetectionEnabled` compare names as the invariant culture lowers them, through `Text.ToLower`. Under a Turkish culture the C# code finds no tool for a process name spelled with a capital I, such as "RIDER64", while the model finds Rider.
- `PatternScrubbing.Regex` promises matches from left to right that do not overlap. A pattern built with `RegexOptions.RightToLeft` hands its matches to the evaluator from the right, so the placeholders are numbered from the end of the text (src/ApprovalTestsExtensions/Scrubbers/PatternScrubber.cs:24-36). That option is not modelled.
- `Naming.FileName`, `Naming.FileNameWithoutExtension` and `Naming.DirectoryName` treat both `/` and `\` as directory separators on every platform. On Unix, .NET treats only `/` as one, so there `a\b.cs` is a single file name.
- `Naming.DirectoryName` returns "" for a path whose only separator opens it, such as "/A.cs", where `Path.GetDirectoryName` returns the root "/". It also keeps repeated separators before the file name, which .NET removes, and keeps `/` where .NET on Windows writes `\`. A root or empty path, for which .NET returns null, is modelled as "".
- `Text.NewLine` is fixed to "\n". `Environment.NewLine` of other platforms is not modelled.
- `ParentProcessUtilities`, its Win32 calls and their errors are left out. A process's parent is part of the `Process` value, so a cycle of parent processes (possible with reused process ids) cannot be expressed.
- The process chain is computed in full before the search. The C# enumeration is lazy and stops walking parents at the first match; this makes no difference to the result.
- The static settings `UseAutoApprover`, `Scrubber`, `Serializer` and `DefaultFailureReporterFactory` are passed as parameters, not held as global state. The factory is fixed to the default chain.
- Null strings and null objects are not modelled. `NewtonsoftJsonSerializer`, `InlineScrubber`'s delegate and `DefaultJsonDiffFormatter` are either parameters or single expressions.
- `src/ApprovalTestsExtensions/ApprovalTestsExtensions/ExplicitApprover.cs` is a superseded revision that does not compile. It is not part of this model.
- Exception message texts other than the ones quoted in the contracts are not modelled. This covers the wording of `SnapshotOverriddenException`.
