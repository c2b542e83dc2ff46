# C# Project Tools for Unity — project file normalisation, modelled in Dafny

Silver's C# Project Tools rewrite the MSBuild `.csproj` files that Unity
generates. Each file goes through the same steps:

1. The `DefineConstants` lists are sorted.
2. Path separators in `Compile` includes and `Reference` hint paths are normalised.
3. Every item inside an attribute-less `ItemGroup` is pulled into one of seven
   lists: Compile, Reference, ProjectReference, PackageReference, Analyzer,
   AdditionalFiles and other.
4. Depending on the settings and on whether a `stylecop.json` exists, StyleCop
   analyzer packages and their additional file are added, or else a
   `RemoveAnalyzers` target.
5. Each list is sorted by `Include` and written back as one `ItemGroup` per
   non-empty list, placed after the last `ItemGroup` (else after the last
   `PropertyGroup`, else first).
6. A marker comment is stamped before the root, so the next run leaves the file
   alone.

A file watcher collects the names of changed project files and processes them
in batches.

The model has one module per source file, plus a few supporting modules. All
modules sit directly under this directory.

Path utilities:
- `PathUtilities` models `PathUtilities.NormalizeSlashesInPath`. The platform
  separator is a parameter.
- `UnityPathUtilities` models the forward-slash path functions: directory name,
  file name, name without extension, and `Combine`.
- `Strings` models the .NET string primitives those functions use: `IndexOf`,
  `LastIndexOf`, `Trim*`, `Split` with empty entries removed, `Join`, and
  ordinal comparison.
- `Sorting` is a sort function with its sorted-permutation contract.

XML:
- `XmlTree` is the XML tree as a value. A document is the nodes before the
  root, the root element, and the nodes after it. An element has an identity
  `id`, which stands for an XLinq object's identity, plus a name, attributes
  and child nodes. Its text is the concatenation of its text nodes.
- `XmlProjectFileUtilities` models the tree queries and the detach operation
  (`RemoveAllElements`). The loops over children are methods proved against
  functions on the tree.
- `ProjectFileConstants` holds the element and attribute names.

Project file modifier:
- `ProjectFileCleanup` models the three in-place clean-up passes of
  `ProjectFileModifier` as maps over the root's children.
- `ProjectFileItems` has the specification functions for `ParseProject`:
  which items a pass takes, and what the tree is after they are detached.
- `Modifier` (ProjectFileModifier.dfy) is the `ProjectFileModifier` class. It
  holds the document, the seven lists as `seq` fields, a `parsed` stage flag,
  and the next fresh identity. It is specified stage by stage with `old(...)`.

Processor and watcher:
- `Processor` (ProjectFileProcessor.dfy) models `ProcessProjectFile` and its
  helpers. The parse result, the settings and the assembly-definition lookup
  are parameters, and so is `File.Exists`.
- `Watcher` (ProjectFileChangeWatcher.dfy) models the pending-file set of
  `ProjectFileChangeWatcher`:
  - a class whose `OnFileChanged` adds or removes a name;
  - a drain that swaps the set out;
  - a loop that processes every drained name, with file reading, parsing and
    writing as parameters.

Two points where the model follows the C# code to the letter:
- `GetDirectoryName("//")` is `"/"`, not the empty string: the last
  separator is at index 1, and only a last separator below index 1 gives
  the empty string (`UnityPathUtilities.DirectoryNameOfDoubleSeparator`).
- The `ProjectProcessingReport` class has no `ProcessingResult` property,
  although `ProjectFileProcessor.cs:57` sets one. The model's `Report`
  datatype carries the outcome.

## Model

| member | source | states |
|---|---|---|
| PathUtilities.DirectorySeparators | Editor/PathUtilities.cs:20-24 | the valid separator is the platform's; the invalid one is a slash different from it |
| PathUtilities.SeparatorsAreTheTwoSlashes | Editor/PathUtilities.cs:20-24 | the two separators are exactly `/` and `\` in some order, whichever the platform separator |
| PathUtilities.NormalizeSlashesInPath | Editor/PathUtilities.cs:12-18 | length is kept, every invalid separator becomes the valid one, every other character stays where it was, and no invalid separator remains |
| PathUtilities.NormalizeKeepsNormalizedPath | Editor/PathUtilities.cs:12-18 | a path without the invalid separator comes back unchanged |
| PathUtilities.NormalizeIsIdempotent | Editor/PathUtilities.cs:12-18 | normalising twice is normalising once |
| PathUtilities.NormalizeTestTableShort | Editor.Test/PathUtilitiesTest.cs:39-41 | rows `""`, `/`, `\` of the test table; also `foo.bar` (line 46) |
| PathUtilities.NormalizeTestTableSlashEnclosed | Editor.Test/PathUtilitiesTest.cs:42-43 | `/foo/` and `/foo\` become separator, `foo`, separator |
| PathUtilities.NormalizeTestTableBackslashEnclosed | Editor.Test/PathUtilitiesTest.cs:44-45 | `\foo/` and `\foo\` become separator, `foo`, separator |
| PathUtilities.NormalizeTestTableForward | Editor.Test/PathUtilitiesTest.cs:47 | `foo/bar.baz` keeps its one separator as the platform's |
| PathUtilities.NormalizeTestTableBackward | Editor.Test/PathUtilitiesTest.cs:48 | `foo\bar.baz` gets the platform separator |
| UnityPathUtilities.NormalizeSlashesInPath | Editor/UnityPathUtilities.cs:46-59 | length is kept and no `\` remains |
| UnityPathUtilities.NormalizeMapsEachCharacter | Editor/UnityPathUtilities.cs:46-59 | each `\` becomes `/` and every other character is kept at its index |
| UnityPathUtilities.NormalizeKeepsNormalizedPath | Editor/UnityPathUtilities.cs:46-59 | a path without `\` is returned unchanged |
| UnityPathUtilities.NormalizeIsIdempotent | Editor/UnityPathUtilities.cs:46-59 | normalising twice is normalising once |
| UnityPathUtilities.GetFileNameLength | Editor/UnityPathUtilities.cs:168-183 | the counted tail holds no `/` and is preceded by a `/` unless it is the whole path |
| UnityPathUtilities.GetDirectoryName | Editor/UnityPathUtilities.cs:61-78 | empty when the last `/` of the normalised path is at index below 1; otherwise the normalised path up to that `/` |
| UnityPathUtilities.GetFileName | Editor/UnityPathUtilities.cs:102-119 | the file name is no longer than the path and holds no `/`; FileNameIsLastName states that it is the longest `/`-free suffix of the normalised path |
| UnityPathUtilities.FileNameIsLastName | Editor/UnityPathUtilities.cs:102-119 | the file name is a suffix of the normalised path with no `/`, preceded by `/` whenever it is shorter than the path |
| UnityPathUtilities.DirectoryNameAndFileNameReassemble | Editor/UnityPathUtilities.cs:61-119 | with a non-empty directory name, directory name + `/` + file name is the normalised path; otherwise the path is the file name, with at most one `/` before it |
| UnityPathUtilities.DirectoryNameOfChild | Editor/UnityPathUtilities.cs:61-78 | the directory name of `d/f` is `d`, for a non-empty `d` without `\` and an `f` without separators |
| UnityPathUtilities.FileNameOfChild | Editor/UnityPathUtilities.cs:102-119 | the file name of `d/f` is `f` when `f` has no separator |
| UnityPathUtilities.FileNameOfName | Editor/UnityPathUtilities.cs:102-119 | a name without separators is its own file name |
| UnityPathUtilities.GetFileNameWithoutExtension | Editor/UnityPathUtilities.cs:121-156 | the result is no longer than the path and holds no `/`; FileNameWithoutExtensionIsNameBeforeLastDot states that it is the file name cut before its last `.` |
| UnityPathUtilities.FileNameWithoutExtensionIsNameBeforeLastDot | Editor/UnityPathUtilities.cs:121-156 | the result is the file name cut before its last `.`, or the whole file name when it has no `.`, so a `.` in a directory is never taken |
| UnityPathUtilities.ExtensionIsRemoved | Editor/UnityPathUtilities.cs:121-156 | a file name `base.ext` with no `.` in `ext` gives `base` |
| UnityPathUtilities.NameWithoutDotIsKept | Editor/UnityPathUtilities.cs:121-156 | a file name without `.` is returned whole |
| UnityPathUtilities.Combine | Editor/UnityPathUtilities.cs:80-100 | the result never begins or ends with `/` and holds no `\`; its value follows from CombineIgnoresOuterSeparators, the two separators-only lemmas, CombineOfTrimmedParts and Strings.TrimIsSlice |
| UnityPathUtilities.StrippedPartIsStable | Editor/UnityPathUtilities.cs:84-87 | a part already normalised and stripped of `/` at both ends is unchanged by normalising and stripping it again |
| UnityPathUtilities.CombineIgnoresOuterSeparators | Editor/UnityPathUtilities.cs:80-100 | combining the parts gives the same path as combining them once they are normalised and stripped of `/` at both ends, so only those stripped parts matter |
| UnityPathUtilities.CombineWithSeparatorsOnlyFirst | Editor/UnityPathUtilities.cs:80-100 | a first part of separators only is dropped, and the result is the stripped second part with no `/` added |
| UnityPathUtilities.CombineWithSeparatorsOnlySecond | Editor/UnityPathUtilities.cs:80-100 | a second part of separators only is dropped, and the result is the stripped first part with no `/` added |
| UnityPathUtilities.CombineOfTrimmedParts | Editor/UnityPathUtilities.cs:80-100 | two non-empty parts without `\` and without `/` at their ends are joined by exactly one `/`, unchanged |
| UnityPathUtilities.CombineKeepsInnerDoubleSeparator | Editor/UnityPathUtilities.cs:80-100 | `a//b` combined with `c` is `a//b/c`: a doubled `/` inside a part stays |
| UnityPathUtilities.CombineConcatenatesNames | Editor/UnityPathUtilities.cs:80-100 | the path names of the result are those of the first path followed by those of the second |
| UnityPathUtilities.CombineIsAssociativeOnNames | Editor/UnityPathUtilities.cs:80-100 | combining is associative on path names |
| UnityPathUtilities.DirectoryNameOfNestedPath | Editor.Test/UnityPathUtilitiesTest.cs:148 | `foo/bar/baz` has directory `foo/bar` |
| UnityPathUtilities.DirectoryNameBelowRoot | Editor.Test/UnityPathUtilitiesTest.cs:141 | `/foo.bar` has an empty directory name |
| UnityPathUtilities.DirectoryNameOfDoubleSeparator | Editor/UnityPathUtilities.cs:61-78 | `//` has directory name `/`, since the last separator is at index 1 |
| UnityPathUtilities.FileNameOfNestedPath | Editor.Test/UnityPathUtilitiesTest.cs:187 | `foo/bar/baz` has file name `baz` |
| UnityPathUtilities.ExtensionOnlyName | Editor.Test/UnityPathUtilitiesTest.cs:209 | `.foo` without extension is empty |
| UnityPathUtilities.ExtensionOfDoubleDottedName | Editor.Test/UnityPathUtilitiesTest.cs:204 | `foo.bar.baz` loses only `.baz` |
| UnityPathUtilities.ExtensionOfTrailingDot | Editor.Test/UnityPathUtilitiesTest.cs:213 | `./foo.` gives `foo`; the leading `.` directory is not searched |
| UnityPathUtilities.CombineWithSeparatorOnly | Editor.Test/UnityPathUtilitiesTest.cs:164 | `/` combined with `foo` is `foo` |
| UnityPathUtilities.CombineTwoRelativePaths | Editor.Test/UnityPathUtilitiesTest.cs:168 | `foo/bar` combined with `baz/qux` is `foo/bar/baz/qux` |
| Strings.LastIndexOf | Editor/UnityPathUtilities.cs:68 | -1 exactly when the character is absent; otherwise an index holding it with none after |
| Strings.LastIndexOfRangeIsLastInRange | Editor/UnityPathUtilities.cs:136 | the ranged search finds the last occurrence inside the window, or -1 when the window has none |
| Strings.TrimIsSlice | Editor/UnityPathUtilities.cs:86-87 | the trimmed string is a slice with no trim character at either end, and everything cut off is the trim character |
| Strings.TrimOfSeparatorsOnly | Editor/UnityPathUtilities.cs:86-87 | a string made only of the trim character trims to the empty string |
| Strings.SplitJoin | Editor/ProjectFileModifier.cs:418-420 | splitting a join of non-empty, separator-free parts gives the parts back |
| Strings.SplitOfTrim | Editor/UnityPathUtilities.cs:86-87 | trimming separators does not change the non-empty segments |
| Strings.OrdinalIsTotalOrder | Editor/ProjectFileModifier.cs:419 | ordinal string comparison is a total order |
| Strings.SortOrdinal | Editor/ProjectFileModifier.cs:419 | the result is an ordinally sorted permutation of the input |
| Sorting.SortBy | Editor/ProjectFileModifier.cs:63-68 | the result is sorted under the given total preorder and is a permutation |
| Sorting.SortedPermutationIsUnique | Editor/ProjectFileModifier.cs:419 | under a total order there is only one sorted permutation |
| Sorting.SortByIsIdempotent | Editor/ProjectFileModifier.cs:419 | sorting a sorted sequence again changes nothing |
| XmlTree.AttributeValue | Editor/ProjectFileModifier.cs:247 | a value is found exactly when an attribute of that name exists, and it is that attribute's value |
| XmlTree.SetAttributeValue | Editor/ProjectFileModifier.cs:381 | names are kept; an existing attribute takes the new value; every attribute of another name is kept as it was; without one nothing changes |
| XmlTree.SetValue | Editor/ProjectFileModifier.cs:400 | identity, name and attributes are kept; the text becomes the value and no child element remains |
| XmlTree.PruneTwice | Editor/XmlProjectFileUtilities.cs:14-28 | detaching one set and then another is detaching their union |
| XmlTree.PruneIds | Editor/XmlProjectFileUtilities.cs:14-28 | detaching never adds an identity and leaves none of the detached ones |
| XmlTree.NamedInsertAfterLast | Editor/ProjectFileModifier.cs:270 | inserting a named element after the last one of its name appends it to the named children |
| XmlProjectFileUtilities.Filter | Editor/XmlProjectFileUtilities.cs:53 | exactly the elements the filter accepts are kept (all of them without a filter) |
| XmlProjectFileUtilities.RemoveAllElements | Editor/XmlProjectFileUtilities.cs:14-28 | the root's tree is pruned of exactly the listed elements the filter accepts; afterwards none of them is in it and no identity was added |
| XmlProjectFileUtilities.CreateElementWithItems | Editor/XmlProjectFileUtilities.cs:31-41 | a new element of that name, without attributes, whose children are the given elements in order |
| XmlProjectFileUtilities.GetElements | Editor/XmlProjectFileUtilities.cs:44-60 | the direct children of that name the filter accepts, in document order; an element is listed iff it is such a child |
| XmlProjectFileUtilities.GetLastElementWithName | Editor/XmlProjectFileUtilities.cs:63-76 | none iff no child has the name; otherwise the last child with it |
| XmlProjectFileUtilities.ElementIsEmptyMeansNoChildElements | Editor/XmlProjectFileUtilities.cs:78-90 | an element is empty iff it has no attributes and no child elements |
| ProjectFileCleanup.SplitOfSortedDefines | Editor/ProjectFileModifier.cs:417-421 | the non-empty segments of the sorted defines are the ordinal sort of the original non-empty segments |
| ProjectFileCleanup.SortedDefinesHasNoEmptySegments | Editor/ProjectFileModifier.cs:418-420 | the sorted defines have no empty `;` segment |
| ProjectFileCleanup.SortedDefinesIsSortedPermutation | Editor/ProjectFileModifier.cs:418-420 | the segments are ordinally sorted, and their multiset is that of the original non-empty segments, duplicates kept |
| ProjectFileCleanup.SortedDefinesIsIdempotent | Editor/ProjectFileModifier.cs:417-421 | sorting the defines twice is sorting them once |
| ProjectFileCleanup.SortDefines | Editor/ProjectFileModifier.cs:405-424 | only `PropertyGroup` children of the root change; every root child element keeps its identity, name and attributes (inside a group: `DefinesAreSorted`, `SortDefinesKeepsOtherChildren`) |
| ProjectFileCleanup.DefinesAreSorted | Editor/ProjectFileModifier.cs:405-424 | every `DefineConstants` in a `PropertyGroup` keeps its identity and gets the sorted defines as its only content |
| ProjectFileCleanup.SortDefinesKeepsOtherChildren | Editor/ProjectFileModifier.cs:405-424 | a `PropertyGroup` keeps its number of children, and every child that is not a `DefineConstants` stays as it was |
| ProjectFileCleanup.SortDefinesIsIdempotent | Editor/ProjectFileModifier.cs:405-424 | the pass changes nothing the second time |
| ProjectFileCleanup.NormalizeIncludePaths | Editor/ProjectFileModifier.cs:367-384 | only attribute-less `ItemGroup`s change; every root child element keeps identity, name and attributes (inside a group: `IncludePathsAreNormalized`, `NormalizeIncludePathsKeepsOtherChildren`) |
| ProjectFileCleanup.IncludePathsAreNormalized | Editor/ProjectFileModifier.cs:367-384 | every `Compile` in such a group keeps its identity, name and children; its `Include` is the normalised old `Include` (none iff it had none), with no invalid separator; every other attribute is kept |
| ProjectFileCleanup.NormalizeIncludePathsKeepsOtherChildren | Editor/ProjectFileModifier.cs:367-384 | such a group keeps its number of children, and every child that is not a `Compile` stays as it was |
| ProjectFileCleanup.NormalizeIncludePathsIsIdempotent | Editor/ProjectFileModifier.cs:367-384 | the pass changes nothing the second time |
| ProjectFileCleanup.NormalizeHintPaths | Editor/ProjectFileModifier.cs:386-403 | only attribute-less `ItemGroup`s change; every root child element keeps identity, name and attributes (inside a group: `HintPathsAreNormalized`, `NormalizeHintPathsKeepsOtherItems`, `NormalizeHintPathsKeepsOtherChildren`) |
| ProjectFileCleanup.HintPathsAreNormalized | Editor/ProjectFileModifier.cs:386-403 | every `HintPath` of a `Reference` in such a group keeps identity, name and attributes and gets the normalised text of its old text, with no invalid separator |
| ProjectFileCleanup.NormalizeHintPathsKeepsOtherItems | Editor/ProjectFileModifier.cs:386-403 | such a group keeps its number of children, and every child that is not a `Reference` stays as it was |
| ProjectFileCleanup.NormalizeHintPathsKeepsOtherChildren | Editor/ProjectFileModifier.cs:386-403 | a `Reference` in such a group keeps identity, name, attributes and number of children, and every child that is not a `HintPath` stays as it was |
| ProjectFileCleanup.CleanupProject | Editor/ProjectFileModifier.cs:426-433 | only property groups and attribute-less item groups change, and every root child element keeps identity, name and attributes |
| ProjectFileCleanup.CleanupKeepsIdentity | Editor/ProjectFileModifier.cs:426-433 | clean-up adds no identity and keeps the tree's identities distinct |
| ProjectFileItems.RemovingGroupItemsIsStrip | Editor/XmlProjectFileUtilities.cs:14-28 | detaching the items a pass took empties exactly those items out of the attribute-less groups, and keeps identities distinct |
| ProjectFileItems.CollectOthers | Editor/ProjectFileModifier.cs:457-466 | after the six typed passes, the other items are the remaining children of attribute-less groups, and detaching them leaves those groups without child elements |
| ProjectFileItems.EmptyGroupsAfterStripAll | Editor/ProjectFileModifier.cs:468-469 | removing empty groups after all items are taken removes exactly the attribute-less item groups |
| ProjectFileItems.OnlyAttributedGroupsRemain | Editor/ProjectFileModifier.cs:468-469 | afterwards every root `ItemGroup` has attributes, and all other root nodes are kept |
| ProjectFileItems.ParsedListsPartitionItems | Editor/ProjectFileModifier.cs:435-470 | the seven lists together hold, as a multiset, exactly the child elements of the attribute-less groups |
| Modifier.IncludeComparerIsTotalPreorder | Editor/ProjectFileModifier.cs:333-342 | the comparer is a total preorder; two items tie iff they have the same `Include` or both have none |
| Modifier.SortByInclude | Editor/ProjectFileModifier.cs:63-68 | a permutation sorted by `Include`, missing `Include` first |
| Modifier.PackageReferenceItemShape | Editor/ProjectFileModifier.cs:117-168 | the new item has `Include` = package name and a `Version` child, then `IncludeAssets` and then `PrivateAssets` children, each only when non-empty |
| Modifier.WithNewItemIsIdempotent | Editor/ProjectFileModifier.cs:91-115 | after an add the path is present, and a second add of that path changes nothing |
| Modifier.IncludeItemMatchesItsPath | Editor/ProjectFileModifier.cs:111-112 | a new item is found by its own path iff the path is not empty |
| Modifier.GetElementBeforeItemGroup | Editor/ProjectFileModifier.cs:296-316 | any anchor found is a root child element |
| Modifier.ElementBeforeItemGroupIsLastGroup | Editor/ProjectFileModifier.cs:296-316 | the anchor is the last `ItemGroup`, else the last `PropertyGroup`; none iff the root has neither |
| Modifier.GetElementBeforeTarget | Editor/ProjectFileModifier.cs:318-331 | the last `Target` when there is one, else the item-group anchor |
| Modifier.AnchorAfterRun | Editor/ProjectFileModifier.cs:257-277 | after a run of item groups is inserted at the anchor, the next anchor is the end of that run, so consecutive groups stay in order |
| Modifier.InsertedTargetIsLast | Editor/ProjectFileModifier.cs:279-294 | the inserted target becomes the last `Target` and is appended to the targets |
| Modifier.EmittedGroupsHoldTheLists | Editor/ProjectFileModifier.cs:70-76 | one attribute-less group per non-empty list, whose items are the lists concatenated in order |
| Modifier.ProjectFileModifier.constructor | Editor/ProjectFileModifier.cs:27-32 | the modifier holds the document, is unparsed, its lists are empty, and fresh identities lie above the document's |
| Modifier.ProjectFileModifier.IsAlreadyProcessed | Editor/ProjectFileModifier.cs:34-50 | true iff a top-level comment equals the marker |
| Modifier.ProjectFileModifier.GetElementsFromItemGroup | Editor/ProjectFileModifier.cs:344-365 | the children of that name of every attribute-less root `ItemGroup`, group by group in document order |
| Modifier.ProjectFileModifier.CollectOtherElements | Editor/ProjectFileModifier.cs:457-464 | every child element of every attribute-less root `ItemGroup`, in document order |
| Modifier.ProjectFileModifier.Parse | Editor/ProjectFileModifier.cs:52-57 | the root becomes the cleaned-up root without its attribute-less item groups, and the lists are those parsed from the cleaned root; nodes around the root are kept |
| Modifier.ProjectFileModifier.ParseProject | Editor/ProjectFileModifier.cs:435-470 | each list holds its kind's items from the attribute-less groups, in document order; the other list holds all the rest; those groups disappear |
| Modifier.ProjectFileModifier.TakeListedKinds | Editor/ProjectFileModifier.cs:439-455 | the six typed lists are their kinds' group items of the original root, and the root is left with those items detached |
| Modifier.ProjectFileModifier.RemoveEmptyItemGroups | Editor/ProjectFileModifier.cs:468-469 | exactly the empty item groups are detached |
| Modifier.ProjectFileModifier.SearchForProjectItemInCollection | Editor/ProjectFileModifier.cs:238-255 | the least index whose non-empty `Include` equals the path ignoring case, or -1 iff there is none |
| Modifier.ProjectFileModifier.AddCompileProjectItem | Editor/ProjectFileModifier.cs:91-115 | an empty or already present (normalised) path changes nothing; otherwise one new `Compile` with that `Include` is appended; the other lists are unchanged |
| Modifier.ProjectFileModifier.AddAnalyzerProjectItem | Editor/ProjectFileModifier.cs:186-210 | as for Compile, on the analyzer list |
| Modifier.ProjectFileModifier.AddAdditionalFileProjectItem | Editor/ProjectFileModifier.cs:212-236 | as for Compile, on the additional-files list |
| Modifier.ProjectFileModifier.AddPackageReferenceProjectItem | Editor/ProjectFileModifier.cs:117-168 | nothing changes for an empty name or version or a name already present; otherwise the package item is appended; the other lists are unchanged |
| Modifier.ProjectFileModifier.AddRemoveAnalyzersTarget | Editor/ProjectFileModifier.cs:170-184 | the `RemoveAnalyzers` target is inserted at the target anchor and becomes the last `Target`; the lists are unchanged |
| Modifier.ProjectFileModifier.AddTarget | Editor/ProjectFileModifier.cs:279-294 | the target goes after the anchor, or first without one, and is then the last `Target` |
| Modifier.ProjectFileModifier.AddItemGroupIfNotEmpty | Editor/ProjectFileModifier.cs:257-277 | nothing for an empty list; otherwise one new group of the items inserted after the anchor, or first |
| Modifier.ProjectFileModifier.SortItemLists | Editor/ProjectFileModifier.cs:63-68 | each typed list becomes a sorted permutation of itself; the other list and the document are unchanged |
| Modifier.ProjectFileModifier.AddItemGroupsAndMarker | Editor/ProjectFileModifier.cs:70-79 | the groups of the non-empty lists appear as one run at the item-group anchor, and the marker comment goes before the root |
| Modifier.ProjectFileModifier.Compose | Editor/ProjectFileModifier.cs:59-80 | the typed lists are sorted permutations, the other list keeps its order, one group per non-empty list is inserted as a run at the anchor, and the document is then marked processed |
| Modifier.ProjectFileModifier.GetContent | Editor/ProjectFileModifier.cs:82-89 | the content is the modifier's document (serialisation is not modelled) |
| Processor.PathCombine | Editor/ProjectFileProcessor.cs:51 | a rooted second path wins; otherwise the result starts with the first path and ends with the second, and when it is one longer than both the character between them is the platform separator |
| Processor.PathCombineJoins | Editor/ProjectFileProcessor.cs:51 | two plain paths are joined by exactly one platform separator |
| Processor.GetAssemblyDirectoryFromProjectFile | Editor/ProjectFileProcessor.cs:158-174 | `Assets` when the lookup for the project's name is empty; otherwise the normalised assembly-definition path up to its last `/`, and empty exactly when that path has no `/` after index 0 |
| Processor.StyleCopItemPathOfDirectory | Editor/ProjectFileProcessor.cs:142 | the additional file is `<assembly directory>/stylecop.json` |
| Processor.StyleCopProbeAsWrittenMissesItemFile | Editor/ProjectFileProcessor.cs:49-51 | the probe as written is `<root>/Assets/<assembly directory>/stylecop.json`, which is not the file the item refers to |
| Processor.StyleCopProbeAsWrittenExample | Editor/ProjectFileProcessor.cs:49-51 | for root `/p` and definition `Assets/Foo/Foo.asmdef` the probe is `/p/Assets/Assets/Foo/stylecop.json` |
| Processor.StyleCopProbeIsItemFile | Editor/ProjectFileProcessor.cs:49-51 | the corrected probe is the item file below the project root |
| Processor.ProcessingIsIdempotent | Editor/ProjectFileProcessor.cs:55-60 | a document the processing relation makes carries the marker, so a second run refuses it as already processed; this is a fact about the marker, not about what a second full run would compute |
| Processor.ProcessingKeepsTheFrame | Editor/ProjectFileProcessor.cs:53-79 | the processed document keeps the root object, its name and attributes and the nodes after the root, and gains only the marker before it |
| Processor.StyleCopItemsArePresent | Editor/ProjectFileProcessor.cs:137-148 | after the StyleCop items are added both packages and the `stylecop.json` item are there, the two lists only grew, by at most two and one, and the other lists are unchanged |
| Processor.StyleCopPackagesArePresent | Editor/ProjectFileProcessor.cs:139-145 | adding both packages keeps the old references as a prefix, appends at most two, and leaves both packages present |
| Processor.AddStyleCopPackage | Editor/ProjectFileProcessor.cs:137-148 | each StyleCop package reference and the `stylecop.json` item is appended unless one with its path is there; both packages and the item are then present, and no other list and not the document changed |
| Processor.AddRemoveAnalyzersTask | Editor/ProjectFileProcessor.cs:150-155 | the remove-analyzers target is inserted at the target anchor, so it is appended to the targets; nothing else in the document and no list changes |
| Processor.Inject | Editor/ProjectFileProcessor.cs:65-75 | the injection chosen by the settings and the probe is applied: nothing, the StyleCop items, or the target; the nodes around the root are kept |
| Processor.ComposeAndSave | Editor/ProjectFileProcessor.cs:77-79 | the saved document is the document with the sorted lists emitted as groups at the anchor and the marker added; the typed lists are sorted permutations |
| Processor.ProcessUnprocessed | Editor/ProjectFileProcessor.cs:63-79 | the saved document is marked, and for a document of distinct objects it is exactly parse, chosen injection and compose of the input |
| Processor.ProcessProjectFile | Editor/ProjectFileProcessor.cs:30-101 | the outcome is failed on a parse error, already-processed with the marker, processed otherwise; the flag is true iff processed; otherwise the original content comes back; the report is printed iff verbose or failed; a processed document is the parse, injection and compose of the parsed input |
| Watcher.AfterEvent | Editor/ProjectFileChangeWatcher.cs:101-111 | a non-delete event puts its name in the set, a delete takes it out, other names are unchanged |
| Watcher.LastEventDecides | Editor/ProjectFileChangeWatcher.cs:101-111 | after any events a name is pending iff its last event was not a delete (or, without events, iff it was pending) |
| Watcher.ChangeThenDeleteRemoves | Editor/ProjectFileChangeWatcher.cs:103-110 | change then delete leaves the name absent |
| Watcher.DeleteThenChangeKeeps | Editor/ProjectFileChangeWatcher.cs:103-110 | delete then change leaves the name present |
| Watcher.RepeatedEventIsIdempotent | Editor/ProjectFileChangeWatcher.cs:36 | repeating an event changes nothing |
| Watcher.EventsOnDifferentNamesCommute | Editor/ProjectFileChangeWatcher.cs:101-111 | events on different names commute |
| Watcher.ProcessFile | Editor/ProjectFileChangeWatcher.cs:73-93 | a file is written back iff it reads, processes to modified and the write succeeds; an error is logged iff reading or writing fails; the written document is the processing of the file's parsed text |
| Watcher.ProcessFiles | Editor/ProjectFileChangeWatcher.cs:71-94 | every drained name gets exactly one outcome, decided as for one file, so one failure does not stop the others; every written document is the processing of its file's parsed text |
| Watcher.ProjectFileChangeWatcher.constructor | Editor/ProjectFileChangeWatcher.cs:32-58 | nothing is pending |
| Watcher.ProjectFileChangeWatcher.OnFileChanged | Editor/ProjectFileChangeWatcher.cs:97-114 | the pending set becomes the set after the event |
| Watcher.ProjectFileChangeWatcher.TakeFilesToProcess | Editor/ProjectFileChangeWatcher.cs:64-69 | the previous set is returned and nothing is left pending |
| Watcher.ProjectFileChangeWatcher.OnTimerElapsed | Editor/ProjectFileChangeWatcher.cs:60-95 | the set is drained; every drained name is written back, logged as an error or left unmodified exactly as `ProcessFile` decides, and a written document is the processing of the text read |

## Left out

- XML text: parsing (`XDocument.Parse`) and saving through `Utf8StringWriter` are not modelled. The processor takes the parse result as a parameter, and `GetContent` returns the document itself.
- Modifier.SortByInclude: ordinal order is modelled as the order of the characters' scalar values. .NET compares UTF-16 code units, which differs for characters outside the Basic Multilingual Plane.
- Strings.SortOrdinal: the same scalar-value order stands for `StringComparer.Ordinal`, with the same gap outside the Basic Multilingual Plane.
- `OrdinalIgnoreCase` in `SearchForProjectItemInCollection` is modelled by folding ASCII letters only; full Unicode case folding is not modelled.
- Modifier.ProjectFileModifier.Compose: `List.Sort` is unstable, so the contract states sorted-and-permutation only. The order of items with equal `Include` is not fixed.
- Modifier.ProjectFileModifier.Parse: states the result only for a document whose nodes are distinct objects, which a parsed document always is. Identity is modelled by `id`, and sharing is not modelled.
- Processor.ProcessProjectFile: probes the corrected `stylecop.json` path (`StyleCopProbePath`), not the path `ProjectFileProcessor.cs:51` builds (see Findings). Where only `<root>/<assembly directory>/stylecop.json` exists, the C# code adds the `RemoveAnalyzers` target and the model adds the StyleCop packages.
- Processor.ProcessProjectFile: the saved document is pinned up to the identities of the new objects, and only for a parsed document of distinct objects, as for `Parse`. The order of items with equal `Include` is left open, as for `Compose`.
- Watcher.ProcessFile: the written document is pinned as for `Processor.ProcessProjectFile`, with the same two limits.
- Processor.PathCombine: `Path.Combine`'s rooted test knows only a leading separator. Windows drive roots and invalid-character checks are not modelled.
- Exceptions: only the failures the model has inputs for are modelled. These are the parse error, a read error and a write error. Null-argument checks are not modelled, because Dafny strings are never null.
- `Report.ExecutionTimeMs` and the `Stopwatch`: timing is not modelled. So is the text of `PrintReport` and of the log messages; the model records only whether the report is printed.
- File system and Unity calls: `File.Exists`, `File.ReadAllText`, `File.WriteAllText`, `CompilationPipeline.GetAssemblyDefinitionFilePathFromAssemblyName` and `CsharpProjectToolsSettings.Load` are function parameters. `Application.dataPath` (the project root, from the static constructor and `GetProjectRootDirectory` in `UnityPathUtilities.cs`) is a parameter too.
- The watcher's `Timer`, `lock` and `FileSystemWatcher` registration are not modelled. Events arrive as a sequence of calls; concurrency is abstracted away.
- `VisualStudioBridgeHook`, `FileWatcherHook` and the settings persistence are not part of this model.

## Findings

| source | as written | input that shows it | evidently intended | confidence | as-written member | corrected member |
|---|---|---|---|---|---|---|
| Editor/ProjectFileProcessor.cs:51 | the `stylecop.json` probe joins the Unity `Assets` directory with the assembly directory, which already starts with `Assets` | project root `/p`, assembly definition `Assets/Foo/Foo.asmdef`: the probe is `/p/Assets/Assets/Foo/stylecop.json`, while the added item is `Assets/Foo/stylecop.json` below `/p` | probe the file the `AdditionalFiles` item refers to: `<root>/<assembly directory>/stylecop.json` | not executed | Processor.StyleCopProbeAsWrittenMissesItemFile, Processor.StyleCopProbeAsWrittenExample | Processor.StyleCopProbeIsItemFile |
