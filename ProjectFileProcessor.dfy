/** `ProjectFileProcessor`: which analyzer settings one project file gets,
    and how the outcome of processing it is reported. Settings, the Unity
    assembly-definition lookup, file existence and the XML parser are
    parameters. */
module Processor {
  import opened Wrappers
  import opened XmlTree
  import opened Modifier
  import opened ProjectFileCleanup
  import opened ProjectFileItems
  import Strings
  import PathUtilities
  import UnityPathUtilities
  import C = ProjectFileConstants

  const AssetsDirectory: string := "Assets"

  const StyleCopAnalyzersPackageName: string := "StyleCop.Analyzers"
  const StyleCopAnalyzersPackageVersion: string := "1.1.1-beta.61"
  const StyleCopAnalyzersUnstablePackageName: string := "StyleCop.Analyzers.Unstable"
  const StyleCopAnalyzersUnstablePackageVersion: string := "1.1.1.61"

  const StyleCopAnalyzersIncludeAssets: string := "runtime; build; native; contentfiles; analyzers"
  const StyleCopAnalyzersPrivateAssets: string := "all"

  const StylecopJsonFilePath: string := "stylecop.json"

  /** `ProjectProcessingResult`, in the order of its values 0, 1 and 2. */
  datatype ProjectProcessingResult = SuccessfullyProcessed | AlreadyWasProcessed | ProcessingFailed

  /** The two settings the processor reads. */
  datatype Settings = Settings(disableAddStyleCopAnalyzer: bool, enableVerboseLogging: bool)

  /** The processing report, holding the outcome; the elapsed time is not modelled. */
  datatype Report = Report(projectFilePath: string, assemblyDirectory: string,
                           processingResult: ProjectProcessingResult, exception: Option<string>)

  /** The content `ProcessProjectFile` returns: the text it was given, or
      the document `GetContent` saves (its serialisation is not modelled). */
  datatype ProjectContent = Original(text: string) | Saved(document: Document)

  /** What is injected into a project that was not processed before. */
  datatype Injection = NoInjection | StyleCopPackages | RemoveAnalyzersTargetOnly

  // ------------------------------------------------------------ paths

  /** `Path.DirectorySeparatorChar` or `Path.AltDirectorySeparatorChar`. */
  predicate IsDirectorySeparator(c: char, platformSeparator: char) {
    c == platformSeparator || c == '/'
  }

  /** `Path.IsPathRooted`, without drive letters. */
  predicate IsPathRooted(path: string, platformSeparator: char) {
    path != [] && IsDirectorySeparator(path[0], platformSeparator)
  }

  /** `Path.Combine(path1, path2)`: a rooted second part replaces the first;
      otherwise the parts are joined, with a separator unless the first
      part is empty or already ends with one. */
  function PathCombine(path1: string, path2: string, platformSeparator: char): (r: string)
    ensures IsPathRooted(path2, platformSeparator) ==> r == path2
    ensures !IsPathRooted(path2, platformSeparator) ==> |path1| + |path2| <= |r| <= |path1| + |path2| + 1
    ensures !IsPathRooted(path2, platformSeparator) ==> path1 <= r && r[|r| - |path2|..] == path2
    ensures !IsPathRooted(path2, platformSeparator) && |r| == |path1| + |path2| + 1 ==> r[|path1|] == platformSeparator
  {
    if path2 == [] then path1
    else if path1 == [] then path2
    else if IsPathRooted(path2, platformSeparator) then path2
    else if IsDirectorySeparator(path1[|path1| - 1], platformSeparator) then path1 + path2
    else path1 + [platformSeparator] + path2
  }

  /** A relative part is joined to a first part without a trailing
      separator by exactly one platform separator. */
  lemma PathCombineJoins(path1: string, path2: string, platformSeparator: char)
    requires path1 != [] && !IsDirectorySeparator(path1[|path1| - 1], platformSeparator)
    requires path2 != [] && !IsPathRooted(path2, platformSeparator)
    ensures PathCombine(path1, path2, platformSeparator) == path1 + [platformSeparator] + path2
  {
  }

  /** `UnityPathUtilities.UnityAssetsDirectory`, for a project root. */
  function UnityAssetsDirectory(projectRootDirectory: string, platformSeparator: char): string {
    PathCombine(projectRootDirectory, AssetsDirectory, platformSeparator)
  }

  /** `GetAssemblyDirectoryFromProjectFile` (ProjectFileProcessor.cs:158-174):
      the directory of the assembly definition of the project's assembly,
      or `Assets` when the assembly has none. The lookup stands for
      `CompilationPipeline.GetAssemblyDefinitionFilePathFromAssemblyName`,
      with the empty string for its null or empty result. */
  function GetAssemblyDirectoryFromProjectFile(path: string, assemblyDefinitionFilePath: string -> string): (r: string)
    ensures var file := assemblyDefinitionFilePath(UnityPathUtilities.GetFileNameWithoutExtension(path));
      file == [] ==> r == AssetsDirectory
    ensures var file := assemblyDefinitionFilePath(UnityPathUtilities.GetFileNameWithoutExtension(path));
      var n := UnityPathUtilities.NormalizeSlashesInPath(file);
      file != [] && r != [] ==> |r| < |n| && r == n[..|r|] && n[|r|] == '/' && '/' !in n[|r| + 1..]
    ensures var file := assemblyDefinitionFilePath(UnityPathUtilities.GetFileNameWithoutExtension(path));
      var n := UnityPathUtilities.NormalizeSlashesInPath(file);
      file != [] ==> (r == [] <==> forall i :: 1 <= i < |n| ==> n[i] != '/')
  {
    var assemblyName := UnityPathUtilities.GetFileNameWithoutExtension(path);
    var assemblyDefinitionFile := assemblyDefinitionFilePath(assemblyName);
    if assemblyDefinitionFile == [] then
      AssetsDirectory
    else
      UnityPathUtilities.GetDirectoryName(assemblyDefinitionFile)
  }

  /** The `stylecop.json` path the processor probes as written
      (ProjectFileProcessor.cs:49-51): below the Unity `Assets` directory,
      although the assembly directory already starts at the project root. */
  function StyleCopProbePathAsWritten(projectRootDirectory: string, normalizedAssemblyDirectory: string,
                                      platformSeparator: char): string
  {
    PathCombine(PathCombine(UnityAssetsDirectory(projectRootDirectory, platformSeparator),
                            normalizedAssemblyDirectory, platformSeparator),
                StylecopJsonFilePath, platformSeparator)
  }

  /** The corrected probe: the `stylecop.json` of the assembly directory,
      below the project root. */
  function StyleCopProbePath(projectRootDirectory: string, normalizedAssemblyDirectory: string,
                             platformSeparator: char): string
  {
    PathCombine(PathCombine(projectRootDirectory, normalizedAssemblyDirectory, platformSeparator),
                StylecopJsonFilePath, platformSeparator)
  }

  /** The path of the `AdditionalFiles` item `AddStyleCopPackage` adds,
      relative to the project root. */
  function StyleCopItemPath(assemblyDefinitionDirectory: string): string {
    UnityPathUtilities.Combine(assemblyDefinitionDirectory, StylecopJsonFilePath)
  }

  lemma StyleCopItemPathOfDirectory(directory: string)
    requires directory != [] && '\\' !in directory
    requires directory[0] != '/' && directory[|directory| - 1] != '/'
    ensures StyleCopItemPath(directory) == directory + "/" + StylecopJsonFilePath
  {
    UnityPathUtilities.NormalizeKeepsNormalizedPath(directory);
    UnityPathUtilities.NormalizeKeepsNormalizedPath(StylecopJsonFilePath);
    Strings.TrimOfTrimmed(directory, '/');
    Strings.TrimOfTrimmed(StylecopJsonFilePath, '/');
  }

  /** As written, on a Unix project root: the probe looks in a doubled
      `Assets` directory, never at the file the added item refers to. */
  lemma StyleCopProbeAsWrittenMissesItemFile(projectRootDirectory: string, assemblyDirectory: string)
    requires projectRootDirectory != [] && projectRootDirectory[|projectRootDirectory| - 1] != '/'
    requires assemblyDirectory != [] && '\\' !in assemblyDirectory
    requires assemblyDirectory[0] != '/' && assemblyDirectory[|assemblyDirectory| - 1] != '/'
    ensures StyleCopProbePathAsWritten(projectRootDirectory, assemblyDirectory, '/')
            == projectRootDirectory + "/" + AssetsDirectory + "/" + assemblyDirectory + "/" + StylecopJsonFilePath
    ensures StyleCopProbePathAsWritten(projectRootDirectory, assemblyDirectory, '/')
            != PathCombine(projectRootDirectory, StyleCopItemPath(assemblyDirectory), '/')
  {
    var root, directory, json := projectRootDirectory, assemblyDirectory, StylecopJsonFilePath;
    var assets := UnityAssetsDirectory(root, '/');
    PathCombineJoins(root, AssetsDirectory, '/');
    PathCombineJoins(assets, directory, '/');
    PathCombineJoins(assets + "/" + directory, json, '/');
    StyleCopItemPathOfDirectory(directory);
    PathCombineJoins(root, StyleCopItemPath(directory), '/');
    assert |PathCombine(root, StyleCopItemPath(directory), '/')| == |root| + |directory| + 2 + |json|;
  }

  /** The whole chain on a concrete project: the assembly definition
      `Assets/Foo/Foo.asmdef` of a project rooted at `/p` has the
      assembly directory `Assets/Foo`; the probe asks for
      `/p/Assets/Assets/Foo/stylecop.json`, while the item names
      `Assets/Foo/stylecop.json`, that is `/p/Assets/Foo/stylecop.json`. */
  lemma StyleCopProbeAsWrittenExample()
    ensures var lookup := (name: string) => "Assets/Foo/Foo.asmdef";
      var directory := GetAssemblyDirectoryFromProjectFile("/p/Foo.csproj", lookup);
      && directory == "Assets/Foo"
      && StyleCopProbePathAsWritten("/p", directory, '/') == "/p/Assets/Assets/Foo/stylecop.json"
      && PathCombine("/p", StyleCopItemPath(directory), '/') == "/p/Assets/Foo/stylecop.json"
  {
    ExampleAssemblyDirectory();
    StyleCopProbeAsWrittenMissesItemFile("/p", "Assets/Foo");
    ExampleProbeSpelledOut();
    StyleCopItemPathOfDirectory("Assets/Foo");
    ExampleItemSpelledOut();
    PathCombineJoins("/p", "Assets/Foo/stylecop.json", '/');
  }

  lemma ExampleAssemblyDirectory()
    ensures GetAssemblyDirectoryFromProjectFile("/p/Foo.csproj", (name: string) => "Assets/Foo/Foo.asmdef") == "Assets/Foo"
  {
    assert "Assets/Foo/Foo.asmdef" == "Assets/Foo" + ['/'] + "Foo.asmdef";
    UnityPathUtilities.DirectoryNameOfChild("Assets/Foo", "Foo.asmdef");
  }

  lemma ExampleProbeSpelledOut()
    ensures "/p" + "/" + AssetsDirectory + "/" + "Assets/Foo" + "/" + StylecopJsonFilePath
         == "/p/Assets/Assets/Foo/stylecop.json"
  {
  }

  lemma ExampleItemSpelledOut()
    ensures "Assets/Foo" + "/" + StylecopJsonFilePath == "Assets/Foo/stylecop.json"
    ensures "/p" + ['/'] + "Assets/Foo/stylecop.json" == "/p/Assets/Foo/stylecop.json"
  {
  }

  /** Corrected, on a Unix project root: the probe is the file the added
      `AdditionalFiles` item refers to, resolved against the project root. */
  lemma StyleCopProbeIsItemFile(projectRootDirectory: string, assemblyDirectory: string)
    requires projectRootDirectory != [] && projectRootDirectory[|projectRootDirectory| - 1] != '/'
    requires assemblyDirectory != [] && '\\' !in assemblyDirectory
    requires assemblyDirectory[0] != '/' && assemblyDirectory[|assemblyDirectory| - 1] != '/'
    ensures StyleCopProbePath(projectRootDirectory, PathUtilities.NormalizeSlashesInPath(assemblyDirectory, '/'), '/')
            == PathCombine(projectRootDirectory, StyleCopItemPath(assemblyDirectory), '/')
  {
    var root, directory, json := projectRootDirectory, assemblyDirectory, StylecopJsonFilePath;
    PathUtilities.NormalizeKeepsNormalizedPath(directory, '/');
    PathCombineJoins(root, directory, '/');
    PathCombineJoins(root + "/" + directory, json, '/');
    assert StyleCopProbePath(root, directory, '/') == (root + "/" + directory) + "/" + json;
    StyleCopItemPathOfDirectory(directory);
    var item := StyleCopItemPath(directory);
    PathCombineJoins(root, item, '/');
    assert PathCombine(root, item, '/') == root + "/" + (directory + "/" + json);
    Strings.ConcatAssoc(root + "/", directory + "/", json);
    Strings.ConcatAssoc(root + "/", directory, "/");
  }

  // ---------------------------------------------------------- outcome

  /** The outcome for a file: failed when its content does not parse
      (the `XmlException`, a `SystemException`, is caught), already
      processed when the marker comment is there, processed otherwise. */
  function ProcessingOutcome(parsed: Result<Document>): ProjectProcessingResult {
    match parsed
    case Failure(_) => ProcessingFailed
    case Success(document) =>
      if IsProcessedDocument(document) then AlreadyWasProcessed else SuccessfullyProcessed
  }

  /** What is injected into a project that was not processed before. */
  function ChosenInjection(settings: Settings, styleCopFileExists: bool): Injection {
    if settings.disableAddStyleCopAnalyzer then NoInjection
    else if styleCopFileExists then StyleCopPackages
    else RemoveAnalyzersTargetOnly
  }

  // ---------------------------------------------- the processed document

  /** The root a freshly parsed project has after `Parse`: cleaned up, with
      its attribute-less item groups taken out. */
  function ParsedRoot(document: Document, platformSeparator: char): Element {
    var cleaned := CleanupProject(document.root, platformSeparator);
    cleaned.(nodes := Unpicked(cleaned.nodes, PlainItemGroup))
  }

  /** The seven item lists `Parse` collects from that project. */
  function ParsedItemLists(document: Document, platformSeparator: char): seq<seq<Element>> {
    ParsedLists(CleanupProject(document.root, platformSeparator).nodes)
  }

  function StyleCopAnalyzersPackageItem(id: nat): Element {
    PackageReferenceItem(id, StyleCopAnalyzersPackageName, StyleCopAnalyzersPackageVersion,
                         StyleCopAnalyzersIncludeAssets, StyleCopAnalyzersPrivateAssets)
  }

  function StyleCopAnalyzersUnstablePackageItem(id: nat): Element {
    PackageReferenceItem(id, StyleCopAnalyzersUnstablePackageName, StyleCopAnalyzersUnstablePackageVersion,
                         StyleCopAnalyzersIncludeAssets, StyleCopAnalyzersPrivateAssets)
  }

  /** The seven lists after `AddStyleCopPackage`: each package reference, and
      the `AdditionalFiles` item for `itemPath`, is added unless an item with
      its path is there. */
  function WithStyleCopItems(lists: seq<seq<Element>>, packageId: nat, unstableId: nat, fileId: nat,
                             itemPath: string): seq<seq<Element>>
    requires |lists| == 7
  {
    var packages := WithNewItem(lists[3], StyleCopAnalyzersPackageName, StyleCopAnalyzersPackageItem(packageId));
    lists[3 := WithNewItem(packages, StyleCopAnalyzersUnstablePackageName, StyleCopAnalyzersUnstablePackageItem(unstableId))]
         [5 := WithNewItem(lists[5], itemPath, IncludeItem(fileId, C.AdditionalFilesElementName, itemPath))]
  }

  /** Afterwards both packages and the `stylecop.json` item are there, the
      two lists only grew, and the other lists are as they were. */
  lemma StyleCopItemsArePresent(lists: seq<seq<Element>>, packageId: nat, unstableId: nat, fileId: nat,
                                itemPath: string)
    requires |lists| == 7 && itemPath != []
    ensures var r := WithStyleCopItems(lists, packageId, unstableId, fileId, itemPath);
      && |r| == 7
      && (forall k :: 0 <= k < 7 && k != 3 && k != 5 ==> r[k] == lists[k])
      && lists[3] <= r[3] && |r[3]| <= |lists[3]| + 2
      && lists[5] <= r[5] && |r[5]| <= |lists[5]| + 1
      && HasItemWithPath(r[3], StyleCopAnalyzersPackageName)
      && HasItemWithPath(r[3], StyleCopAnalyzersUnstablePackageName)
      && HasItemWithPath(r[5], itemPath)
  {
    var file := IncludeItem(fileId, C.AdditionalFilesElementName, itemPath);
    StyleCopPackagesArePresent(lists[3], packageId, unstableId);
    IncludeItemMatchesItsPath(fileId, C.AdditionalFilesElementName, itemPath);
    WithNewItemIsIdempotent(lists[5], itemPath, file, file);
  }

  /** Both package references are there after they are added. */
  lemma StyleCopPackagesArePresent(packages: seq<Element>, packageId: nat, unstableId: nat)
    ensures var once := WithNewItem(packages, StyleCopAnalyzersPackageName, StyleCopAnalyzersPackageItem(packageId));
      var r := WithNewItem(once, StyleCopAnalyzersUnstablePackageName, StyleCopAnalyzersUnstablePackageItem(unstableId));
      && packages <= r && |r| <= |packages| + 2
      && HasItemWithPath(r, StyleCopAnalyzersPackageName)
      && HasItemWithPath(r, StyleCopAnalyzersUnstablePackageName)
  {
    var package, unstable := StyleCopAnalyzersPackageItem(packageId), StyleCopAnalyzersUnstablePackageItem(unstableId);
    PackageItemMatchesItsName(packageId, StyleCopAnalyzersPackageName, StyleCopAnalyzersPackageVersion);
    PackageItemMatchesItsName(unstableId, StyleCopAnalyzersUnstablePackageName, StyleCopAnalyzersUnstablePackageVersion);
    var once := WithNewItem(packages, StyleCopAnalyzersPackageName, package);
    WithNewItemIsIdempotent(packages, StyleCopAnalyzersPackageName, package, package);
    WithNewItemIsIdempotent(once, StyleCopAnalyzersUnstablePackageName, unstable, unstable);
    HasItemWithPathIsKept(once, StyleCopAnalyzersPackageName,
                          WithNewItem(once, StyleCopAnalyzersUnstablePackageName, unstable));
  }

  lemma PackageItemMatchesItsName(id: nat, packageName: string, version: string)
    requires packageName != []
    ensures IncludeMatches(PackageReferenceItem(id, packageName, version, StyleCopAnalyzersIncludeAssets,
                                                StyleCopAnalyzersPrivateAssets), packageName)
  {
    assert IncludeOf(PackageReferenceItem(id, packageName, version, StyleCopAnalyzersIncludeAssets,
                                          StyleCopAnalyzersPrivateAssets)) == Some(packageName);
  }

  /** What the chosen injection does to the parsed root and lists: nothing;
      the StyleCop items added to the lists; or the `RemoveAnalyzers` target,
      with the identity `targetId`, inserted after the last target. */
  ghost predicate Injected(injection: Injection, root: Element, lists: seq<seq<Element>>,
                           injectedRoot: Element, injectedLists: seq<seq<Element>>, targetId: nat, itemPath: string)
  {
    && |lists| == 7
    && match injection
       case NoInjection => injectedRoot == root && injectedLists == lists
       case StyleCopPackages =>
         && injectedRoot == root
         && exists packageId: nat, unstableId: nat, fileId: nat ::
              injectedLists == WithStyleCopItems(lists, packageId, unstableId, fileId, itemPath)
       case RemoveAnalyzersTargetOnly =>
         var q := InsertionIndex(GetElementBeforeTarget(root.nodes));
         && q <= |root.nodes|
         && injectedRoot == root.(nodes := InsertAt(root.nodes, q, Elem(RemoveAnalyzersTarget(targetId))))
         && injectedLists == lists
  }

  /** `sorted` holds the six item lists sorted by `Include`, and the other
      elements in their order. */
  ghost predicate SortedLists(sorted: seq<seq<Element>>, lists: seq<seq<Element>>) {
    && |sorted| == 7 && |lists| == 7
    && (forall k :: 0 <= k < 6 ==> SortedPermutation(sorted[k], lists[k]))
    && sorted[6] == lists[6]
  }

  /** `output` is `input` with `root` as its root, the non-empty lists as
      new item groups at the item group anchor, and the marker comment. */
  predicate Composed(input: Document, root: Element, lists: seq<seq<Element>>, firstId: nat, output: Document) {
    var p := ItemGroupPosition(root.nodes);
    && p <= |root.nodes|
    && output == Document(input.before + [Comment(ProcessedDocumentCommentText)],
                          root.(nodes := root.nodes[..p] + EmittedGroups(lists, firstId) + root.nodes[p..]),
                          input.after)
  }

  /** `output` is what processing makes of the parsed, unprocessed `input`:
      `Parse`, then the injection, then `Compose`. The identities of the new
      objects are left open. */
  ghost predicate ProcessedFrom(input: Document, output: Document, platformSeparator: char, injection: Injection,
                                assemblyDirectory: string)
  {
    var root := ParsedRoot(input, platformSeparator);
    var lists := ParsedItemLists(input, platformSeparator);
    var itemPath := PathUtilities.NormalizeSlashesInPath(StyleCopItemPath(assemblyDirectory), platformSeparator);
    exists injectedRoot: Element, injectedLists: seq<seq<Element>>, sorted: seq<seq<Element>>, targetId: nat,
           firstId: nat ::
      && Injected(injection, root, lists, injectedRoot, injectedLists, targetId, itemPath)
      && SortedLists(sorted, injectedLists)
      && Composed(input, injectedRoot, sorted, firstId, output)
  }

  /** The processing of the project file at `path`, with the injection the
      settings and the `stylecop.json` probe choose. */
  ghost predicate IsProcessingOf(path: string, input: Document, output: Document, settings: Settings,
                                 projectRootDirectory: string, platformSeparator: char,
                                 assemblyDefinitionFilePath: string -> string, styleCopFileExists: string -> bool)
  {
    var assemblyDirectory := GetAssemblyDirectoryFromProjectFile(path, assemblyDefinitionFilePath);
    var probe := StyleCopProbePath(projectRootDirectory,
                                   PathUtilities.NormalizeSlashesInPath(assemblyDirectory, platformSeparator),
                                   platformSeparator);
    ProcessedFrom(input, output, platformSeparator, ChosenInjection(settings, styleCopFileExists(probe)),
                  assemblyDirectory)
  }

  /** A second run refuses a processed file: its output carries the marker,
      so it is reported as already processed and returned unchanged. This
      is what keeps the pipeline from running twice; it says nothing about
      what a second full run would compute. */
  lemma ProcessingIsIdempotent(input: Document, output: Document, platformSeparator: char, injection: Injection,
                               assemblyDirectory: string)
    requires ProcessedFrom(input, output, platformSeparator, injection, assemblyDirectory)
    ensures ProcessingOutcome(Success(output)) == AlreadyWasProcessed
  {
    var root := ParsedRoot(input, platformSeparator);
    var lists := ParsedItemLists(input, platformSeparator);
    var itemPath := PathUtilities.NormalizeSlashesInPath(StyleCopItemPath(assemblyDirectory), platformSeparator);
    var injectedRoot, injectedLists, sorted, targetId, firstId :|
      && Injected(injection, root, lists, injectedRoot, injectedLists, targetId, itemPath)
      && SortedLists(sorted, injectedLists)
      && Composed(input, injectedRoot, sorted, firstId, output);
    assert output.before[|input.before|] == Comment(ProcessedDocumentCommentText);
  }

  /** The output keeps the root object, its name and attributes, and the
      nodes around the root; before the root it gains only the marker. */
  lemma ProcessingKeepsTheFrame(input: Document, output: Document, platformSeparator: char, injection: Injection,
                                assemblyDirectory: string)
    requires ProcessedFrom(input, output, platformSeparator, injection, assemblyDirectory)
    ensures output.before == input.before + [Comment(ProcessedDocumentCommentText)]
    ensures output.after == input.after
    ensures output.root.id == input.root.id && output.root.name == input.root.name
    ensures output.root.attributes == input.root.attributes
  {
    var root := ParsedRoot(input, platformSeparator);
    var lists := ParsedItemLists(input, platformSeparator);
    var itemPath := PathUtilities.NormalizeSlashesInPath(StyleCopItemPath(assemblyDirectory), platformSeparator);
    var injectedRoot, injectedLists, sorted, targetId, firstId :|
      && Injected(injection, root, lists, injectedRoot, injectedLists, targetId, itemPath)
      && SortedLists(sorted, injectedLists)
      && Composed(input, injectedRoot, sorted, firstId, output);
  }

  /** The report is printed when verbose logging is on or an exception was caught. */
  predicate ReportIsPrinted(settings: Settings, report: Report) {
    settings.enableVerboseLogging || report.exception.Some?
  }

  // -------------------------------------------------------- processing

  /** `AddStyleCopPackage` (ProjectFileProcessor.cs:137-148): both StyleCop
      packages and the `stylecop.json` of the assembly directory become
      items; nothing else changes. */
  method AddStyleCopPackage(projectFileModifier: ProjectFileModifier, assemblyDefinitionDirectory: string)
    requires projectFileModifier.parsed
    modifies projectFileModifier
    ensures projectFileModifier.parsed
    ensures projectFileModifier.projectFileDocument == old(projectFileModifier.projectFileDocument)
    ensures projectFileModifier.compiles == old(projectFileModifier.compiles)
    ensures projectFileModifier.references == old(projectFileModifier.references)
    ensures projectFileModifier.projectReferences == old(projectFileModifier.projectReferences)
    ensures projectFileModifier.analyzers == old(projectFileModifier.analyzers)
    ensures projectFileModifier.otherElements == old(projectFileModifier.otherElements)
    ensures HasItemWithPath(projectFileModifier.packageReferences, StyleCopAnalyzersPackageName)
    ensures HasItemWithPath(projectFileModifier.packageReferences, StyleCopAnalyzersUnstablePackageName)
    ensures HasItemWithPath(projectFileModifier.additionalFiles,
                            PathUtilities.NormalizeSlashesInPath(StyleCopItemPath(assemblyDefinitionDirectory),
                                                                 projectFileModifier.platformSeparator))
    ensures old(projectFileModifier.packageReferences) <= projectFileModifier.packageReferences
    ensures |projectFileModifier.packageReferences| <= |old(projectFileModifier.packageReferences)| + 2
    ensures old(projectFileModifier.additionalFiles) <= projectFileModifier.additionalFiles
    ensures |projectFileModifier.additionalFiles| <= |old(projectFileModifier.additionalFiles)| + 1
    ensures exists packageId: nat, unstableId: nat, fileId: nat ::
      AddsStyleCopItems(old(projectFileModifier.packageReferences), old(projectFileModifier.additionalFiles),
                        projectFileModifier.packageReferences, projectFileModifier.additionalFiles,
                        packageId, unstableId, fileId,
                        PathUtilities.NormalizeSlashesInPath(StyleCopItemPath(assemblyDefinitionDirectory),
                                                             projectFileModifier.platformSeparator))
  {
    var styleCopFilePath := StyleCopItemPath(assemblyDefinitionDirectory);
    StyleCopItemPathIsNotEmpty(assemblyDefinitionDirectory);
    ghost var packages, files, packageId :=
      projectFileModifier.packageReferences, projectFileModifier.additionalFiles, projectFileModifier.nextId;
    projectFileModifier.AddPackageReferenceProjectItem(StyleCopAnalyzersPackageName, StyleCopAnalyzersPackageVersion,
                                                       StyleCopAnalyzersIncludeAssets, StyleCopAnalyzersPrivateAssets);
    ghost var unstableId := projectFileModifier.nextId;
    projectFileModifier.AddPackageReferenceProjectItem(StyleCopAnalyzersUnstablePackageName,
                                                       StyleCopAnalyzersUnstablePackageVersion,
                                                       StyleCopAnalyzersIncludeAssets, StyleCopAnalyzersPrivateAssets);
    ghost var fileId := projectFileModifier.nextId;
    projectFileModifier.AddAdditionalFileProjectItem(styleCopFilePath);
    ghost var itemPath := PathUtilities.NormalizeSlashesInPath(styleCopFilePath, projectFileModifier.platformSeparator);
    StyleCopPackagesArePresent(packages, packageId, unstableId);
    IncludeItemMatchesItsPath(fileId, C.AdditionalFilesElementName, itemPath);
    WithNewItemIsIdempotent(files, itemPath, IncludeItem(fileId, C.AdditionalFilesElementName, itemPath),
                            IncludeItem(fileId, C.AdditionalFilesElementName, itemPath));
    assert AddsStyleCopItems(packages, files, projectFileModifier.packageReferences, projectFileModifier.additionalFiles,
                             packageId, unstableId, fileId, itemPath);
  }

  /** The package references and additional files after the StyleCop items
      with these identities are added to them. */
  predicate AddsStyleCopItems(packageReferences: seq<Element>, additionalFiles: seq<Element>,
                              newPackageReferences: seq<Element>, newAdditionalFiles: seq<Element>,
                              packageId: nat, unstableId: nat, fileId: nat, itemPath: string)
  {
    && newPackageReferences
       == WithNewItem(WithNewItem(packageReferences, StyleCopAnalyzersPackageName, StyleCopAnalyzersPackageItem(packageId)),
                      StyleCopAnalyzersUnstablePackageName, StyleCopAnalyzersUnstablePackageItem(unstableId))
    && newAdditionalFiles
       == WithNewItem(additionalFiles, itemPath, IncludeItem(fileId, C.AdditionalFilesElementName, itemPath))
  }

  /** The lists `AddStyleCopPackage` leaves, when it changes only the package
      references and the additional files. */
  lemma StyleCopListsAreUpdates(compiles: seq<Element>, references: seq<Element>, projectReferences: seq<Element>,
                                packageReferences: seq<Element>, analyzers: seq<Element>, additionalFiles: seq<Element>,
                                otherElements: seq<Element>, newPackageReferences: seq<Element>,
                                newAdditionalFiles: seq<Element>, packageId: nat, unstableId: nat, fileId: nat,
                                itemPath: string)
    requires AddsStyleCopItems(packageReferences, additionalFiles, newPackageReferences, newAdditionalFiles,
                               packageId, unstableId, fileId, itemPath)
    ensures [compiles, references, projectReferences, newPackageReferences, analyzers, newAdditionalFiles, otherElements]
         == WithStyleCopItems([compiles, references, projectReferences, packageReferences, analyzers, additionalFiles,
                               otherElements], packageId, unstableId, fileId, itemPath)
  {
  }

  lemma StyleCopItemPathIsNotEmpty(assemblyDefinitionDirectory: string)
    ensures StyleCopItemPath(assemblyDefinitionDirectory) != []
  {
    UnityPathUtilities.NormalizeKeepsNormalizedPath(StylecopJsonFilePath);
    Strings.TrimOfTrimmed(StylecopJsonFilePath, '/');
  }

  /** `AddRemoveAnalyzersTask` (ProjectFileProcessor.cs:150-155): the
      `RemoveAnalyzers` target becomes the last target; the lists do not change. */
  method AddRemoveAnalyzersTask(projectFileModifier: ProjectFileModifier)
    modifies projectFileModifier
    ensures projectFileModifier.parsed == old(projectFileModifier.parsed)
    ensures projectFileModifier.Lists() == old(projectFileModifier.Lists())
    ensures var d := old(projectFileModifier.projectFileDocument);
      var q := InsertionIndex(GetElementBeforeTarget(d.root.nodes));
      && q <= |d.root.nodes|
      && projectFileModifier.projectFileDocument
         == d.(root := d.root.(nodes := InsertAt(d.root.nodes, q, Elem(RemoveAnalyzersTarget(old(projectFileModifier.nextId))))))
    ensures Named(projectFileModifier.projectFileDocument.root.nodes, C.TargetElementName)
         == Named(old(projectFileModifier.projectFileDocument.root.nodes), C.TargetElementName)
            + [RemoveAnalyzersTarget(old(projectFileModifier.nextId))]
  {
    projectFileModifier.AddRemoveAnalyzersTarget();
  }

  /** Lists `Compose` sorted: each item list a sorted permutation of its
      old one, the other elements as they were. */
  lemma SortedListsOf(compiles: seq<Element>, references: seq<Element>, projectReferences: seq<Element>,
                      packageReferences: seq<Element>, analyzers: seq<Element>, additionalFiles: seq<Element>,
                      otherElements: seq<Element>, lists: seq<seq<Element>>)
    requires |lists| == 7
    requires SortedPermutation(compiles, lists[0]) && SortedPermutation(references, lists[1])
    requires SortedPermutation(projectReferences, lists[2]) && SortedPermutation(packageReferences, lists[3])
    requires SortedPermutation(analyzers, lists[4]) && SortedPermutation(additionalFiles, lists[5])
    requires otherElements == lists[6]
    ensures SortedLists([compiles, references, projectReferences, packageReferences, analyzers, additionalFiles,
                         otherElements], lists)
  {
    var sorted := [compiles, references, projectReferences, packageReferences, analyzers, additionalFiles, otherElements];
    forall k | 0 <= k < 6 ensures SortedPermutation(sorted[k], lists[k]) {
      if k == 0 {} else if k == 1 {} else if k == 2 {} else if k == 3 {} else if k == 4 {} else {}
    }
  }

  /** The three steps, with the parsed state a unique document yields,
      make up a processing. */
  lemma ProcessedFromSteps(input: Document, output: Document, platformSeparator: char, injection: Injection,
                           assemblyDirectory: string, parsedRoot: Element, parsedLists: seq<seq<Element>>,
                           injectedRoot: Element, injectedLists: seq<seq<Element>>, sorted: seq<seq<Element>>,
                           targetId: nat, firstId: nat)
    requires parsedRoot == ParsedRoot(input, platformSeparator)
    requires parsedLists == ParsedItemLists(input, platformSeparator)
    requires Injected(injection, parsedRoot, parsedLists, injectedRoot, injectedLists, targetId,
                      PathUtilities.NormalizeSlashesInPath(StyleCopItemPath(assemblyDirectory), platformSeparator))
    requires SortedLists(sorted, injectedLists)
    requires Composed(input, injectedRoot, sorted, firstId, output)
    ensures ProcessedFrom(input, output, platformSeparator, injection, assemblyDirectory)
  {
  }

  /** The injection step of `ProcessProjectFile` (ProjectFileProcessor.cs:65-75). */
  method Inject(projectFileModifier: ProjectFileModifier, settings: Settings, styleCopFileExists: bool,
                assemblyDirectory: string)
    returns (ghost injection: Injection)
    requires projectFileModifier.parsed
    modifies projectFileModifier
    ensures projectFileModifier.parsed
    ensures injection == ChosenInjection(settings, styleCopFileExists)
    ensures projectFileModifier.projectFileDocument.before == old(projectFileModifier.projectFileDocument.before)
    ensures projectFileModifier.projectFileDocument.after == old(projectFileModifier.projectFileDocument.after)
    ensures Injected(injection, old(projectFileModifier.projectFileDocument.root), old(projectFileModifier.Lists()),
                     projectFileModifier.projectFileDocument.root, projectFileModifier.Lists(), old(projectFileModifier.nextId),
                     PathUtilities.NormalizeSlashesInPath(StyleCopItemPath(assemblyDirectory),
                                                          projectFileModifier.platformSeparator))
  {
    injection := NoInjection;
    if !settings.disableAddStyleCopAnalyzer {
      if styleCopFileExists {
        ghost var packages, files := projectFileModifier.packageReferences, projectFileModifier.additionalFiles;
        AddStyleCopPackage(projectFileModifier, assemblyDirectory);
        injection := StyleCopPackages;
        ghost var itemPath := PathUtilities.NormalizeSlashesInPath(StyleCopItemPath(assemblyDirectory),
                                                                   projectFileModifier.platformSeparator);
        ghost var packageId: nat, unstableId: nat, fileId: nat :|
          AddsStyleCopItems(packages, files, projectFileModifier.packageReferences, projectFileModifier.additionalFiles,
                            packageId, unstableId, fileId, itemPath);
        StyleCopListsAreUpdates(projectFileModifier.compiles, projectFileModifier.references,
                                projectFileModifier.projectReferences, packages, projectFileModifier.analyzers, files,
                                projectFileModifier.otherElements, projectFileModifier.packageReferences,
                                projectFileModifier.additionalFiles, packageId, unstableId, fileId, itemPath);
      } else {
        AddRemoveAnalyzersTask(projectFileModifier);
        injection := RemoveAnalyzersTargetOnly;
      }
    }
  }

  /** The path of `ProcessProjectFile` for a project not processed before
      (ProjectFileProcessor.cs:63-79): `Parse`, the injection, `Compose`
      and `GetContent`. */
  method ProcessUnprocessed(projectFileModifier: ProjectFileModifier, settings: Settings, styleCopFileExists: bool,
                            assemblyDirectory: string)
    returns (savedDocument: Document, ghost injection: Injection)
    modifies projectFileModifier
    ensures injection == ChosenInjection(settings, styleCopFileExists)
    ensures IsProcessedDocument(savedDocument)
    ensures Unique(old(projectFileModifier.projectFileDocument.root.nodes)) ==>
      ProcessedFrom(old(projectFileModifier.projectFileDocument), savedDocument, projectFileModifier.platformSeparator,
                    injection, assemblyDirectory)
  {
    ghost var document := projectFileModifier.projectFileDocument;
    projectFileModifier.Parse();
    ghost var parsedRoot, parsedLists := projectFileModifier.projectFileDocument.root, projectFileModifier.Lists();
    ghost var targetId := projectFileModifier.nextId;
    injection := Inject(projectFileModifier, settings, styleCopFileExists, assemblyDirectory);
    ghost var injectedDocument, injectedLists := projectFileModifier.projectFileDocument, projectFileModifier.Lists();
    ghost var firstId := projectFileModifier.nextId;
    savedDocument := ComposeAndSave(projectFileModifier);
    if Unique(document.root.nodes) {
      ProcessedFromSteps(document, savedDocument, projectFileModifier.platformSeparator, injection, assemblyDirectory,
                         parsedRoot, parsedLists, injectedDocument.root, injectedLists, projectFileModifier.Lists(),
                         targetId, firstId);
    }
  }

  /** The last step of `ProcessProjectFile` (ProjectFileProcessor.cs:77-79):
      `Compose`, then `GetContent`. */
  method ComposeAndSave(projectFileModifier: ProjectFileModifier) returns (savedDocument: Document)
    requires projectFileModifier.parsed
    modifies projectFileModifier
    ensures IsProcessedDocument(savedDocument)
    ensures SortedLists(projectFileModifier.Lists(), old(projectFileModifier.Lists()))
    ensures Composed(old(projectFileModifier.projectFileDocument), old(projectFileModifier.projectFileDocument.root),
                     projectFileModifier.Lists(), old(projectFileModifier.nextId), savedDocument)
  {
    projectFileModifier.Compose();
    savedDocument := projectFileModifier.GetContent();
    SortedListsOf(projectFileModifier.compiles, projectFileModifier.references, projectFileModifier.projectReferences,
                  projectFileModifier.packageReferences, projectFileModifier.analyzers,
                  projectFileModifier.additionalFiles, projectFileModifier.otherElements,
                  old(projectFileModifier.Lists()));
  }

  /** `ProcessProjectFile` (ProjectFileProcessor.cs:30-101). `parsed` is
      what `XDocument.Parse` makes of `content`; `settings` is what
      `CsharpProjectToolsSettings.Load` returns; `styleCopFileExists` stands
      for `File.Exists`. The `stylecop.json` probe is the corrected one (see
      `StyleCopProbePathAsWritten`). The flag is true exactly when the file
      was processed now, and then the content is the processed document;
      otherwise the content is returned as it came. */
  method ProcessProjectFile(path: string, content: string, parsed: Result<Document>, settings: Settings,
                            projectRootDirectory: string, platformSeparator: char,
                            assemblyDefinitionFilePath: string -> string, styleCopFileExists: string -> bool)
    returns (modified: bool, modifiedContent: ProjectContent, report: Report, reportPrinted: bool,
             ghost injection: Injection)
    ensures report.projectFilePath == path
    ensures report.assemblyDirectory == GetAssemblyDirectoryFromProjectFile(path, assemblyDefinitionFilePath)
    ensures report.processingResult == ProcessingOutcome(parsed)
    ensures report.exception == if parsed.Failure? then Some(parsed.error) else None
    ensures reportPrinted <==> ReportIsPrinted(settings, report)
    ensures modified <==> report.processingResult == SuccessfullyProcessed
    ensures !modified ==> modifiedContent == Original(content) && injection == NoInjection
    ensures modified ==>
      && modifiedContent.Saved?
      && IsProcessedDocument(modifiedContent.document)
      && injection == ChosenInjection(settings, styleCopFileExists(StyleCopProbePath(
           projectRootDirectory,
           PathUtilities.NormalizeSlashesInPath(GetAssemblyDirectoryFromProjectFile(path, assemblyDefinitionFilePath),
                                                platformSeparator),
           platformSeparator)))
    ensures modified ==>
      && parsed.Success?
      && (Unique(parsed.value.root.nodes) ==>
            IsProcessingOf(path, parsed.value, modifiedContent.document, settings, projectRootDirectory, platformSeparator,
                           assemblyDefinitionFilePath, styleCopFileExists))
  {
    var assemblyDirectory := GetAssemblyDirectoryFromProjectFile(path, assemblyDefinitionFilePath);
    var normalizedAssemblyDirectory := PathUtilities.NormalizeSlashesInPath(assemblyDirectory, platformSeparator);
    var fullStyleCopFilePath := StyleCopProbePath(projectRootDirectory, normalizedAssemblyDirectory, platformSeparator);
    injection := NoInjection;
    var processingResult;
    var exception: Option<string> := None;
    match parsed {
      case Failure(error) =>
        exception := Some(error);
        processingResult := ProcessingFailed;
        modifiedContent := Original(content);
      case Success(document) =>
        var projectFileModifier := new ProjectFileModifier(document, platformSeparator);
        var alreadyProcessed := projectFileModifier.IsAlreadyProcessed();
        if alreadyProcessed {
          processingResult := AlreadyWasProcessed;
          modifiedContent := Original(content);
        } else {
          var savedDocument;
          savedDocument, injection := ProcessUnprocessed(projectFileModifier, settings,
                                                         styleCopFileExists(fullStyleCopFilePath), assemblyDirectory);
          modifiedContent := Saved(savedDocument);
          processingResult := SuccessfullyProcessed;
        }
    }
    report := Report(path, assemblyDirectory, processingResult, exception);
    reportPrinted := settings.enableVerboseLogging || report.exception.Some?;
    modified := report.processingResult == SuccessfullyProcessed;
  }
}
