/** The clean-up the project file modifier applies to a freshly parsed
    project before it collects its items: defines are sorted, and include
    and hint paths inside attribute-less item groups get the platform's
    directory separator. Each step rewrites the root element in place; here
    it is the function from the root before the step to the root after it. */
module ProjectFileCleanup {
  import opened Wrappers
  import opened XmlTree
  import opened XmlProjectFileUtilities
  import Strings
  import Sorting
  import PathUtilities
  import C = ProjectFileConstants

  // ------------------------------------------------------------ SortDefines

  /** The `DefineConstants` text `SortDefines` writes back: the non-empty
      `;`-separated defines, in ordinal order, joined with `;`. */
  function SortedDefines(concatenatedDefines: string): string {
    Strings.Join(Strings.SortOrdinal(Strings.Split(concatenatedDefines, C.DefineConstantsSeparator)),
                 C.DefineConstantsSeparator)
  }

  /** Splitting the sorted text again gives the sorted defines back. */
  lemma SplitOfSortedDefines(concatenatedDefines: string)
    ensures var defines := Strings.Split(concatenatedDefines, C.DefineConstantsSeparator);
      Strings.Split(SortedDefines(concatenatedDefines), C.DefineConstantsSeparator) == Strings.SortOrdinal(defines)
  {
    var sorted := Strings.SortOrdinal(Strings.Split(concatenatedDefines, C.DefineConstantsSeparator));
    forall k | 0 <= k < |sorted|
      ensures sorted[k] != [] && C.DefineConstantsSeparator !in sorted[k]
    {
      assert sorted[k] in multiset(sorted);
    }
    Strings.SplitJoin(sorted, C.DefineConstantsSeparator);
  }

  /** The sorted text has no empty define: no leading, trailing or doubled
      separator (unless there is no define at all and the text is empty). */
  lemma SortedDefinesHasNoEmptySegments(concatenatedDefines: string)
    ensures var r := SortedDefines(concatenatedDefines);
      r == [] || forall k :: 0 <= k < |Strings.Segments(r, ';')| ==> Strings.Segments(r, ';')[k] != []
  {
    var sorted := Strings.SortOrdinal(Strings.Split(concatenatedDefines, C.DefineConstantsSeparator));
    forall k | 0 <= k < |sorted|
      ensures sorted[k] != [] && C.DefineConstantsSeparator !in sorted[k]
    {
      assert sorted[k] in multiset(sorted);
    }
    if sorted != [] {
      Strings.SegmentsJoin(sorted, C.DefineConstantsSeparator);
    }
  }

  /** The defines come out in non-decreasing ordinal order, and they are the
      same defines, duplicates included. */
  lemma SortedDefinesIsSortedPermutation(concatenatedDefines: string)
    ensures var defines := Strings.Split(concatenatedDefines, ';');
      var sorted := Strings.Split(SortedDefines(concatenatedDefines), ';');
      Sorting.SortedBy(sorted, Strings.OrdinalLessOrEqual) && multiset(sorted) == multiset(defines)
  {
    SplitOfSortedDefines(concatenatedDefines);
  }

  /** Sorting sorted defines changes nothing. */
  lemma SortedDefinesIsIdempotent(concatenatedDefines: string)
    ensures SortedDefines(SortedDefines(concatenatedDefines)) == SortedDefines(concatenatedDefines)
  {
    var once := SortedDefines(concatenatedDefines);
    var defines := Strings.Split(concatenatedDefines, ';');
    SplitOfSortedDefines(concatenatedDefines);
    Strings.OrdinalIsTotalOrder();
    Sorting.SortedPermutationIsUnique(Strings.SortOrdinal(Strings.SortOrdinal(defines)),
                                      Strings.SortOrdinal(defines), Strings.OrdinalLessOrEqual);
  }

  predicate IsPropertyGroup(e: Element) {
    e.name == C.PropertyGroupElementName
  }

  predicate IsDefineConstants(e: Element) {
    e.name == C.DefineConstantsElementName
  }

  function SortDefinesOf(definesElement: Element): Element {
    SetValue(definesElement, SortedDefines(Value(definesElement.nodes)))
  }

  function SortDefinesInGroup(propertyGroup: Element): Element {
    propertyGroup.(nodes := MapChildren(propertyGroup.nodes, IsDefineConstants, SortDefinesOf))
  }

  /** `SortDefines` (ProjectFileModifier.cs:405-424): the value of every
      `DefineConstants` child of every `PropertyGroup` child of the root is
      replaced by its sorted defines; nothing else changes. */
  function SortDefines(projectRoot: Element): (r: Element)
    ensures r.id == projectRoot.id && r.name == projectRoot.name && r.attributes == projectRoot.attributes
    ensures |r.nodes| == |projectRoot.nodes|
    ensures forall i :: 0 <= i < |r.nodes| ==>
              (projectRoot.nodes[i].Elem? && IsPropertyGroup(projectRoot.nodes[i].element)) || r.nodes[i] == projectRoot.nodes[i]
    ensures forall i :: 0 <= i < |r.nodes| && projectRoot.nodes[i].Elem? ==>
              && r.nodes[i].Elem?
              && r.nodes[i].element.id == projectRoot.nodes[i].element.id
              && r.nodes[i].element.name == projectRoot.nodes[i].element.name
              && r.nodes[i].element.attributes == projectRoot.nodes[i].element.attributes
  {
    projectRoot.(nodes := MapChildren(projectRoot.nodes, IsPropertyGroup, SortDefinesInGroup))
  }

  /** Each `DefineConstants` of a `PropertyGroup` keeps its object, name and
      attributes, and its value becomes the sorted defines of its old value. */
  lemma DefinesAreSorted(projectRoot: Element, i: nat, j: nat)
    requires i < |projectRoot.nodes| && projectRoot.nodes[i].Elem? && IsPropertyGroup(projectRoot.nodes[i].element)
    requires j < |projectRoot.nodes[i].element.nodes|
    requires projectRoot.nodes[i].element.nodes[j].Elem? && IsDefineConstants(projectRoot.nodes[i].element.nodes[j].element)
    ensures var defines := SortDefines(projectRoot).nodes[i].element.nodes[j].element;
      var before := projectRoot.nodes[i].element.nodes[j].element;
      && defines.id == before.id && defines.name == before.name && defines.attributes == before.attributes
      && Value(defines.nodes) == SortedDefines(Value(before.nodes))
      && ChildElements(defines.nodes) == []
  {
  }

  /** Every other child of a `PropertyGroup` stays as it was. */
  lemma SortDefinesKeepsOtherChildren(projectRoot: Element, i: nat)
    requires i < |projectRoot.nodes| && projectRoot.nodes[i].Elem? && IsPropertyGroup(projectRoot.nodes[i].element)
    ensures var group := SortDefines(projectRoot).nodes[i].element;
      var before := projectRoot.nodes[i].element;
      && |group.nodes| == |before.nodes|
      && forall j :: 0 <= j < |before.nodes| && !(before.nodes[j].Elem? && IsDefineConstants(before.nodes[j].element)) ==>
           group.nodes[j] == before.nodes[j]
  {
  }

  /** Sorting the defines of a project whose defines are sorted changes nothing. */
  lemma SortDefinesIsIdempotent(projectRoot: Element)
    ensures SortDefines(SortDefines(projectRoot)) == SortDefines(projectRoot)
  {
    forall d: Element ensures SortDefinesOf(SortDefinesOf(d)) == SortDefinesOf(d) {
      SortedDefinesIsIdempotent(Value(d.nodes));
    }
    forall g: Element ensures SortDefinesInGroup(SortDefinesInGroup(g)) == SortDefinesInGroup(g) {
      var once := SortDefinesInGroup(g);
      assert SortDefinesInGroup(once).nodes == once.nodes;
    }
    var once := SortDefines(projectRoot);
    assert SortDefines(once).nodes == once.nodes;
  }

  // --------------------------------------------------- NormalizeIncludePaths

  /** A direct root item group without attributes: the only kind of group
      whose items the modifier touches. */
  predicate IsPlainItemGroup(e: Element) {
    e.name == C.ItemGroupElementName && ElementHasNoAttributes(e)
  }

  predicate IsCompile(e: Element) {
    e.name == C.CompileElementName
  }

  function NormalizeIncludeOf(compile: Element, platformSeparator: char): Element {
    match AttributeValue(compile.attributes, C.IncludeAttributeName)
    case None => compile
    case Some(includePath) =>
      compile.(attributes := SetAttributeValue(compile.attributes, C.IncludeAttributeName,
                                               PathUtilities.NormalizeSlashesInPath(includePath, platformSeparator)))
  }

  function NormalizeIncludesInGroup(itemGroup: Element, platformSeparator: char): Element {
    itemGroup.(nodes := MapChildren(itemGroup.nodes, IsCompile, c => NormalizeIncludeOf(c, platformSeparator)))
  }

  /** `NormalizeIncludePaths` (ProjectFileModifier.cs:367-384): the `Include`
      of every `Compile` item in an attribute-less root item group gets the
      platform's separators; nothing else changes. */
  function NormalizeIncludePaths(projectRoot: Element, platformSeparator: char): (r: Element)
    ensures r.id == projectRoot.id && r.name == projectRoot.name && r.attributes == projectRoot.attributes
    ensures |r.nodes| == |projectRoot.nodes|
    ensures forall i :: 0 <= i < |r.nodes| ==>
              (projectRoot.nodes[i].Elem? && IsPlainItemGroup(projectRoot.nodes[i].element)) || r.nodes[i] == projectRoot.nodes[i]
    ensures forall i :: 0 <= i < |r.nodes| && projectRoot.nodes[i].Elem? ==>
              && r.nodes[i].Elem?
              && r.nodes[i].element.id == projectRoot.nodes[i].element.id
              && r.nodes[i].element.name == projectRoot.nodes[i].element.name
              && r.nodes[i].element.attributes == projectRoot.nodes[i].element.attributes
  {
    projectRoot.(nodes := MapChildren(projectRoot.nodes, IsPlainItemGroup,
                                      g => NormalizeIncludesInGroup(g, platformSeparator)))
  }

  /** Each `Compile` item of a plain item group keeps its object, name and
      children; its `Include` is the normalised old one, free of the invalid
      separator, and its other attributes are kept. */
  lemma IncludePathsAreNormalized(projectRoot: Element, platformSeparator: char, i: nat, j: nat)
    requires i < |projectRoot.nodes| && projectRoot.nodes[i].Elem? && IsPlainItemGroup(projectRoot.nodes[i].element)
    requires j < |projectRoot.nodes[i].element.nodes|
    requires projectRoot.nodes[i].element.nodes[j].Elem? && IsCompile(projectRoot.nodes[i].element.nodes[j].element)
    ensures var compile := NormalizeIncludePaths(projectRoot, platformSeparator).nodes[i].element.nodes[j].element;
      var before := projectRoot.nodes[i].element.nodes[j].element;
      var includePath := AttributeValue(compile.attributes, C.IncludeAttributeName);
      && compile.id == before.id && compile.name == before.name && compile.nodes == before.nodes
      && includePath == (match AttributeValue(before.attributes, C.IncludeAttributeName)
                         case None => None
                         case Some(v) => Some(PathUtilities.NormalizeSlashesInPath(v, platformSeparator)))
      && (includePath.Some? ==> PathUtilities.DirectorySeparators(platformSeparator).invalid !in includePath.value)
      && |compile.attributes| == |before.attributes|
      && forall k :: 0 <= k < |before.attributes| && before.attributes[k].name != C.IncludeAttributeName ==>
           compile.attributes[k] == before.attributes[k]
  {
  }

  /** Every child of a plain item group other than a `Compile` item stays as it was. */
  lemma NormalizeIncludePathsKeepsOtherChildren(projectRoot: Element, platformSeparator: char, i: nat)
    requires i < |projectRoot.nodes| && projectRoot.nodes[i].Elem? && IsPlainItemGroup(projectRoot.nodes[i].element)
    ensures var group := NormalizeIncludePaths(projectRoot, platformSeparator).nodes[i].element;
      var before := projectRoot.nodes[i].element;
      && |group.nodes| == |before.nodes|
      && forall j :: 0 <= j < |before.nodes| && !(before.nodes[j].Elem? && IsCompile(before.nodes[j].element)) ==>
           group.nodes[j] == before.nodes[j]
  {
  }

  /** Normalising normalised include paths changes nothing. */
  lemma NormalizeIncludePathsIsIdempotent(projectRoot: Element, platformSeparator: char)
    ensures var once := NormalizeIncludePaths(projectRoot, platformSeparator);
      NormalizeIncludePaths(once, platformSeparator) == once
  {
    forall c: Element
      ensures NormalizeIncludeOf(NormalizeIncludeOf(c, platformSeparator), platformSeparator)
           == NormalizeIncludeOf(c, platformSeparator)
    {
      var v := AttributeValue(c.attributes, C.IncludeAttributeName);
      if v.Some? {
        var n := PathUtilities.NormalizeSlashesInPath(v.value, platformSeparator);
        PathUtilities.NormalizeIsIdempotent(v.value, platformSeparator);
        SetAttributeValueTwice(c.attributes, C.IncludeAttributeName, n);
      }
    }
    forall g: Element
      ensures NormalizeIncludesInGroup(NormalizeIncludesInGroup(g, platformSeparator), platformSeparator)
           == NormalizeIncludesInGroup(g, platformSeparator)
    {
      var once := NormalizeIncludesInGroup(g, platformSeparator);
      assert NormalizeIncludesInGroup(once, platformSeparator).nodes == once.nodes;
    }
    var once := NormalizeIncludePaths(projectRoot, platformSeparator);
    assert NormalizeIncludePaths(once, platformSeparator).nodes == once.nodes;
  }

  /** Setting an attribute to the value it already has changes nothing. */
  lemma {:induction false} SetAttributeValueTwice(attributes: seq<Attribute>, name: string, value: string)
    ensures var once := SetAttributeValue(attributes, name, value);
      SetAttributeValue(once, name, value) == once
  {
    if attributes != [] && attributes[0].name != name {
      SetAttributeValueTwice(attributes[1..], name, value);
    }
  }

  // ------------------------------------------------------ NormalizeHintPaths

  predicate IsReference(e: Element) {
    e.name == C.ReferenceElementName
  }

  predicate IsHintPath(e: Element) {
    e.name == C.HintPathElementName
  }

  function NormalizeHintPathOf(hintPath: Element, platformSeparator: char): Element {
    SetValue(hintPath, PathUtilities.NormalizeSlashesInPath(Value(hintPath.nodes), platformSeparator))
  }

  function NormalizeHintPathsOf(reference: Element, platformSeparator: char): Element {
    reference.(nodes := MapChildren(reference.nodes, IsHintPath, h => NormalizeHintPathOf(h, platformSeparator)))
  }

  function NormalizeHintPathsInGroup(itemGroup: Element, platformSeparator: char): Element {
    itemGroup.(nodes := MapChildren(itemGroup.nodes, IsReference, r => NormalizeHintPathsOf(r, platformSeparator)))
  }

  /** `NormalizeHintPaths` (ProjectFileModifier.cs:386-403): the text of every
      `HintPath` of every `Reference` item in an attribute-less root item group
      gets the platform's separators; nothing else changes. */
  function NormalizeHintPaths(projectRoot: Element, platformSeparator: char): (r: Element)
    ensures r.id == projectRoot.id && r.name == projectRoot.name && r.attributes == projectRoot.attributes
    ensures |r.nodes| == |projectRoot.nodes|
    ensures forall i :: 0 <= i < |r.nodes| ==>
              (projectRoot.nodes[i].Elem? && IsPlainItemGroup(projectRoot.nodes[i].element)) || r.nodes[i] == projectRoot.nodes[i]
    ensures forall i :: 0 <= i < |r.nodes| && projectRoot.nodes[i].Elem? ==>
              && r.nodes[i].Elem?
              && r.nodes[i].element.id == projectRoot.nodes[i].element.id
              && r.nodes[i].element.name == projectRoot.nodes[i].element.name
              && r.nodes[i].element.attributes == projectRoot.nodes[i].element.attributes
  {
    projectRoot.(nodes := MapChildren(projectRoot.nodes, IsPlainItemGroup,
                                      g => NormalizeHintPathsInGroup(g, platformSeparator)))
  }

  /** Afterwards every such `HintPath` text is free of the invalid separator. */
  lemma HintPathsAreNormalized(projectRoot: Element, platformSeparator: char, i: nat, j: nat, k: nat)
    requires i < |projectRoot.nodes| && projectRoot.nodes[i].Elem? && IsPlainItemGroup(projectRoot.nodes[i].element)
    requires j < |projectRoot.nodes[i].element.nodes|
    requires projectRoot.nodes[i].element.nodes[j].Elem? && IsReference(projectRoot.nodes[i].element.nodes[j].element)
    requires k < |projectRoot.nodes[i].element.nodes[j].element.nodes|
    requires projectRoot.nodes[i].element.nodes[j].element.nodes[k].Elem?
    requires IsHintPath(projectRoot.nodes[i].element.nodes[j].element.nodes[k].element)
    ensures var hintPath := NormalizeHintPaths(projectRoot, platformSeparator).nodes[i].element.nodes[j].element.nodes[k].element;
      var before := projectRoot.nodes[i].element.nodes[j].element.nodes[k].element;
      && hintPath.id == before.id && hintPath.name == before.name && hintPath.attributes == before.attributes
      && Value(hintPath.nodes) == PathUtilities.NormalizeSlashesInPath(Value(before.nodes), platformSeparator)
      && PathUtilities.DirectorySeparators(platformSeparator).invalid !in Value(hintPath.nodes)
  {
  }

  /** Every child of a plain item group other than a `Reference` item stays as it was. */
  lemma NormalizeHintPathsKeepsOtherItems(projectRoot: Element, platformSeparator: char, i: nat)
    requires i < |projectRoot.nodes| && projectRoot.nodes[i].Elem? && IsPlainItemGroup(projectRoot.nodes[i].element)
    ensures var group := NormalizeHintPaths(projectRoot, platformSeparator).nodes[i].element;
      var before := projectRoot.nodes[i].element;
      && |group.nodes| == |before.nodes|
      && forall j :: 0 <= j < |before.nodes| && !(before.nodes[j].Elem? && IsReference(before.nodes[j].element)) ==>
           group.nodes[j] == before.nodes[j]
  {
  }

  /** A `Reference` item keeps its object, name and attributes, and every
      child of it other than a `HintPath` stays as it was. */
  lemma NormalizeHintPathsKeepsOtherChildren(projectRoot: Element, platformSeparator: char, i: nat, j: nat)
    requires i < |projectRoot.nodes| && projectRoot.nodes[i].Elem? && IsPlainItemGroup(projectRoot.nodes[i].element)
    requires j < |projectRoot.nodes[i].element.nodes|
    requires projectRoot.nodes[i].element.nodes[j].Elem? && IsReference(projectRoot.nodes[i].element.nodes[j].element)
    ensures var reference := NormalizeHintPaths(projectRoot, platformSeparator).nodes[i].element.nodes[j].element;
      var before := projectRoot.nodes[i].element.nodes[j].element;
      && reference.id == before.id && reference.name == before.name && reference.attributes == before.attributes
      && |reference.nodes| == |before.nodes|
      && forall k :: 0 <= k < |before.nodes| && !(before.nodes[k].Elem? && IsHintPath(before.nodes[k].element)) ==>
           reference.nodes[k] == before.nodes[k]
  {
  }

  // ---------------------------------------------------------- CleanupProject

  /** `CleanupProject` (ProjectFileModifier.cs:426-433). */
  function CleanupProject(projectRoot: Element, platformSeparator: char): (r: Element)
    ensures r.id == projectRoot.id && r.name == projectRoot.name && r.attributes == projectRoot.attributes
    ensures |r.nodes| == |projectRoot.nodes|
    ensures forall i :: 0 <= i < |r.nodes| && projectRoot.nodes[i].Elem? ==>
              && r.nodes[i].Elem?
              && r.nodes[i].element.id == projectRoot.nodes[i].element.id
              && r.nodes[i].element.name == projectRoot.nodes[i].element.name
              && r.nodes[i].element.attributes == projectRoot.nodes[i].element.attributes
    ensures forall i :: 0 <= i < |r.nodes| ==>
              || (projectRoot.nodes[i].Elem? && IsPlainItemGroup(projectRoot.nodes[i].element))
              || (projectRoot.nodes[i].Elem? && IsPropertyGroup(projectRoot.nodes[i].element))
              || r.nodes[i] == projectRoot.nodes[i]
  {
    NormalizeHintPaths(NormalizeIncludePaths(SortDefines(projectRoot), platformSeparator), platformSeparator)
  }

  /** The clean-up creates no object and keeps a tree free of shared ones. */
  lemma CleanupKeepsIdentity(projectRoot: Element, platformSeparator: char)
    ensures Ids(CleanupProject(projectRoot, platformSeparator).nodes) <= Ids(projectRoot.nodes)
    ensures Unique(projectRoot.nodes) ==> Unique(CleanupProject(projectRoot, platformSeparator).nodes)
  {
    var sep := platformSeparator;
    forall e: Element ensures Keeps(e, SortDefinesOf(e)) {
      SetValueKeeps(e, SortedDefines(Value(e.nodes)));
    }
    forall e: Element ensures Keeps(e, SortDefinesInGroup(e)) {
      MapChildrenIds(e.nodes, IsDefineConstants, SortDefinesOf);
    }
    var includeOf := c => NormalizeIncludeOf(c, sep);
    var includesIn := g => NormalizeIncludesInGroup(g, sep);
    forall e: Element ensures Keeps(e, includesIn(e)) {
      assert KeepsIdentity(includeOf);
      MapChildrenIds(e.nodes, IsCompile, includeOf);
    }
    var hintOf := h => NormalizeHintPathOf(h, sep);
    var hintsOf := r => NormalizeHintPathsOf(r, sep);
    var hintsIn := g => NormalizeHintPathsInGroup(g, sep);
    forall e: Element ensures Keeps(e, hintOf(e)) {
      SetValueKeeps(e, PathUtilities.NormalizeSlashesInPath(Value(e.nodes), sep));
    }
    forall e: Element ensures Keeps(e, hintsOf(e)) {
      MapChildrenIds(e.nodes, IsHintPath, hintOf);
    }
    forall e: Element ensures Keeps(e, hintsIn(e)) {
      MapChildrenIds(e.nodes, IsReference, hintsOf);
    }
    var r1 := SortDefines(projectRoot);
    var r2 := NormalizeIncludePaths(r1, sep);
    MapChildrenIds(projectRoot.nodes, IsPropertyGroup, SortDefinesInGroup);
    MapChildrenIds(r1.nodes, IsPlainItemGroup, includesIn);
    MapChildrenIds(r2.nodes, IsPlainItemGroup, hintsIn);
  }

  lemma SetValueKeeps(e: Element, value: string)
    ensures Keeps(e, SetValue(e, value))
  {
    var r := SetValue(e, value);
    assert Ids(r.nodes) == {} by {
      assert r.nodes == [Text(value)];
      assert Size(r.nodes) == NodeSize(r.nodes[0]) + Size(r.nodes[1..]);
    }
    assert Unique(r.nodes) by {
      assert Size(r.nodes) == NodeSize(r.nodes[0]) + Size(r.nodes[1..]);
    }
  }
}
