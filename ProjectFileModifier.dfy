/** The staged project file modifier: construct, check for the marker,
    parse, add items, compose. It owns the project document and the seven
    item lists that parsing fills and composing re-emits. */
module Modifier {
  import opened Wrappers
  import opened XmlTree
  import opened XmlProjectFileUtilities
  import opened ProjectFileCleanup
  import opened ProjectFileItems
  import Strings
  import Sorting
  import PathUtilities
  import C = ProjectFileConstants

  /** The comment that marks a processed document. */
  const ProcessedDocumentCommentText: string := "Document is processed by Silver's C# Project Tools."

  /** A document with the marker among its top-level nodes. */
  predicate IsProcessedDocument(d: Document) {
    Comment(ProcessedDocumentCommentText) in TopNodes(d)
  }

  // ------------------------------------------------------------- items

  function IncludeOf(e: Element): Option<string> {
    AttributeValue(e.attributes, C.IncludeAttributeName)
  }

  /** `IncludeAttributeComparer` (ProjectFileModifier.cs:333-342) as the
      order it induces: ordinal order of the `Include` values, where an item
      without `Include` comes before every item with one. */
  predicate IncludeLessOrEqual(left: Element, right: Element) {
    match IncludeOf(left)
    case None => true
    case Some(l) => IncludeOf(right).Some? && Strings.OrdinalLessOrEqual(l, IncludeOf(right).value)
  }

  /** The comparer is a total preorder, and it calls two items equal exactly
      when they have the same `Include` (or both have none). */
  lemma IncludeComparerIsTotalPreorder()
    ensures Sorting.TotalPreorder(IncludeLessOrEqual)
    ensures forall a, b :: IncludeLessOrEqual(a, b) && IncludeLessOrEqual(b, a) <==> IncludeOf(a) == IncludeOf(b)
  {
    forall a, b ensures IncludeLessOrEqual(a, b) || IncludeLessOrEqual(b, a) {
      if IncludeOf(a).Some? && IncludeOf(b).Some? {
        Strings.OrdinalTotal(IncludeOf(a).value, IncludeOf(b).value);
      }
    }
    forall a, b, c | IncludeLessOrEqual(a, b) && IncludeLessOrEqual(b, c) ensures IncludeLessOrEqual(a, c) {
      if IncludeOf(a).Some? {
        Strings.OrdinalTransitive(IncludeOf(a).value, IncludeOf(b).value, IncludeOf(c).value);
      }
    }
    forall a, b | IncludeLessOrEqual(a, b) && IncludeLessOrEqual(b, a) ensures IncludeOf(a) == IncludeOf(b) {
      if IncludeOf(a).Some? {
        Strings.OrdinalAntisymmetric(IncludeOf(a).value, IncludeOf(b).value);
      }
    }
  }

  /** `List.Sort(IncludeAttributeComparer)`: sorted, and a permutation. The
      sort is not stable, so nothing is promised about items with equal keys. */
  function SortByInclude(items: seq<Element>): (r: seq<Element>)
    ensures multiset(r) == multiset(items)
    ensures Sorting.SortedBy(r, IncludeLessOrEqual)
  {
    IncludeComparerIsTotalPreorder();
    Sorting.SortBy(items, IncludeLessOrEqual)
  }

  /** `sorted` holds the items of `items`, ordered by their `Include` values. */
  ghost predicate SortedPermutation(sorted: seq<Element>, items: seq<Element>) {
    multiset(sorted) == multiset(items) && Sorting.SortedBy(sorted, IncludeLessOrEqual)
  }

  /** An item whose non-empty `Include` equals `itemPath`, ignoring case. */
  predicate IncludeMatches(item: Element, itemPath: string) {
    var path := IncludeOf(item);
    path.Some? && path.value != [] && Strings.EqualsIgnoreCase(path.value, itemPath)
  }

  /** A new item with only an `Include` attribute. */
  function IncludeItem(id: nat, name: string, path: string): Element {
    Element(id, name, [Attribute(C.IncludeAttributeName, path)], [])
  }

  /** A new element holding one text. */
  function TextElement(id: nat, name: string, text: string): Element {
    Element(id, name, [], [Text(text)])
  }

  /** The `PackageReference` item `AddPackageReferenceProjectItem` creates;
      its objects take the identities `id` to `id + 3`. */
  function PackageReferenceItem(id: nat, packageName: string, version: string, includeAssets: string,
                                privateAssets: string): Element
  {
    Element(id, C.PackageReferenceElementName, [Attribute(C.IncludeAttributeName, packageName)],
            [Elem(TextElement(id + 1, C.VersionElementName, version))]
            + (if includeAssets != [] then [Elem(TextElement(id + 2, C.IncludeAssetsElementName, includeAssets))] else [])
            + (if privateAssets != [] then [Elem(TextElement(id + 3, C.PrivateAssetsElementName, privateAssets))] else []))
  }

  /** The package item always names the package and has a `Version` first;
      `IncludeAssets` and `PrivateAssets` follow, in that order, only when
      they are not empty. */
  lemma PackageReferenceItemShape(id: nat, packageName: string, version: string, includeAssets: string,
                                  privateAssets: string)
    ensures var item := PackageReferenceItem(id, packageName, version, includeAssets, privateAssets);
      var children := ChildElements(item.nodes);
      && IncludeOf(item) == Some(packageName)
      && |children| == 1 + (if includeAssets != [] then 1 else 0) + (if privateAssets != [] then 1 else 0)
      && children[0].name == C.VersionElementName && Value(children[0].nodes) == version
      && (includeAssets != [] ==> children[1].name == C.IncludeAssetsElementName && Value(children[1].nodes) == includeAssets)
      && (privateAssets != [] ==> var last := children[|children| - 1];
            last.name == C.PrivateAssetsElementName && Value(last.nodes) == privateAssets)
  {
    PackageReferenceItemChildren(id, packageName, version, includeAssets, privateAssets);
    TextValue(version);
    TextValue(includeAssets);
    TextValue(privateAssets);
  }

  /** The child elements of the package item, in order. */
  lemma PackageReferenceItemChildren(id: nat, packageName: string, version: string, includeAssets: string,
                                     privateAssets: string)
    ensures ChildElements(PackageReferenceItem(id, packageName, version, includeAssets, privateAssets).nodes)
         == [TextElement(id + 1, C.VersionElementName, version)]
            + (if includeAssets != [] then [TextElement(id + 2, C.IncludeAssetsElementName, includeAssets)] else [])
            + (if privateAssets != [] then [TextElement(id + 3, C.PrivateAssetsElementName, privateAssets)] else [])
  {
    var versionElement := TextElement(id + 1, C.VersionElementName, version);
    var includeAssetsElement := TextElement(id + 2, C.IncludeAssetsElementName, includeAssets);
    var privateAssetsElement := TextElement(id + 3, C.PrivateAssetsElementName, privateAssets);
    var v := [Elem(versionElement)];
    var i := if includeAssets != [] then [Elem(includeAssetsElement)] else [];
    var p := if privateAssets != [] then [Elem(privateAssetsElement)] else [];
    SingleChildElement(versionElement);
    SingleChildElement(includeAssetsElement);
    SingleChildElement(privateAssetsElement);
    ChildElementsConcat(v + i, p);
    ChildElementsConcat(v, i);
  }

  /** An element node on its own yields that element. */
  lemma SingleChildElement(e: Element)
    ensures ChildElements([Elem(e)]) == [e]
  {
    assert [Elem(e)][1..] == [];
  }

  /** The value of a single text node is its text. */
  lemma TextValue(t: string)
    ensures Value([Text(t)]) == t
  {
    assert Value([Text(t)]) == t + Value([]);
  }

  /** Some item of the list has `path` as its `Include`, ignoring case. */
  predicate HasItemWithPath(items: seq<Element>, path: string) {
    exists i :: 0 <= i < |items| && IncludeMatches(items[i], path)
  }

  /** The list after the "search, then add" of the `Add...ProjectItem`
      operations: `item` is appended unless an item with its path is there. */
  function WithNewItem(items: seq<Element>, path: string, item: Element): seq<Element> {
    if HasItemWithPath(items, path) then items else items + [item]
  }

  /** Adding is idempotent: once an item matching `path` is added, the list
      holds an item with that path, and a second add of the same path (with
      any new item) leaves the list as it is. */
  lemma WithNewItemIsIdempotent(items: seq<Element>, path: string, item: Element, other: Element)
    requires IncludeMatches(item, path)
    ensures HasItemWithPath(WithNewItem(items, path, item), path)
    ensures WithNewItem(WithNewItem(items, path, item), path, other) == WithNewItem(items, path, item)
  {
    var once := WithNewItem(items, path, item);
    if !HasItemWithPath(items, path) {
      assert once[|items|] == item;
    }
  }

  /** Items are only ever appended, so an item with the path stays found. */
  lemma HasItemWithPathIsKept(items: seq<Element>, path: string, longer: seq<Element>)
    requires items <= longer && HasItemWithPath(items, path)
    ensures HasItemWithPath(longer, path)
  {
    var i :| 0 <= i < |items| && IncludeMatches(items[i], path);
    assert longer[i] == items[i];
  }

  /** A new `Include` item matches its own path exactly when the path is not
      empty. */
  lemma IncludeItemMatchesItsPath(id: nat, name: string, path: string)
    ensures IncludeMatches(IncludeItem(id, name, path), path) <==> path != []
  {
    assert IncludeOf(IncludeItem(id, name, path)) == Some(path);
  }

  /** The target `AddRemoveAnalyzersTarget` creates; its objects take the
      identities `id` to `id + 2`. */
  function RemoveAnalyzersTarget(id: nat): Element {
    Element(id, C.TargetElementName,
            [Attribute(C.NameAttributeName, "RemoveAnalyzers"), Attribute(C.BeforeTargetsAttributeName, "CoreCompile")],
            [Elem(Element(id + 1, C.ItemGroupElementName, [],
                          [Elem(Element(id + 2, C.AnalyzerElementName, [Attribute(C.RemoveAttributeName, "@(Analyzer)")], []))]))])
  }

  // ----------------------------------------------------------- anchors

  /** `GetElementBeforeItemGroup` (ProjectFileModifier.cs:296-316): the
      position of the last root item group, else of the last property group,
      else none. */
  function GetElementBeforeItemGroup(rootNodes: seq<Node>): (r: Option<nat>)
    ensures r.Some? ==> r.value < |rootNodes| && rootNodes[r.value].Elem?
  {
    var itemGroup := LastIndexNamed(rootNodes, C.ItemGroupElementName);
    if itemGroup >= 0 then Some(itemGroup)
    else
      var propertyGroup := LastIndexNamed(rootNodes, C.PropertyGroupElementName);
      if propertyGroup >= 0 then Some(propertyGroup) else None
  }

  /** The item group anchor is the last root item group; without one it is
      the last property group; without either there is none. */
  lemma ElementBeforeItemGroupIsLastGroup(rootNodes: seq<Node>)
    ensures var r := GetElementBeforeItemGroup(rootNodes);
      && (r.Some? ==> var e := rootNodes[r.value].element;
            || (e.name == C.ItemGroupElementName && LastIndexNamed(rootNodes, C.ItemGroupElementName) == r.value)
            || (e.name == C.PropertyGroupElementName && Named(rootNodes, C.ItemGroupElementName) == []
                && LastIndexNamed(rootNodes, C.PropertyGroupElementName) == r.value))
      && (r.None? <==> Named(rootNodes, C.ItemGroupElementName) == [] && Named(rootNodes, C.PropertyGroupElementName) == [])
  {
    LastNamedIsAtLastIndex(rootNodes, C.ItemGroupElementName);
    LastNamedIsAtLastIndex(rootNodes, C.PropertyGroupElementName);
  }

  /** `GetElementBeforeTarget` (ProjectFileModifier.cs:318-331): the last
      root target, else the item group anchor. */
  function GetElementBeforeTarget(rootNodes: seq<Node>): (r: Option<nat>)
    ensures r.Some? ==> r.value < |rootNodes| && rootNodes[r.value].Elem?
    ensures Named(rootNodes, C.TargetElementName) != [] ==> r == Some(LastIndexNamed(rootNodes, C.TargetElementName))
    ensures Named(rootNodes, C.TargetElementName) == [] ==> r == GetElementBeforeItemGroup(rootNodes)
  {
    LastNamedIsAtLastIndex(rootNodes, C.TargetElementName);
    var target := LastIndexNamed(rootNodes, C.TargetElementName);
    if target >= 0 then Some(target) else GetElementBeforeItemGroup(rootNodes)
  }

  /** Where `AddAfterSelf` of the anchor, or `AddFirst` without one, puts a node. */
  function InsertionIndex(anchor: Option<nat>): nat {
    if anchor.Some? then anchor.value + 1 else 0
  }

  /** The index at which `AddItemGroupIfNotEmpty` inserts into a root with
      these child nodes: right after the item group anchor, or first. */
  function ItemGroupPosition(rootNodes: seq<Node>): nat {
    InsertionIndex(GetElementBeforeItemGroup(rootNodes))
  }

  /** No item group follows the item group insertion point. */
  lemma NoItemGroupFromAnchor(start: seq<Node>)
    ensures var p := ItemGroupPosition(start);
      && p <= |start|
      && forall i :: p <= i < |start| ==> !(start[i].Elem? && start[i].element.name == C.ItemGroupElementName)
  {
    var k := LastIndexNamed(start, C.ItemGroupElementName);
    assert k >= 0 ==> ItemGroupPosition(start) == k + 1;
  }

  /** No target follows the target insertion point. */
  lemma NoTargetFromAnchor(rootNodes: seq<Node>)
    ensures var q := InsertionIndex(GetElementBeforeTarget(rootNodes));
      && q <= |rootNodes|
      && forall i :: q <= i < |rootNodes| ==> !(rootNodes[i].Elem? && rootNodes[i].element.name == C.TargetElementName)
  {
    var k := LastIndexNamed(rootNodes, C.TargetElementName);
    LastNamedIsAtLastIndex(rootNodes, C.TargetElementName);
    assert k >= 0 ==> InsertionIndex(GetElementBeforeTarget(rootNodes)) == k + 1;
  }

  /** A run of item groups inserted at the item group anchor moves the
      anchor to the end of the run: the next group goes right after it. */
  lemma AnchorAfterRun(start: seq<Node>, run: seq<Node>)
    requires forall i :: 0 <= i < |run| ==> run[i].Elem? && run[i].element.name == C.ItemGroupElementName
    ensures ItemGroupPosition(start) <= |start|
    ensures ItemGroupPosition(start[..ItemGroupPosition(start)] + run + start[ItemGroupPosition(start)..])
            == ItemGroupPosition(start) + |run|
  {
    var p := ItemGroupPosition(start);
    NoItemGroupFromAnchor(start);
    var next := start[..p] + run + start[p..];
    if run == [] {
      assert next == start;
    } else {
      InsertedRunIsLastNamed(start, p, run, C.ItemGroupElementName);
      assert GetElementBeforeItemGroup(next) == Some(p + |run| - 1);
    }
  }

  /** The target inserted by `AddTarget` is the last target of the root. */
  lemma InsertedTargetIsLast(rootNodes: seq<Node>, target: Element)
    requires target.name == C.TargetElementName
    ensures var q := InsertionIndex(GetElementBeforeTarget(rootNodes));
      && q <= |rootNodes|
      && LastIndexNamed(InsertAt(rootNodes, q, Elem(target)), C.TargetElementName) == q
      && Named(InsertAt(rootNodes, q, Elem(target)), C.TargetElementName) == Named(rootNodes, C.TargetElementName) + [target]
  {
    var q := InsertionIndex(GetElementBeforeTarget(rootNodes));
    NoTargetFromAnchor(rootNodes);
    InsertedNodeIsLastNamed(rootNodes, q, Elem(target), C.TargetElementName);
  }

  // ----------------------------------------------------------- emission

  /** The item groups `Compose` emits for the lists, in order: one per
      non-empty list, the groups taking consecutive identities from `firstId`. */
  function EmittedGroups(lists: seq<seq<Element>>, firstId: nat): seq<Node> {
    if lists == [] then []
    else if lists[0] == [] then EmittedGroups(lists[1..], firstId)
    else [Elem(ItemGroupOf(firstId, lists[0]))]
         + EmittedGroups(lists[1..], firstId + 1)
  }

  /** The group `CreateElementWithItems` builds for a list, as a plain value. */
  function ItemGroupOf(id: nat, items: seq<Element>): Element {
    Element(id, C.ItemGroupElementName, [], ElemNodes(items))
  }

  function NonEmptyCount(lists: seq<seq<Element>>): nat {
    if lists == [] then 0 else (if lists[0] == [] then 0 else 1) + NonEmptyCount(lists[1..])
  }

  function Flatten(lists: seq<seq<Element>>): seq<Element> {
    if lists == [] then [] else lists[0] + Flatten(lists[1..])
  }

  /** Exactly one item group per non-empty list is emitted; each is an
      attribute-less item group, and together they hold every list item
      once, in list order. */
  lemma {:induction false} EmittedGroupsHoldTheLists(lists: seq<seq<Element>>, firstId: nat)
    ensures var groups := EmittedGroups(lists, firstId);
      && |groups| == NonEmptyCount(lists)
      && (forall i :: 0 <= i < |groups| ==> groups[i].Elem? && IsPlainItemGroup(groups[i].element))
      && GroupItems(groups, Except({})) == Flatten(lists)
  {
    if lists != [] {
      EmittedGroupsHoldTheLists(lists[1..], if lists[0] == [] then firstId else firstId + 1);
      if lists[0] != [] {
        var g := ItemGroupOf(firstId, lists[0]);
        var rest := EmittedGroups(lists[1..], firstId + 1);
        ChildElementsOfElemNodes(lists[0]);
        ChildElementsIsPicked(g.nodes);
        assert ([Elem(g)] + rest)[1..] == rest;
      }
    }
  }

  lemma {:induction false} EmittedGroupsConcat(a: seq<seq<Element>>, b: seq<seq<Element>>, firstId: nat)
    ensures EmittedGroups(a + b, firstId)
         == EmittedGroups(a, firstId) + EmittedGroups(b, firstId + |EmittedGroups(a, firstId)|)
  {
    if a == [] {
      assert a + b == b;
    } else {
      assert (a + b)[0] == a[0] && (a + b)[1..] == a[1..] + b;
      if a[0] == [] {
        EmittedGroupsConcat(a[1..], b, firstId);
      } else {
        var g := Elem(ItemGroupOf(firstId, a[0]));
        EmittedGroupsConcat(a[1..], b, firstId + 1);
        var x := EmittedGroups(a[1..], firstId + 1);
        var y := EmittedGroups(b, firstId + 1 + |x|);
        assert EmittedGroups(a + b, firstId) == [g] + (x + y);
        assert EmittedGroups(a, firstId) == [g] + x;
        assert [g] + (x + y) == ([g] + x) + y;
      }
    }
  }

  /** Emitting one more list appends its group, if it has items. */
  lemma EmittedGroupsSnoc(lists: seq<seq<Element>>, k: nat, firstId: nat)
    requires k < |lists|
    ensures var e := EmittedGroups(lists[..k], firstId);
      EmittedGroups(lists[..k + 1], firstId)
      == e + (if lists[k] == [] then [] else [Elem(ItemGroupOf(firstId + |e|, lists[k]))])
  {
    assert lists[..k + 1] == lists[..k] + [lists[k]];
    EmittedGroupsConcat(lists[..k], [lists[k]], firstId);
    assert [lists[k]][1..] == [];
  }

  /** The groups of some lists inserted as a run at the item group anchor
      of `before + after`, which is `|before|`, move the anchor to the end of
      the run. */
  lemma AnchorAfterEmittedGroups(before: seq<Node>, after: seq<Node>, lists: seq<seq<Element>>, firstId: nat)
    requires InsertionIndex(GetElementBeforeItemGroup(before + after)) == |before|
    ensures InsertionIndex(GetElementBeforeItemGroup(before + EmittedGroups(lists, firstId) + after))
            == |before| + |EmittedGroups(lists, firstId)|
  {
    var start := before + after;
    assert start[..|before|] == before && start[|before|..] == after;
    EmittedGroupsHoldTheLists(lists, firstId);
    AnchorAfterRun(start, EmittedGroups(lists, firstId));
  }

  /** The group of the next list, when it has items, inserted at the end of
      the run of the groups emitted so far, gives the run of one more list. */
  lemma EmittedRunGrows(before: seq<Node>, after: seq<Node>, lists: seq<seq<Element>>, k: nat, firstId: nat,
                        elements: seq<Element>, id: nat)
    requires k < |lists| && elements == lists[k]
    requires id == firstId + |EmittedGroups(lists[..k], firstId)|
    ensures elements == [] ==> EmittedGroups(lists[..k + 1], firstId) == EmittedGroups(lists[..k], firstId)
    ensures elements != [] ==>
      InsertAt(before + EmittedGroups(lists[..k], firstId) + after, |before| + |EmittedGroups(lists[..k], firstId)|,
               Elem(ItemGroupOf(id, elements)))
      == before + EmittedGroups(lists[..k + 1], firstId) + after
  {
    var run := EmittedGroups(lists[..k], firstId);
    EmittedGroupsSnoc(lists, k, firstId);
    if elements != [] {
      var group := Elem(ItemGroupOf(id, elements));
      assert group == Elem(ItemGroupOf(firstId + |run|, lists[k]));
      assert EmittedGroups(lists[..k + 1], firstId) == run + [group];
      InsertAfterRun(before, run, after, group);
    }
  }

  // ---------------------------------------------------------- the class

  class ProjectFileModifier {
    var projectFileDocument: Document
    var compiles: seq<Element>
    var references: seq<Element>
    var projectReferences: seq<Element>
    var packageReferences: seq<Element>
    var analyzers: seq<Element>
    var additionalFiles: seq<Element>
    var otherElements: seq<Element>
    /** The identity the next object the modifier creates receives. */
    var nextId: nat
    /** `Path.DirectorySeparatorChar` of the platform. */
    const platformSeparator: char
    /** Whether `Parse` has filled the lists (they are null before). */
    ghost var parsed: bool

    /** The seven lists, in the order `Compose` emits them. */
    function Lists(): seq<seq<Element>>
      reads this
    {
      [compiles, references, projectReferences, packageReferences, analyzers, additionalFiles, otherElements]
    }

    /** The constructor (ProjectFileModifier.cs:27-32). `XDocument.Parse` is
        not modelled: the document is given already parsed. New objects get
        identities above every identity in it. */
    constructor(projectFileContent: Document, platformSeparator: char)
      ensures projectFileDocument == projectFileContent && this.platformSeparator == platformSeparator
      ensures !parsed && Lists() == [[], [], [], [], [], [], []]
      ensures forall i :: i in Ids(TopNodes(projectFileContent)) ==> i < nextId
    {
      projectFileDocument := projectFileContent;
      this.platformSeparator := platformSeparator;
      compiles, references, projectReferences, packageReferences := [], [], [], [];
      analyzers, additionalFiles, otherElements := [], [], [];
      nextId := IdBound(TopNodes(projectFileContent));
      parsed := false;
    }

    /** `IsAlreadyProcessed` (ProjectFileModifier.cs:34-50): whether a
        top-level comment of the document is the marker. */
    method IsAlreadyProcessed() returns (processed: bool)
      ensures processed <==> IsProcessedDocument(projectFileDocument)
    {
      var nodes := TopNodes(projectFileDocument);
      var i := 0;
      while i < |nodes|
        invariant 0 <= i <= |nodes|
        invariant Comment(ProcessedDocumentCommentText) !in nodes[..i]
      {
        if nodes[i].Comment? && nodes[i].value == ProcessedDocumentCommentText {
          return true;
        }
        assert nodes[..i + 1] == nodes[..i] + [nodes[i]];
        i := i + 1;
      }
      assert nodes[..i] == nodes;
      return false;
    }

    /** `GetElementsFromItemGroup` (ProjectFileModifier.cs:344-365): the items
        with that name of every attribute-less root item group. */
    static method GetElementsFromItemGroup(projectRoot: Element, elementName: string) returns (elements: seq<Element>)
      ensures elements == GroupItems(projectRoot.nodes, Only(elementName))
    {
      var itemGroups := GetElements(projectRoot, C.ItemGroupElementName, Some(ElementHasNoAttributes));
      PlainGroupsCollect(projectRoot.nodes, Only(elementName));
      elements := [];
      var i := 0;
      while i < |itemGroups|
        invariant 0 <= i <= |itemGroups|
        invariant elements + Collect(itemGroups[i..], Only(elementName)) == Collect(itemGroups, Only(elementName))
      {
        var innerElements := GetElements(itemGroups[i], elementName, None);
        GroupItemsStep(itemGroups, i, elementName, elements, innerElements);
        elements := elements + innerElements;
        i := i + 1;
      }
      assert elements + [] == elements;
    }

    /** The items of the attribute-less item groups, as `GetElements` finds
        those groups, are `GroupItems`. */
    static lemma PlainGroupsCollect(rootNodes: seq<Node>, p: Pick)
      ensures Collect(Filter(Named(rootNodes, C.ItemGroupElementName), Some(ElementHasNoAttributes)), p)
              == GroupItems(rootNodes, p)
    {
      FilteredGroupsArePicked(rootNodes, ElementHasNoAttributes, PlainItemGroup);
      CollectPlainGroups(rootNodes, p);
    }

    /** One step of `GetElementsFromItemGroup`'s loop: the items of group `i`
        extend what was collected before it. */
    static lemma GroupItemsStep(groups: seq<Element>, i: nat, name: string, elements: seq<Element>, inner: seq<Element>)
      requires i < |groups| && inner == Filter(Named(groups[i].nodes, name), None)
      requires elements + Collect(groups[i..], Only(name)) == Collect(groups, Only(name))
      ensures (elements + inner) + Collect(groups[i + 1..], Only(name)) == Collect(groups, Only(name))
    {
      FilterWithoutFilter(Named(groups[i].nodes, name));
      NamedIsPicked(groups[i].nodes, name);
      assert groups[i..][0] == groups[i] && groups[i..][1..] == groups[i + 1..];
      Strings.ConcatAssoc(elements, inner, Collect(groups[i + 1..], Only(name)));
    }

    /** `Parse` (ProjectFileModifier.cs:52-57, 426-433): clean the project
        up, then parse it. For a tree without shared objects (every tree XLinq
        builds), the root keeps every child except its attribute-less item
        groups, and the lists are `ParsedLists` of the cleaned root. */
    method Parse()
      modifies this
      ensures parsed && nextId == old(nextId)
      ensures projectFileDocument.before == old(projectFileDocument.before)
      ensures projectFileDocument.after == old(projectFileDocument.after)
      ensures Unique(old(projectFileDocument.root.nodes)) ==>
        var cleaned := CleanupProject(old(projectFileDocument.root), platformSeparator);
        && projectFileDocument.root == cleaned.(nodes := Unpicked(cleaned.nodes, PlainItemGroup))
        && Lists() == ParsedLists(cleaned.nodes)
    {
      CleanupKeepsIdentity(projectFileDocument.root, platformSeparator);
      projectFileDocument := projectFileDocument.(root := CleanupProject(projectFileDocument.root, platformSeparator));
      ParseProject();
    }

    /** `ParseProject` (ProjectFileModifier.cs:435-470): move the items of the
        attribute-less root item groups into the seven lists, kind by kind,
        then detach every remaining item and drop the emptied groups. */
    method ParseProject()
      modifies this
      ensures parsed && nextId == old(nextId)
      ensures projectFileDocument.before == old(projectFileDocument.before)
      ensures projectFileDocument.after == old(projectFileDocument.after)
      ensures Unique(old(projectFileDocument.root.nodes)) ==>
        var start := old(projectFileDocument.root);
        && projectFileDocument.root == start.(nodes := Unpicked(start.nodes, PlainItemGroup))
        && Lists() == ParsedLists(start.nodes)
    {
      var projectRoot := projectFileDocument.root;
      ghost var start := projectRoot.nodes;
      ghost var unique := Unique(start);
      var compileItems, referenceItems, projectReferenceItems, packageReferenceItems, analyzerItems, additionalFileItems;
      compileItems, referenceItems, projectReferenceItems, packageReferenceItems, analyzerItems, additionalFileItems, projectRoot :=
        TakeListedKinds(projectRoot);
      ghost var done := ItemKindSet();

      var otherItems := CollectOtherElements(projectRoot);
      projectRoot := RemoveOtherItems(projectRoot, otherItems, start, done);
      projectRoot := RemoveEmptyItemGroups(projectRoot);
      ghost var lists := [compileItems, referenceItems, projectReferenceItems, packageReferenceItems,
                          analyzerItems, additionalFileItems, otherItems];
      if unique {
        EmptyGroupsAfterStripAll(start);
        assert projectRoot.nodes == Unpicked(start, PlainItemGroup);
        assert otherItems == GroupItems(start, Except(ItemKindSet()));
        assert lists == ParsedLists(start);
      }

      compiles, references, projectReferences := compileItems, referenceItems, projectReferenceItems;
      packageReferences, analyzers, additionalFiles := packageReferenceItems, analyzerItems, additionalFileItems;
      otherElements := otherItems;
      projectFileDocument := projectFileDocument.(root := projectRoot);
      parsed := true;
      assert Lists() == lists;
    }

    /** The items of no listed kind in `ParseProject`: every child element of
        every attribute-less root item group, group by group. */
    static method CollectOtherElements(projectRoot: Element) returns (otherElements: seq<Element>)
      ensures otherElements == GroupItems(projectRoot.nodes, Except({}))
    {
      otherElements := [];
      var itemGroups := GetElements(projectRoot, C.ItemGroupElementName, Some(ElementHasNoAttributes));
      PlainGroupsCollect(projectRoot.nodes, Except({}));
      var i := 0;
      while i < |itemGroups|
        invariant 0 <= i <= |itemGroups|
        invariant otherElements + Collect(itemGroups[i..], Except({})) == Collect(itemGroups, Except({}))
      {
        var otherElementsInGroup := ChildElements(itemGroups[i].nodes);
        OtherItemsStep(itemGroups, i, otherElements, otherElementsInGroup);
        otherElements := otherElements + otherElementsInGroup;
        i := i + 1;
      }
      assert otherElements + [] == otherElements;
    }

    /** One step of `CollectOtherElements`'s loop: the child elements of
        group `i` extend what was collected before it. */
    static lemma OtherItemsStep(groups: seq<Element>, i: nat, elements: seq<Element>, inner: seq<Element>)
      requires i < |groups| && inner == ChildElements(groups[i].nodes)
      requires elements + Collect(groups[i..], Except({})) == Collect(groups, Except({}))
      ensures (elements + inner) + Collect(groups[i + 1..], Except({})) == Collect(groups, Except({}))
    {
      ChildElementsIsPicked(groups[i].nodes);
      assert groups[i..][0] == groups[i] && groups[i..][1..] == groups[i + 1..];
      Strings.ConcatAssoc(elements, inner, Collect(groups[i + 1..], Except({})));
    }

    /** The six collect-and-detach steps of `ParseProject`, one per listed
        item kind, in the order of `ItemKinds`. On an unshared root each list
        holds the attribute-less groups' items of its kind, and the root keeps
        the item groups with none of those items. */
    static method TakeListedKinds(projectRoot: Element)
      returns (compileItems: seq<Element>, referenceItems: seq<Element>, projectReferenceItems: seq<Element>,
               packageReferenceItems: seq<Element>, analyzerItems: seq<Element>, additionalFileItems: seq<Element>,
               result: Element)
      ensures result.id == projectRoot.id && result.name == projectRoot.name
      ensures result.attributes == projectRoot.attributes
      ensures Unique(projectRoot.nodes) ==>
        var start := projectRoot.nodes;
        && compileItems == GroupItems(start, Only(C.CompileElementName))
        && referenceItems == GroupItems(start, Only(C.ReferenceElementName))
        && projectReferenceItems == GroupItems(start, Only(C.ProjectReferenceElementName))
        && packageReferenceItems == GroupItems(start, Only(C.PackageReferenceElementName))
        && analyzerItems == GroupItems(start, Only(C.AnalyzerElementName))
        && additionalFileItems == GroupItems(start, Only(C.AdditionalFilesElementName))
        && result.nodes == Strip(start, In(ItemKindSet()))
    {
      ghost var start := projectRoot.nodes;
      StripNothing(start);
      EachParseStepTakesANewKind();
      ghost var none: set<string> := {};
      compileItems, referenceItems, projectReferenceItems, result :=
        TakeThreeKinds(projectRoot, C.CompileElementName, C.ReferenceElementName, C.ProjectReferenceElementName,
                       start, none);
      packageReferenceItems, analyzerItems, additionalFileItems, result :=
        TakeThreeKinds(result, C.PackageReferenceElementName, C.AnalyzerElementName, C.AdditionalFilesElementName,
                       start, none + {C.CompileElementName} + {C.ReferenceElementName} + {C.ProjectReferenceElementName});
    }

    /** Three consecutive collect-and-detach steps of `ParseProject`. */
    static method TakeThreeKinds(projectRoot: Element, first: string, second: string, third: string,
                                 ghost start: seq<Node>, ghost done: set<string>)
      returns (firstItems: seq<Element>, secondItems: seq<Element>, thirdItems: seq<Element>, result: Element)
      ensures result.id == projectRoot.id && result.name == projectRoot.name
      ensures result.attributes == projectRoot.attributes
      ensures Unique(start) && projectRoot.nodes == Strip(start, In(done)) &&
              first !in done && second !in done + {first} && third !in done + {first} + {second} ==>
        && firstItems == GroupItems(start, Only(first))
        && secondItems == GroupItems(start, Only(second))
        && thirdItems == GroupItems(start, Only(third))
        && result.nodes == Strip(start, In(done + {first} + {second} + {third}))
    {
      firstItems, result := TakeItems(projectRoot, first, start, done);
      secondItems, result := TakeItems(result, second, start, done + {first});
      thirdItems, result := TakeItems(result, third, start, done + {first} + {second});
    }

    /** One collect-and-detach step of `ParseProject`: the items of one kind
        are collected (`GetElementsFromItemGroup`) and detached from the root
        (`RemoveAllElements` without a filter). On a root from which the kinds
        in `done` were collected before, the items are those of the cleaned-up
        root `start`, and that kind is gone too. */
    static method TakeItems(projectRoot: Element, kind: string, ghost start: seq<Node>, ghost done: set<string>)
      returns (items: seq<Element>, result: Element)
      ensures items == GroupItems(projectRoot.nodes, Only(kind))
      ensures result.id == projectRoot.id && result.name == projectRoot.name
      ensures result.attributes == projectRoot.attributes
      ensures Unique(start) && projectRoot.nodes == Strip(start, In(done)) && kind !in done ==>
        items == GroupItems(start, Only(kind)) && result.nodes == Strip(start, In(done + {kind}))
    {
      items := GetElementsFromItemGroup(projectRoot, kind);
      result := RemoveAllElements(projectRoot, items, None);
      FilterWithoutFilter(items);
      if Unique(start) && projectRoot.nodes == Strip(start, In(done)) && kind !in done {
        CollectStep(start, done, kind);
      }
    }

    /** The detaching of the items of no listed kind in `ParseProject`: after
        it, every attribute-less root item group is left without items. */
    static method RemoveOtherItems(projectRoot: Element, items: seq<Element>, ghost start: seq<Node>,
                                   ghost done: set<string>) returns (result: Element)
      requires items == GroupItems(projectRoot.nodes, Except({}))
      ensures result.id == projectRoot.id && result.name == projectRoot.name
      ensures result.attributes == projectRoot.attributes
      ensures Unique(start) && projectRoot.nodes == Strip(start, In(done)) ==>
        && items == GroupItems(start, Except(done))
        && result.nodes == Strip(start, Except({})) && Unique(result.nodes)
    {
      result := RemoveAllElements(projectRoot, items, None);
      FilterWithoutFilter(items);
      if Unique(start) && projectRoot.nodes == Strip(start, In(done)) {
        CollectOthers(start, done);
      }
    }

    /** The last step of `ParseProject`: every root item group that is
        empty is detached (`RemoveAllElements` with the `ElementIsEmpty` filter). */
    static method RemoveEmptyItemGroups(projectRoot: Element) returns (result: Element)
      ensures result.id == projectRoot.id && result.name == projectRoot.name
      ensures result.attributes == projectRoot.attributes
      ensures Unique(projectRoot.nodes) ==> result.nodes == Unpicked(projectRoot.nodes, EmptyItemGroup)
    {
      var itemGroups := GetElements(projectRoot, C.ItemGroupElementName, Some(ElementIsEmpty));
      result := RemoveAllElements(projectRoot, itemGroups, Some(ElementIsEmpty));
      if Unique(projectRoot.nodes) {
        FilteredGroupsArePicked(projectRoot.nodes, ElementIsEmpty, EmptyItemGroup);
        FilterOfAccepted(itemGroups, ElementIsEmpty);
        PickedIds(projectRoot.nodes, EmptyItemGroup);
        PruneOfPicked(projectRoot.nodes, EmptyItemGroup, IdSet(itemGroups));
      }
    }

    /** `SearchForProjectItemInCollection` (ProjectFileModifier.cs:238-255):
        the first position whose item has `itemPath` as its non-empty
        `Include` (ignoring case), or -1 when there is none. */
    static method SearchForProjectItemInCollection(projectItems: seq<Element>, itemPath: string) returns (position: int)
      ensures -1 <= position < |projectItems|
      ensures position == -1 <==> !HasItemWithPath(projectItems, itemPath)
      ensures position >= 0 ==> IncludeMatches(projectItems[position], itemPath)
      ensures forall j :: 0 <= j < position ==> !IncludeMatches(projectItems[j], itemPath)
    {
      var length := |projectItems|;
      var i := 0;
      while i < length
        invariant 0 <= i <= length
        invariant forall j :: 0 <= j < i ==> !IncludeMatches(projectItems[j], itemPath)
      {
        var path := IncludeOf(projectItems[i]);
        if path.Some? && path.value != [] && Strings.EqualsIgnoreCase(path.value, itemPath) {
          return i;
        }
        i := i + 1;
      }
      return -1;
    }

    /** The search-then-add shared by the `Add...ProjectItem` operations:
        `item` is appended exactly when no item has `path` yet. */
    static method AddUnlessPresent(items: seq<Element>, path: string, item: Element)
      returns (result: seq<Element>, added: bool)
      ensures added <==> !HasItemWithPath(items, path)
      ensures result == WithNewItem(items, path, item)
    {
      var positionInCollection := SearchForProjectItemInCollection(items, path);
      if positionInCollection != -1 {
        return items, false;
      }
      return items + [item], true;
    }

    /** `AddCompileProjectItem` (ProjectFileModifier.cs:91-115): an empty
        path is refused; otherwise the path with normalised slashes is added
        as a `Compile` item unless one with that path (ignoring case) is
        there. Afterwards a compile item with the path is present. */
    method AddCompileProjectItem(path: string)
      requires parsed
      modifies this
      ensures parsed && projectFileDocument == old(projectFileDocument)
      ensures compiles == if path == [] then old(compiles)
        else WithNewItem(old(compiles), PathUtilities.NormalizeSlashesInPath(path, platformSeparator),
                         IncludeItem(old(nextId), C.CompileElementName, PathUtilities.NormalizeSlashesInPath(path, platformSeparator)))
      ensures nextId == old(nextId) + (if path != [] && !HasItemWithPath(old(compiles), PathUtilities.NormalizeSlashesInPath(path, platformSeparator))
                                       then 1 else 0)
      ensures path != [] ==> HasItemWithPath(compiles, PathUtilities.NormalizeSlashesInPath(path, platformSeparator))
      ensures references == old(references)
      ensures projectReferences == old(projectReferences)
      ensures packageReferences == old(packageReferences)
      ensures analyzers == old(analyzers)
      ensures additionalFiles == old(additionalFiles)
      ensures otherElements == old(otherElements)
    {
      if path == [] {
        return;
      }
      var normalizedPath := PathUtilities.NormalizeSlashesInPath(path, platformSeparator);
      var compileElement := IncludeItem(nextId, C.CompileElementName, normalizedPath);
      IncludeItemMatchesItsPath(nextId, C.CompileElementName, normalizedPath);
      WithNewItemIsIdempotent(compiles, normalizedPath, compileElement, compileElement);
      var added;
      compiles, added := AddUnlessPresent(compiles, normalizedPath, compileElement);
      if added {
        nextId := nextId + 1;
      }
    }

    /** `AddAnalyzerProjectItem` (ProjectFileModifier.cs:186-210), the same
        for an `Analyzer` item. */
    method AddAnalyzerProjectItem(path: string)
      requires parsed
      modifies this
      ensures parsed && projectFileDocument == old(projectFileDocument)
      ensures analyzers == if path == [] then old(analyzers)
        else WithNewItem(old(analyzers), PathUtilities.NormalizeSlashesInPath(path, platformSeparator),
                         IncludeItem(old(nextId), C.AnalyzerElementName, PathUtilities.NormalizeSlashesInPath(path, platformSeparator)))
      ensures nextId == old(nextId) + (if path != [] && !HasItemWithPath(old(analyzers), PathUtilities.NormalizeSlashesInPath(path, platformSeparator))
                                       then 1 else 0)
      ensures path != [] ==> HasItemWithPath(analyzers, PathUtilities.NormalizeSlashesInPath(path, platformSeparator))
      ensures compiles == old(compiles)
      ensures references == old(references)
      ensures projectReferences == old(projectReferences)
      ensures packageReferences == old(packageReferences)
      ensures additionalFiles == old(additionalFiles)
      ensures otherElements == old(otherElements)
    {
      if path == [] {
        return;
      }
      var normalizedPath := PathUtilities.NormalizeSlashesInPath(path, platformSeparator);
      var analyzerElement := IncludeItem(nextId, C.AnalyzerElementName, normalizedPath);
      IncludeItemMatchesItsPath(nextId, C.AnalyzerElementName, normalizedPath);
      WithNewItemIsIdempotent(analyzers, normalizedPath, analyzerElement, analyzerElement);
      var added;
      analyzers, added := AddUnlessPresent(analyzers, normalizedPath, analyzerElement);
      if added {
        nextId := nextId + 1;
      }
    }

    /** `AddAdditionalFileProjectItem` (ProjectFileModifier.cs:212-236), the
        same for an `AdditionalFiles` item. */
    method AddAdditionalFileProjectItem(path: string)
      requires parsed
      modifies this
      ensures parsed && projectFileDocument == old(projectFileDocument)
      ensures additionalFiles == if path == [] then old(additionalFiles)
        else WithNewItem(old(additionalFiles), PathUtilities.NormalizeSlashesInPath(path, platformSeparator),
                         IncludeItem(old(nextId), C.AdditionalFilesElementName, PathUtilities.NormalizeSlashesInPath(path, platformSeparator)))
      ensures nextId == old(nextId) + (if path != [] && !HasItemWithPath(old(additionalFiles), PathUtilities.NormalizeSlashesInPath(path, platformSeparator))
                                       then 1 else 0)
      ensures path != [] ==> HasItemWithPath(additionalFiles, PathUtilities.NormalizeSlashesInPath(path, platformSeparator))
      ensures compiles == old(compiles)
      ensures references == old(references)
      ensures projectReferences == old(projectReferences)
      ensures packageReferences == old(packageReferences)
      ensures analyzers == old(analyzers)
      ensures otherElements == old(otherElements)
    {
      if path == [] {
        return;
      }
      var normalizedPath := PathUtilities.NormalizeSlashesInPath(path, platformSeparator);
      var additionalFileElement := IncludeItem(nextId, C.AdditionalFilesElementName, normalizedPath);
      IncludeItemMatchesItsPath(nextId, C.AdditionalFilesElementName, normalizedPath);
      WithNewItemIsIdempotent(additionalFiles, normalizedPath, additionalFileElement, additionalFileElement);
      var added;
      additionalFiles, added := AddUnlessPresent(additionalFiles, normalizedPath, additionalFileElement);
      if added {
        nextId := nextId + 1;
      }
    }

    /** `AddPackageReferenceProjectItem` (ProjectFileModifier.cs:117-168): a
        package without name or without version is refused; otherwise it is
        added unless a package item with that name (ignoring case, and
        without slash normalisation) is there. */
    method AddPackageReferenceProjectItem(packageName: string, version: string, includeAssets: string,
                                          privateAssets: string)
      requires parsed
      modifies this
      ensures parsed && projectFileDocument == old(projectFileDocument)
      ensures packageReferences == if packageName == [] || version == [] then old(packageReferences)
        else WithNewItem(old(packageReferences), packageName,
                         PackageReferenceItem(old(nextId), packageName, version, includeAssets, privateAssets))
      ensures nextId == old(nextId) + (if packageName != [] && version != [] && !HasItemWithPath(old(packageReferences), packageName)
                                       then 4 else 0)
      ensures packageName != [] && version != [] ==> HasItemWithPath(packageReferences, packageName)
      ensures compiles == old(compiles)
      ensures references == old(references)
      ensures projectReferences == old(projectReferences)
      ensures analyzers == old(analyzers)
      ensures additionalFiles == old(additionalFiles)
      ensures otherElements == old(otherElements)
    {
      if packageName == [] {
        return;
      }
      if version == [] {
        return;
      }
      var packageReferenceElement := PackageReferenceItem(nextId, packageName, version, includeAssets, privateAssets);
      PackageReferenceItemShape(nextId, packageName, version, includeAssets, privateAssets);
      WithNewItemIsIdempotent(packageReferences, packageName, packageReferenceElement, packageReferenceElement);
      var added;
      packageReferences, added := AddUnlessPresent(packageReferences, packageName, packageReferenceElement);
      if added {
        nextId := nextId + 4;
      }
    }

    /** `AddRemoveAnalyzersTarget` (ProjectFileModifier.cs:170-184): the
        `RemoveAnalyzers` target is added as the last target of the root. */
    method AddRemoveAnalyzersTarget()
      modifies this
      ensures parsed == old(parsed) && Lists() == old(Lists())
      ensures nextId == old(nextId) + 3
      ensures var d := old(projectFileDocument);
        var q := InsertionIndex(GetElementBeforeTarget(d.root.nodes));
        q <= |d.root.nodes|
        && projectFileDocument == d.(root := d.root.(nodes := InsertAt(d.root.nodes, q, Elem(RemoveAnalyzersTarget(old(nextId))))))
      ensures Named(projectFileDocument.root.nodes, C.TargetElementName)
           == Named(old(projectFileDocument.root.nodes), C.TargetElementName) + [RemoveAnalyzersTarget(old(nextId))]
    {
      var targetElement := RemoveAnalyzersTarget(nextId);
      var projectRoot := AddTarget(projectFileDocument.root, targetElement);
      projectFileDocument := projectFileDocument.(root := projectRoot);
      nextId := nextId + 3;
    }

    /** `AddTarget` (ProjectFileModifier.cs:279-294): the target goes right
        after the target anchor, or first without one; it becomes the last
        target of the root. */
    static method AddTarget(documentRoot: Element, targetElement: Element) returns (result: Element)
      requires targetElement.name == C.TargetElementName
      ensures var q := InsertionIndex(GetElementBeforeTarget(documentRoot.nodes));
        q <= |documentRoot.nodes| && result == documentRoot.(nodes := InsertAt(documentRoot.nodes, q, Elem(targetElement)))
      ensures LastIndexNamed(result.nodes, C.TargetElementName) == InsertionIndex(GetElementBeforeTarget(documentRoot.nodes))
      ensures Named(result.nodes, C.TargetElementName) == Named(documentRoot.nodes, C.TargetElementName) + [targetElement]
    {
      InsertedTargetIsLast(documentRoot.nodes, targetElement);
      var elementBeforeTarget := GetElementBeforeTarget(documentRoot.nodes);
      if elementBeforeTarget.Some? {
        result := documentRoot.(nodes := InsertAt(documentRoot.nodes, elementBeforeTarget.value + 1, Elem(targetElement)));
      } else {
        result := documentRoot.(nodes := InsertAt(documentRoot.nodes, 0, Elem(targetElement)));
      }
    }

    /** `AddItemGroupIfNotEmpty` (ProjectFileModifier.cs:257-277): a
        non-empty list becomes a new item group, whose identity is `id`,
        right after the item group anchor, or first without one. */
    static method AddItemGroupIfNotEmpty(documentRoot: Element, elements: seq<Element>, id: nat)
      returns (result: Element, nextId: nat)
      ensures elements == [] ==> result == documentRoot && nextId == id
      ensures elements != [] ==> InsertionIndex(GetElementBeforeItemGroup(documentRoot.nodes)) <= |documentRoot.nodes|
      ensures elements != [] ==>
        result == documentRoot.(nodes := InsertAt(documentRoot.nodes, InsertionIndex(GetElementBeforeItemGroup(documentRoot.nodes)),
                                                  Elem(ItemGroupOf(id, elements))))
      ensures elements != [] ==> nextId == id + 1
    {
      if |elements| != 0 {
        var elementBeforeItemGroup := GetElementBeforeItemGroup(documentRoot.nodes);
        var itemGroup := CreateElementWithItems(id, C.ItemGroupElementName, elements);
        if elementBeforeItemGroup.Some? {
          result := documentRoot.(nodes := InsertAt(documentRoot.nodes, elementBeforeItemGroup.value + 1, Elem(itemGroup)));
        } else {
          result := documentRoot.(nodes := InsertAt(documentRoot.nodes, 0, Elem(itemGroup)));
        }
        nextId := id + 1;
      } else {
        result, nextId := documentRoot, id;
      }
    }

    /** One `AddItemGroupIfNotEmpty` of `Compose`, for the list `lists[k]`:
        the groups of the lists before it form a run at the item group
        anchor of the root `before + after`, which lies between the two, and
        the group of this list joins the end of that run. */
    static method EmitListGroup(projectRoot: Element, elements: seq<Element>, id: nat,
                                ghost before: seq<Node>, ghost after: seq<Node>, ghost lists: seq<seq<Element>>,
                                ghost k: nat, ghost firstId: nat)
      returns (result: Element, nextId: nat)
      requires InsertionIndex(GetElementBeforeItemGroup(before + after)) == |before|
      requires k < |lists| && elements == lists[k]
      requires projectRoot.nodes == before + EmittedGroups(lists[..k], firstId) + after
      requires id == firstId + |EmittedGroups(lists[..k], firstId)|
      ensures result.id == projectRoot.id && result.name == projectRoot.name
      ensures result.attributes == projectRoot.attributes
      ensures result.nodes == before + EmittedGroups(lists[..k + 1], firstId) + after
      ensures nextId == firstId + |EmittedGroups(lists[..k + 1], firstId)|
    {
      AnchorAfterEmittedGroups(before, after, lists[..k], firstId);
      EmittedRunGrows(before, after, lists, k, firstId, elements, id);
      result, nextId := AddItemGroupIfNotEmpty(projectRoot, elements, id);
    }

    /** `Compose` (ProjectFileModifier.cs:59-80): the six typed lists are
        sorted by `Include`; one item group per non-empty list, in list order,
        is inserted as a run at the item group anchor of the root; and the
        processed marker comment is put right before the root. */
    method Compose()
      requires parsed
      modifies this
      ensures parsed
      ensures SortedPermutation(compiles, old(compiles))
      ensures SortedPermutation(references, old(references))
      ensures SortedPermutation(projectReferences, old(projectReferences))
      ensures SortedPermutation(packageReferences, old(packageReferences))
      ensures SortedPermutation(analyzers, old(analyzers))
      ensures SortedPermutation(additionalFiles, old(additionalFiles))
      ensures otherElements == old(otherElements)
      ensures ItemGroupPosition(old(projectFileDocument).root.nodes) <= |old(projectFileDocument).root.nodes|
      ensures projectFileDocument.root
              == old(projectFileDocument).root.(nodes :=
                   old(projectFileDocument).root.nodes[..ItemGroupPosition(old(projectFileDocument).root.nodes)]
                   + EmittedGroups([compiles, references, projectReferences, packageReferences, analyzers, additionalFiles, otherElements], old(nextId))
                   + old(projectFileDocument).root.nodes[ItemGroupPosition(old(projectFileDocument).root.nodes)..])
      ensures projectFileDocument.before == old(projectFileDocument).before + [Comment(ProcessedDocumentCommentText)]
      ensures projectFileDocument.after == old(projectFileDocument).after
      ensures nextId == old(nextId) + NonEmptyCount([compiles, references, projectReferences, packageReferences, analyzers, additionalFiles, otherElements])
      ensures IsProcessedDocument(projectFileDocument)
    {
      SortItemLists();
      AddItemGroupsAndMarker();
    }

    /** The six `Sort` calls of `Compose`; nothing else changes. */
    method SortItemLists()
      modifies this
      ensures SortedPermutation(compiles, old(compiles))
      ensures SortedPermutation(references, old(references))
      ensures SortedPermutation(projectReferences, old(projectReferences))
      ensures SortedPermutation(packageReferences, old(packageReferences))
      ensures SortedPermutation(analyzers, old(analyzers))
      ensures SortedPermutation(additionalFiles, old(additionalFiles))
      ensures otherElements == old(otherElements) && parsed == old(parsed)
      ensures projectFileDocument == old(projectFileDocument) && nextId == old(nextId)
    {
      var sortedCompiles := SortItems(compiles);
      var sortedReferences := SortItems(references);
      var sortedProjectReferences := SortItems(projectReferences);
      var sortedPackageReferences := SortItems(packageReferences);
      var sortedAnalyzers := SortItems(analyzers);
      var sortedAdditionalFiles := SortItems(additionalFiles);
      compiles, references, projectReferences, packageReferences, analyzers, additionalFiles :=
        sortedCompiles, sortedReferences, sortedProjectReferences, sortedPackageReferences, sortedAnalyzers,
        sortedAdditionalFiles;
    }

    /** The seven `AddItemGroupIfNotEmpty` calls and the marker comment of
        `Compose`; the lists do not change. */
    method AddItemGroupsAndMarker()
      modifies this
      ensures Lists() == old(Lists()) && parsed == old(parsed)
      ensures ItemGroupPosition(old(projectFileDocument).root.nodes) <= |old(projectFileDocument).root.nodes|
      ensures projectFileDocument.root
              == old(projectFileDocument).root.(nodes :=
                   old(projectFileDocument).root.nodes[..ItemGroupPosition(old(projectFileDocument).root.nodes)]
                   + EmittedGroups([compiles, references, projectReferences, packageReferences, analyzers, additionalFiles, otherElements], old(nextId))
                   + old(projectFileDocument).root.nodes[ItemGroupPosition(old(projectFileDocument).root.nodes)..])
      ensures projectFileDocument.before == old(projectFileDocument).before + [Comment(ProcessedDocumentCommentText)]
      ensures projectFileDocument.after == old(projectFileDocument).after
      ensures nextId == old(nextId) + NonEmptyCount([compiles, references, projectReferences, packageReferences, analyzers, additionalFiles, otherElements])
      ensures IsProcessedDocument(projectFileDocument)
    {
      var document, id := ComposeDocument(projectFileDocument, compiles, references, projectReferences,
                                          packageReferences, analyzers, additionalFiles, otherElements, nextId);
      nextId, projectFileDocument := id, document;
    }

    /** `items.Sort(IncludeAttributeComparer)`: the unstable sort may order
        items with equal keys either way, so all that is promised is a
        sorted permutation. */
    static method SortItems(items: seq<Element>) returns (sorted: seq<Element>)
      ensures SortedPermutation(sorted, items)
    {
      sorted := SortByInclude(items);
    }

    /** The document part of `Compose`: the lists' item groups go, in list
        order, right after the item group anchor of the original root, and
        the processed marker comment follows the root's preceding nodes. */
    static method ComposeDocument(document: Document, compiles: seq<Element>, references: seq<Element>,
                                  projectReferences: seq<Element>, packageReferences: seq<Element>,
                                  analyzers: seq<Element>, additionalFiles: seq<Element>, otherElements: seq<Element>,
                                  firstId: nat)
      returns (result: Document, nextId: nat)
      ensures ItemGroupPosition(document.root.nodes) <= |document.root.nodes|
      ensures result.root
              == document.root.(nodes :=
                   document.root.nodes[..ItemGroupPosition(document.root.nodes)]
                   + EmittedGroups([compiles, references, projectReferences, packageReferences, analyzers,
                                    additionalFiles, otherElements], firstId)
                   + document.root.nodes[ItemGroupPosition(document.root.nodes)..])
      ensures result.before == document.before + [Comment(ProcessedDocumentCommentText)]
      ensures result.after == document.after
      ensures nextId == firstId + NonEmptyCount([compiles, references, projectReferences, packageReferences, analyzers,
                                                 additionalFiles, otherElements])
      ensures IsProcessedDocument(result)
    {
      var projectRoot := document.root;
      ghost var start := projectRoot.nodes;
      ghost var p := ItemGroupPosition(start);
      ghost var before, after := start[..p], start[p..];
      assert start == before + after && |before| == p;
      projectRoot, nextId := AddItemGroups(projectRoot, compiles, references, projectReferences, packageReferences,
                                           analyzers, additionalFiles, otherElements, firstId, before, after);
      var documentProcessedComment := Comment(ProcessedDocumentCommentText);
      result := document.(root := projectRoot, before := document.before + [documentProcessedComment]);
      assert TopNodes(result)[|result.before| - 1] == documentProcessedComment;
    }

    /** The seven `AddItemGroupIfNotEmpty` calls of `Compose`, in list order,
        on a root whose item group anchor lies between `before` and `after`:
        the groups of the lists end up as one run there, in list order. */
    static method AddItemGroups(projectRoot: Element, compiles: seq<Element>, references: seq<Element>,
                                projectReferences: seq<Element>, packageReferences: seq<Element>,
                                analyzers: seq<Element>, additionalFiles: seq<Element>, otherElements: seq<Element>,
                                firstId: nat, ghost before: seq<Node>, ghost after: seq<Node>)
      returns (result: Element, nextId: nat)
      requires projectRoot.nodes == before + after
      requires InsertionIndex(GetElementBeforeItemGroup(before + after)) == |before|
      ensures result.id == projectRoot.id && result.name == projectRoot.name
      ensures result.attributes == projectRoot.attributes
      ensures var lists := [compiles, references, projectReferences, packageReferences, analyzers, additionalFiles,
                            otherElements];
        && result.nodes == before + EmittedGroups(lists, firstId) + after
        && nextId == firstId + NonEmptyCount(lists)
    {
      ghost var lists := [compiles, references, projectReferences, packageReferences, analyzers, additionalFiles,
                          otherElements];
      assert lists[..0] == [];
      assert projectRoot.nodes == before + EmittedGroups(lists[..0], firstId) + after;
      var id := firstId;
      result := projectRoot;
      result, id := EmitListGroup(result, compiles, id, before, after, lists, 0, firstId);
      result, id := EmitListGroup(result, references, id, before, after, lists, 1, firstId);
      result, id := EmitListGroup(result, projectReferences, id, before, after, lists, 2, firstId);
      result, id := EmitListGroup(result, packageReferences, id, before, after, lists, 3, firstId);
      result, id := EmitListGroup(result, analyzers, id, before, after, lists, 4, firstId);
      result, id := EmitListGroup(result, additionalFiles, id, before, after, lists, 5, firstId);
      result, id := EmitListGroup(result, otherElements, id, before, after, lists, 6, firstId);
      assert lists[..7] == lists;
      EmittedGroupsHoldTheLists(lists, firstId);
      nextId := id;
    }

    /** `GetContent` (ProjectFileModifier.cs:82-89) without the XML
        serialisation: the current document. */
    method GetContent() returns (content: Document)
      ensures content == projectFileDocument
    {
      content := projectFileDocument;
    }
  }
}
