/** The element helpers the project file modifier is built from. */
module XmlProjectFileUtilities {
  import opened Wrappers
  import opened XmlTree

  /** An optional include filter: no filter includes everything. */
  predicate Accepts(includeFilter: Option<Element -> bool>, e: Element) {
    includeFilter.None? || includeFilter.value(e)
  }

  /** The elements of `es` the filter includes, in order. */
  function Filter(es: seq<Element>, includeFilter: Option<Element -> bool>): (r: seq<Element>)
    ensures |r| <= |es|
    ensures forall e :: e in r <==> e in es && Accepts(includeFilter, e)
  {
    if es == [] then []
    else Filter(es[..|es| - 1], includeFilter)
         + (if Accepts(includeFilter, es[|es| - 1]) then [es[|es| - 1]] else [])
  }

  /** `Filter` maps concatenation to concatenation. */
  lemma {:induction false} FilterConcat(a: seq<Element>, b: seq<Element>, includeFilter: Option<Element -> bool>)
    ensures Filter(a + b, includeFilter) == Filter(a, includeFilter) + Filter(b, includeFilter)
  {
    if b == [] {
      assert a + b == a;
    } else {
      var init := b[..|b| - 1];
      assert (a + b)[..|a + b| - 1] == a + init;
      FilterConcat(a, init, includeFilter);
    }
  }

  /** Without a filter, every element is included. */
  lemma {:induction false} FilterWithoutFilter(es: seq<Element>)
    ensures Filter(es, None) == es
  {
    if es != [] {
      FilterWithoutFilter(es[..|es| - 1]);
    }
  }

  /** A filter that includes every element changes nothing. */
  lemma {:induction false} FilterOfAccepted(es: seq<Element>, filter: Element -> bool)
    requires forall e :: e in es ==> filter(e)
    ensures Filter(es, Some(filter)) == es
  {
    if es != [] {
      FilterOfAccepted(es[..|es| - 1], filter);
      assert es[..|es| - 1] + [es[|es| - 1]] == es;
    }
  }

  /** The identities of some elements. */
  function IdSet(es: seq<Element>): (r: set<nat>)
    ensures forall e :: e in es ==> e.id in r
  {
    set e | e in es :: e.id
  }

  lemma IdSetConcat(a: seq<Element>, b: seq<Element>)
    ensures IdSet(a + b) == IdSet(a) + IdSet(b)
  {
  }

  /** Including one more element adds its identity if the filter takes it. */
  lemma AcceptedIdsSnoc(es: seq<Element>, x: Element, includeFilter: Option<Element -> bool>)
    ensures AcceptedIds(es + [x], includeFilter)
         == AcceptedIds(es, includeFilter) + (if Accepts(includeFilter, x) then {x.id} else {})
  {
    assert (es + [x])[..|es|] == es;
    var f := Filter(es, includeFilter);
    IdSetConcat(f, if Accepts(includeFilter, x) then [x] else []);
  }

  /** The objects `RemoveAllElements` detaches: the included ones. */
  function AcceptedIds(elements: seq<Element>, includeFilter: Option<Element -> bool>): set<nat> {
    IdSet(Filter(elements, includeFilter))
  }

  /** `RemoveAllElements` (XmlProjectFileUtilities.cs:14-28): every included
      element that is still attached below `root` is detached. The tree the
      elements hang in is passed explicitly; the result is that tree after the
      removals. */
  method RemoveAllElements(root: Element, elements: seq<Element>, includeFilter: Option<Element -> bool>)
    returns (result: Element)
    ensures result == root.(nodes := Prune(root.nodes, AcceptedIds(elements, includeFilter)))
    ensures forall e :: e in elements && Accepts(includeFilter, e) ==> e.id !in Ids(result.nodes)
    ensures Ids(result.nodes) <= Ids(root.nodes)
  {
    result := root;
    var i := 0;
    assert AcceptedIds(elements[..0], includeFilter) == {};
    PruneDisjoint(root.nodes, {});
    while i < |elements|
      invariant 0 <= i <= |elements|
      invariant result == root.(nodes := Prune(root.nodes, AcceptedIds(elements[..i], includeFilter)))
    {
      var element := elements[i];
      assert elements[..i + 1] == elements[..i] + [element];
      AcceptedIdsSnoc(elements[..i], element, includeFilter);
      ghost var before := AcceptedIds(elements[..i], includeFilter);
      if Accepts(includeFilter, element) {
        assert AcceptedIds(elements[..i + 1], includeFilter) == before + {element.id};
        PruneTwice(root.nodes, before, {element.id});
        if element.id in Ids(result.nodes) {
          // `element.Parent != null`: the element still hangs below the root.
          result := result.(nodes := Prune(result.nodes, {element.id}));
        } else {
          PruneDisjoint(result.nodes, {element.id});
        }
      } else {
        assert AcceptedIds(elements[..i + 1], includeFilter) == before;
      }
      i := i + 1;
    }
    assert elements[..i] == elements;
    PruneIds(root.nodes, AcceptedIds(elements, includeFilter));
  }

  /** `CreateElementWithItems` (XmlProjectFileUtilities.cs:31-41): a new
      element, whose fresh identity is `id`, holding exactly the given
      elements. */
  function CreateElementWithItems(id: nat, name: string, innerElements: seq<Element>): (r: Element)
    ensures r.id == id && r.name == name && !HasAttributes(r)
    ensures ChildElements(r.nodes) == innerElements
    ensures r.nodes == ElemNodes(innerElements)
  {
    ChildElementsOfElemNodes(innerElements);
    Element(id, name, [], ElemNodes(innerElements))
  }

  /** `GetElements` (XmlProjectFileUtilities.cs:44-60): the child elements of
      `root` with that name that the filter includes, in document order. */
  method GetElements(root: Element, elementName: string, includeFilter: Option<Element -> bool>)
    returns (elements: seq<Element>)
    ensures elements == Filter(Named(root.nodes, elementName), includeFilter)
    ensures forall e :: e in elements <==>
      Elem(e) in root.nodes && e.name == elementName && Accepts(includeFilter, e)
  {
    var named := Named(root.nodes, elementName);
    elements := [];
    var i := 0;
    while i < |named|
      invariant 0 <= i <= |named|
      invariant elements == Filter(named[..i], includeFilter)
    {
      assert named[..i + 1][..i] == named[..i];
      if Accepts(includeFilter, named[i]) {
        elements := elements + [named[i]];
      }
      i := i + 1;
    }
    assert named[..i] == named;
  }

  /** `GetLastElementWithName` (XmlProjectFileUtilities.cs:63-76): the last
      child element of `root` with that name, if there is one. */
  method GetLastElementWithName(root: Element, elementName: string) returns (lastElement: Option<Element>)
    ensures lastElement.None? <==> Named(root.nodes, elementName) == []
    ensures lastElement.Some? ==>
      var named := Named(root.nodes, elementName);
      lastElement.value == named[|named| - 1]
  {
    var named := Named(root.nodes, elementName);
    lastElement := None;
    var i := 0;
    while i < |named|
      invariant 0 <= i <= |named|
      invariant lastElement.None? <==> i == 0
      invariant lastElement.Some? ==> lastElement.value == named[i - 1]
    {
      lastElement := Some(named[i]);
      i := i + 1;
    }
  }

  /** The last element of `LastIndexNamed` is the last element of `Named`. */
  lemma {:induction false} LastNamedIsAtLastIndex(ns: seq<Node>, name: string)
    ensures var k := LastIndexNamed(ns, name); var named := Named(ns, name);
      (k == -1 <==> named == []) && (k >= 0 ==> named[|named| - 1] == ns[k].element)
  {
    if ns != [] {
      var init := ns[..|ns| - 1];
      assert ns == init + [ns[|ns| - 1]];
      NamedConcat(init, [ns[|ns| - 1]], name);
      LastNamedIsAtLastIndex(init, name);
    }
  }

  /** `ElementHasNoAttributes` (XmlProjectFileUtilities.cs:78-83). */
  predicate ElementHasNoAttributes(e: Element) {
    !HasAttributes(e)
  }

  /** `ElementIsEmpty` (XmlProjectFileUtilities.cs:85-90): neither child
      elements nor attributes; text and comments do not count. */
  predicate ElementIsEmpty(e: Element) {
    !HasElements(e) && !HasAttributes(e)
  }

  /** An element is empty exactly when it has no attributes and no child
      element at all. */
  lemma ElementIsEmptyMeansNoChildElements(e: Element)
    ensures ElementIsEmpty(e) <==> ElementHasNoAttributes(e) && ChildElements(e.nodes) == []
  {
    if ChildElements(e.nodes) != [] {
      var c := ChildElements(e.nodes)[0];
      assert Elem(c) in e.nodes;
    }
  }
}
