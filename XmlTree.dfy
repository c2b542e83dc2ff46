/** The part of the XLinq object model the project tools use, as values.
    An element's `id` stands for its object identity: two elements with the
    same content but different ids are different objects. */
module XmlTree {
  import opened Wrappers
  import Strings

  datatype Attribute = Attribute(name: string, value: string)

  /** `XNode`: a comment, a text node or an element. */
  datatype Node =
    | Comment(value: string)
    | Text(text: string)
    | Elem(element: Element)

  /** `XElement`: identity, name, attributes and child nodes. */
  datatype Element = Element(id: nat, name: string, attributes: seq<Attribute>, nodes: seq<Node>)

  /** `XDocument`: the nodes before the root element, the root, the nodes after it. */
  datatype Document = Document(before: seq<Node>, root: Element, after: seq<Node>)

  /** `XDocument.Nodes()`: the top-level nodes in document order. */
  function TopNodes(d: Document): seq<Node> {
    d.before + [Elem(d.root)] + d.after
  }

  /** The number of nodes in a tree: the measure that recursion over nested
      node sequences decreases. */
  function NodeSize(n: Node): nat
    decreases n
  {
    match n
    case Elem(e) => 1 + Size(e.nodes)
    case _ => 1
  }

  function Size(ns: seq<Node>): nat
    decreases ns
  {
    if ns == [] then 0 else NodeSize(ns[0]) + Size(ns[1..])
  }

  /** Elements as the nodes that hold them. */
  function ElemNodes(es: seq<Element>): (r: seq<Node>)
    ensures |r| == |es|
    ensures forall i :: 0 <= i < |es| ==> r[i] == Elem(es[i])
  {
    if es == [] then [] else [Elem(es[0])] + ElemNodes(es[1..])
  }

  /** `XContainer.Elements()`: the child elements in document order. */
  function ChildElements(ns: seq<Node>): (r: seq<Element>)
    ensures |r| <= |ns|
    ensures forall e :: e in r <==> Elem(e) in ns
  {
    if ns == [] then []
    else (if ns[0].Elem? then [ns[0].element] else []) + ChildElements(ns[1..])
  }

  /** `XContainer.Elements(name)`: the child elements with that name, in
      document order; descendants further down are not included. */
  function Named(ns: seq<Node>, name: string): (r: seq<Element>)
    ensures |r| <= |ns|
    ensures forall e :: e in r <==> Elem(e) in ns && e.name == name
  {
    if ns == [] then []
    else (if ns[0].Elem? && ns[0].element.name == name then [ns[0].element] else []) + Named(ns[1..], name)
  }

  /** `Named` runs through the nodes in order: it maps concatenation to concatenation. */
  lemma {:induction false} NamedConcat(a: seq<Node>, b: seq<Node>, name: string)
    ensures Named(a + b, name) == Named(a, name) + Named(b, name)
  {
    if a == [] {
      assert a + b == b;
    } else {
      assert (a + b)[0] == a[0];
      assert (a + b)[1..] == a[1..] + b;
      NamedConcat(a[1..], b, name);
    }
  }

  /** `ChildElements` maps concatenation to concatenation. */
  lemma {:induction false} ChildElementsConcat(a: seq<Node>, b: seq<Node>)
    ensures ChildElements(a + b) == ChildElements(a) + ChildElements(b)
  {
    if a == [] {
      assert a + b == b;
    } else {
      assert (a + b)[0] == a[0];
      assert (a + b)[1..] == a[1..] + b;
      ChildElementsConcat(a[1..], b);
    }
  }

  /** Every element node yields its element. */
  lemma {:induction false} ChildElementsOfElemNodes(es: seq<Element>)
    ensures ChildElements(ElemNodes(es)) == es
  {
    if es != [] {
      assert ElemNodes(es)[1..] == ElemNodes(es[1..]);
      ChildElementsOfElemNodes(es[1..]);
    }
  }

  /** `XElement.HasAttributes`. */
  predicate HasAttributes(e: Element) {
    |e.attributes| > 0
  }

  /** `XElement.HasElements`. */
  predicate HasElements(e: Element) {
    exists i :: 0 <= i < |e.nodes| && e.nodes[i].Elem?
  }

  /** `XElement.Attribute(name)?.Value`: the value of the attribute with that
      name, if there is one (XLinq keeps attribute names unique). */
  function AttributeValue(attributes: seq<Attribute>, name: string): (r: Option<string>)
    ensures r.Some? <==> exists i :: 0 <= i < |attributes| && attributes[i].name == name
    ensures r.Some? ==> Attribute(name, r.value) in attributes
  {
    if attributes == [] then None
    else if attributes[0].name == name then Some(attributes[0].value)
    else
      var r := AttributeValue(attributes[1..], name);
      assert forall i :: 1 <= i < |attributes| ==> attributes[i] == attributes[1..][i - 1];
      r
  }

  /** `XAttribute.SetValue` on the attribute with that name. */
  function SetAttributeValue(attributes: seq<Attribute>, name: string, value: string): (r: seq<Attribute>)
    ensures |r| == |attributes|
    ensures forall i :: 0 <= i < |r| ==> r[i].name == attributes[i].name
    ensures forall i :: 0 <= i < |r| && attributes[i].name != name ==> r[i] == attributes[i]
    ensures AttributeValue(attributes, name).Some? ==> AttributeValue(r, name) == Some(value)
    ensures AttributeValue(attributes, name).None? ==> r == attributes
  {
    if attributes == [] then []
    else if attributes[0].name == name then
      var r := [Attribute(name, value)] + attributes[1..];
      assert r[0] == Attribute(name, value) && r[1..] == attributes[1..];
      r
    else
      var rest := SetAttributeValue(attributes[1..], name, value);
      SetAttributeValueStep(attributes[0], attributes[1..], rest, name, value);
      assert attributes == [attributes[0]] + attributes[1..];
      [attributes[0]] + rest
  }

  /** An attribute with another name in front changes nothing of what
      `SetAttributeValue` promises. */
  lemma SetAttributeValueStep(a: Attribute, rest: seq<Attribute>, r: seq<Attribute>, name: string, value: string)
    requires a.name != name
    requires |r| == |rest| && forall i :: 0 <= i < |r| ==> r[i].name == rest[i].name
    requires forall i :: 0 <= i < |r| && rest[i].name != name ==> r[i] == rest[i]
    requires AttributeValue(rest, name).Some? ==> AttributeValue(r, name) == Some(value)
    requires AttributeValue(rest, name).None? ==> r == rest
    ensures forall i :: 0 <= i < |[a] + r| ==> ([a] + r)[i].name == ([a] + rest)[i].name
    ensures forall i :: 0 <= i < |[a] + r| && ([a] + rest)[i].name != name ==> ([a] + r)[i] == ([a] + rest)[i]
    ensures AttributeValue([a] + rest, name).Some? ==> AttributeValue([a] + r, name) == Some(value)
    ensures AttributeValue([a] + rest, name).None? ==> [a] + r == [a] + rest
  {
    assert ([a] + rest)[0] == a && ([a] + rest)[1..] == rest;
    assert ([a] + r)[0] == a && ([a] + r)[1..] == r;
  }

  /** `XElement.Value`: the text of all descendant text nodes, in document order. */
  function Value(ns: seq<Node>): string
    decreases Size(ns)
  {
    if ns == [] then []
    else
      assert Size(ns) == NodeSize(ns[0]) + Size(ns[1..]);
      (match ns[0]
         case Text(t) => t
         case Comment(_) => []
         case Elem(e) => Value(e.nodes))
      + Value(ns[1..])
  }

  /** `XElement.SetValue(string)`: the child nodes are replaced by one text node. */
  function SetValue(e: Element, value: string): (r: Element)
    ensures r.id == e.id && r.name == e.name && r.attributes == e.attributes
    ensures Value(r.nodes) == value
    ensures ChildElements(r.nodes) == []
  {
    var r := e.(nodes := [Text(value)]);
    assert Value(r.nodes) == value + Value([]);
    r
  }

  // ---------------------------------------------------------------- identity

  /** The identities of the elements in a node sequence, at any depth. */
  function Ids(ns: seq<Node>): set<nat>
    decreases Size(ns)
  {
    if ns == [] then {}
    else
      assert Size(ns) == NodeSize(ns[0]) + Size(ns[1..]);
      (if ns[0].Elem? then {ns[0].element.id} + Ids(ns[0].element.nodes) else {}) + Ids(ns[1..])
  }

  /** A number above every identity in the nodes: where fresh identities start. */
  function IdBound(ns: seq<Node>): (r: nat)
    ensures forall i :: i in Ids(ns) ==> i < r
    decreases Size(ns)
  {
    if ns == [] then 0
    else
      assert Size(ns) == NodeSize(ns[0]) + Size(ns[1..]);
      var rest := IdBound(ns[1..]);
      if ns[0].Elem? then
        var below := IdBound(ns[0].element.nodes);
        var top := if ns[0].element.id + 1 < below then below else ns[0].element.id + 1;
        if top < rest then rest else top
      else rest
  }

  /** No element object occurs twice: what a parsed or built tree guarantees. */
  predicate Unique(ns: seq<Node>)
    decreases Size(ns)
  {
    ns == [] ||
    (assert Size(ns) == NodeSize(ns[0]) + Size(ns[1..]);
     && (ns[0].Elem? ==>
          && ns[0].element.id !in Ids(ns[0].element.nodes)
          && Unique(ns[0].element.nodes)
          && ({ns[0].element.id} + Ids(ns[0].element.nodes)) !! Ids(ns[1..]))
     && Unique(ns[1..]))
  }

  /** The tree after `XNode.Remove()` on every element whose identity is in
      `s`: such an element disappears with everything below it. */
  function Prune(ns: seq<Node>, s: set<nat>): (r: seq<Node>)
    ensures |r| <= |ns|
    decreases Size(ns)
  {
    if ns == [] then []
    else
      assert Size(ns) == NodeSize(ns[0]) + Size(ns[1..]);
      (if ns[0].Elem? then
         if ns[0].element.id in s then []
         else [Elem(ns[0].element.(nodes := Prune(ns[0].element.nodes, s)))]
       else [ns[0]])
      + Prune(ns[1..], s)
  }

  lemma {:induction false} IdsConcat(a: seq<Node>, b: seq<Node>)
    ensures Ids(a + b) == Ids(a) + Ids(b)
  {
    if a == [] {
      assert a + b == b;
    } else {
      assert (a + b)[0] == a[0];
      assert (a + b)[1..] == a[1..] + b;
      IdsConcat(a[1..], b);
    }
  }

  /** `Prune` works node by node: the first node, then the rest. */
  lemma PruneFirst(ns: seq<Node>, s: set<nat>)
    requires ns != []
    ensures Prune(ns, s) == Prune([ns[0]], s) + Prune(ns[1..], s)
  {
    assert [ns[0]][1..] == [];
  }

  lemma {:induction false} PruneConcat(a: seq<Node>, b: seq<Node>, s: set<nat>)
    ensures Prune(a + b, s) == Prune(a, s) + Prune(b, s)
  {
    if a == [] {
      assert a + b == b;
    } else {
      assert (a + b)[0] == a[0];
      assert (a + b)[1..] == a[1..] + b;
      PruneFirst(a + b, s);
      PruneFirst(a, s);
      PruneConcat(a[1..], b, s);
      Strings.ConcatAssoc(Prune([a[0]], s), Prune(a[1..], s), Prune(b, s));
    }
  }

  /** Removing objects that are not in the tree changes nothing. */
  lemma {:induction false} PruneDisjoint(ns: seq<Node>, s: set<nat>)
    requires s !! Ids(ns)
    ensures Prune(ns, s) == ns
    decreases Size(ns)
  {
    if ns != [] {
      assert Size(ns) == NodeSize(ns[0]) + Size(ns[1..]);
      if ns[0].Elem? {
        PruneDisjoint(ns[0].element.nodes, s);
      }
      PruneDisjoint(ns[1..], s);
      assert ns == [ns[0]] + ns[1..];
    }
  }

  /** Removal leaves only objects that were there and were not removed. */
  lemma {:induction false} PruneIds(ns: seq<Node>, s: set<nat>)
    ensures Ids(Prune(ns, s)) <= Ids(ns)
    ensures Ids(Prune(ns, s)) !! s
    decreases Size(ns)
  {
    if ns != [] {
      assert Size(ns) == NodeSize(ns[0]) + Size(ns[1..]);
      PruneIds(ns[1..], s);
      var head := if ns[0].Elem? then
                    if ns[0].element.id in s then []
                    else [Elem(ns[0].element.(nodes := Prune(ns[0].element.nodes, s)))]
                  else [ns[0]];
      IdsConcat(head, Prune(ns[1..], s));
      if ns[0].Elem? && ns[0].element.id !in s {
        PruneIds(ns[0].element.nodes, s);
        assert Ids(head) == {ns[0].element.id} + Ids(Prune(ns[0].element.nodes, s)) by {
          assert head[1..] == [];
        }
      }
    }
  }

  /** Removal keeps a tree free of shared objects. */
  lemma {:induction false} PruneUnique(ns: seq<Node>, s: set<nat>)
    requires Unique(ns)
    ensures Unique(Prune(ns, s))
    decreases Size(ns)
  {
    if ns != [] {
      assert Size(ns) == NodeSize(ns[0]) + Size(ns[1..]);
      PruneUnique(ns[1..], s);
      PruneIds(ns[1..], s);
      var head := if ns[0].Elem? then
                    if ns[0].element.id in s then []
                    else [Elem(ns[0].element.(nodes := Prune(ns[0].element.nodes, s)))]
                  else [ns[0]];
      UniqueConcat(head, Prune(ns[1..], s));
      if ns[0].Elem? && ns[0].element.id !in s {
        PruneUnique(ns[0].element.nodes, s);
        PruneIds(ns[0].element.nodes, s);
        assert head[1..] == [];
      }
    }
  }

  /** A concatenation is free of shared objects when both parts are and they
      share none. */
  lemma {:induction false} UniqueConcat(a: seq<Node>, b: seq<Node>)
    ensures Unique(a + b) <==> Unique(a) && Unique(b) && Ids(a) !! Ids(b)
  {
    if a == [] {
      assert a + b == b;
    } else {
      assert (a + b)[0] == a[0];
      assert (a + b)[1..] == a[1..] + b;
      UniqueConcat(a[1..], b);
      IdsConcat(a[1..], b);
    }
  }

  /** Removing `a` and then `b` removes `a + b`. */
  lemma {:induction false} PruneTwice(ns: seq<Node>, a: set<nat>, b: set<nat>)
    ensures Prune(Prune(ns, a), b) == Prune(ns, a + b)
    decreases Size(ns)
  {
    if ns != [] {
      assert Size(ns) == NodeSize(ns[0]) + Size(ns[1..]);
      var head := if ns[0].Elem? then
                    if ns[0].element.id in a then []
                    else [Elem(ns[0].element.(nodes := Prune(ns[0].element.nodes, a)))]
                  else [ns[0]];
      PruneConcat(head, Prune(ns[1..], a), b);
      PruneTwice(ns[1..], a, b);
      if ns[0].Elem? && ns[0].element.id !in a {
        PruneTwice(ns[0].element.nodes, a, b);
        assert head[1..] == [];
      }
    }
  }

  // ------------------------------------------------------- in-place updates

  /** Every child element that `select` accepts is replaced by `update` of
      it; all other child nodes stay as they are. */
  function MapChildren(ns: seq<Node>, select: Element -> bool, update: Element -> Element): (r: seq<Node>)
    ensures |r| == |ns|
    ensures forall i :: 0 <= i < |ns| ==>
      r[i] == if ns[i].Elem? && select(ns[i].element) then Elem(update(ns[i].element)) else ns[i]
  {
    if ns == [] then []
    else [MapNode(ns[0], select, update)] + MapChildren(ns[1..], select, update)
  }

  function MapNode(n: Node, select: Element -> bool, update: Element -> Element): Node {
    if n.Elem? && select(n.element) then Elem(update(n.element)) else n
  }

  /** `update` keeps the object and only drops objects below it. */
  ghost predicate KeepsIdentity(update: Element -> Element) {
    forall e :: Keeps(e, update(e))
  }

  ghost predicate Keeps(e: Element, u: Element) {
    && u.id == e.id
    && Ids(u.nodes) <= Ids(e.nodes)
    && (Unique(e.nodes) && e.id !in Ids(e.nodes) ==> Unique(u.nodes) && e.id !in Ids(u.nodes))
  }

  /** Updating children in place adds no objects and keeps them unshared. */
  lemma {:induction false} MapChildrenIds(ns: seq<Node>, select: Element -> bool, update: Element -> Element)
    requires KeepsIdentity(update)
    ensures Ids(MapChildren(ns, select, update)) <= Ids(ns)
    ensures Unique(ns) ==> Unique(MapChildren(ns, select, update))
  {
    if ns != [] {
      var head := MapNode(ns[0], select, update);
      var rest := MapChildren(ns[1..], select, update);
      MapChildrenIds(ns[1..], select, update);
      assert Size(ns) == NodeSize(ns[0]) + Size(ns[1..]);
      UniqueConcat([head], rest);
      IdsConcat([head], rest);
      assert [head][1..] == [];
      if ns[0].Elem? && select(ns[0].element) {
        assert Keeps(ns[0].element, update(ns[0].element));
      }
    }
  }

  /** Nodes without an element of that name yield none. */
  lemma {:induction false} NamedOfNoneNamed(ns: seq<Node>, name: string)
    requires forall i :: 0 <= i < |ns| ==> !(ns[i].Elem? && ns[i].element.name == name)
    ensures Named(ns, name) == []
  {
    if ns != [] {
      NamedOfNoneNamed(ns[1..], name);
    }
  }

  /** Conversely, no element has the name when `Named` is empty. */
  lemma {:induction false} NoneNamedWhenNamedIsEmpty(ns: seq<Node>, name: string)
    requires Named(ns, name) == []
    ensures forall i :: 0 <= i < |ns| ==> !(ns[i].Elem? && ns[i].element.name == name)
  {
    if ns != [] {
      NoneNamedWhenNamedIsEmpty(ns[1..], name);
      assert forall i :: 1 <= i < |ns| ==> ns[i] == ns[1..][i - 1];
    }
  }

  // ---------------------------------------------------------- positions

  /** The position of the last child element with that name, or -1. */
  function LastIndexNamed(ns: seq<Node>, name: string): (r: int)
    ensures -1 <= r < |ns|
    ensures r >= 0 ==> ns[r].Elem? && ns[r].element.name == name
    ensures forall i :: r < i < |ns| ==> !(ns[i].Elem? && ns[i].element.name == name)
  {
    if ns == [] then -1
    else if ns[|ns| - 1].Elem? && ns[|ns| - 1].element.name == name then |ns| - 1
    else LastIndexNamed(ns[..|ns| - 1], name)
  }

  /** `LastIndexNamed` is determined by its contract. */
  lemma LastIndexNamedIsLast(ns: seq<Node>, name: string, k: int)
    requires -1 <= k < |ns|
    requires k >= 0 ==> ns[k].Elem? && ns[k].element.name == name
    requires forall i :: k < i < |ns| ==> !(ns[i].Elem? && ns[i].element.name == name)
    ensures LastIndexNamed(ns, name) == k
  {
  }

  /** `AddAfterSelf` of the node at `i - 1`, or `AddFirst` when `i == 0`. */
  function InsertAt(ns: seq<Node>, i: nat, n: Node): (r: seq<Node>)
    requires i <= |ns|
    ensures |r| == |ns| + 1 && r[i] == n
    ensures r[..i] == ns[..i] && r[i + 1..] == ns[i..]
  {
    ns[..i] + [n] + ns[i..]
  }

  /** A named node inserted after every node of that name comes last among them. */
  lemma NamedInsertAfterLast(ns: seq<Node>, i: nat, n: Node, name: string)
    requires i <= |ns| && n.Elem? && n.element.name == name
    requires forall j :: i <= j < |ns| ==> !(ns[j].Elem? && ns[j].element.name == name)
    ensures Named(InsertAt(ns, i, n), name) == Named(ns, name) + [n.element]
  {
    var head, tail := ns[..i], ns[i..];
    forall j | 0 <= j < |tail| ensures !(tail[j].Elem? && tail[j].element.name == name) {
      assert tail[j] == ns[i + j];
    }
    NamedOfNoneNamed(tail, name);
    assert ns == head + tail;
    NamedConcat(head, tail, name);
    assert Named(ns, name) == Named(head, name);
    assert InsertAt(ns, i, n) == (head + [n]) + tail;
    NamedConcat(head + [n], tail, name);
    NamedConcat(head, [n], name);
    assert Named([n], name) == [n.element] by {
      assert [n][1..] == [];
    }
  }

  /** A non-empty run of named nodes inserted where no named node follows
      ends at the new last position of that name. */
  lemma InsertedRunIsLastNamed(ns: seq<Node>, p: nat, run: seq<Node>, name: string)
    requires p <= |ns| && run != []
    requires forall i :: 0 <= i < |run| ==> run[i].Elem? && run[i].element.name == name
    requires forall i :: p <= i < |ns| ==> !(ns[i].Elem? && ns[i].element.name == name)
    ensures LastIndexNamed(ns[..p] + run + ns[p..], name) == p + |run| - 1
  {
    var next := ns[..p] + run + ns[p..];
    forall i | p + |run| <= i < |next| ensures !(next[i].Elem? && next[i].element.name == name) {
      assert next[i] == ns[i - |run|];
    }
    assert next[p + |run| - 1] == run[|run| - 1];
    LastIndexNamedIsLast(next, name, p + |run| - 1);
  }

  /** A named node inserted where no named node follows becomes the last
      of that name. */
  lemma InsertedNodeIsLastNamed(ns: seq<Node>, q: nat, n: Node, name: string)
    requires q <= |ns| && n.Elem? && n.element.name == name
    requires forall i :: q <= i < |ns| ==> !(ns[i].Elem? && ns[i].element.name == name)
    ensures LastIndexNamed(InsertAt(ns, q, n), name) == q
    ensures Named(InsertAt(ns, q, n), name) == Named(ns, name) + [n.element]
  {
    assert InsertAt(ns, q, n) == ns[..q] + [n] + ns[q..];
    assert forall i :: 0 <= i < |[n]| ==> [n][i] == n;
    InsertedRunIsLastNamed(ns, q, [n], name);
    NamedInsertAfterLast(ns, q, n, name);
  }

  /** Inserting right after `a + e` extends `e`. */
  lemma InsertAfterRun(a: seq<Node>, e: seq<Node>, b: seq<Node>, n: Node)
    ensures InsertAt(a + e + b, |a| + |e|, n) == a + (e + [n]) + b
  {
    var c := a + e + b;
    assert c[..|a| + |e|] == a + e;
    assert c[|a| + |e|..] == b;
  }
}
