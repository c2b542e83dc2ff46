/** What `ParseProject` does to a cleaned-up project, stated on the tree:
    which child elements of the attribute-less root item groups end up in
    which of the seven item lists, and what is left of the root. */
module ProjectFileItems {
  import opened Wrappers
  import opened XmlTree
  import opened XmlProjectFileUtilities
  import opened ProjectFileCleanup
  import C = ProjectFileConstants

  /** A selection of child elements: those with one name, those whose name
      is in a set, those whose name is not, the empty root item groups, or
      the attribute-less root item groups. */
  datatype Pick = Only(name: string) | In(names: set<string>) | Except(names: set<string>) | EmptyItemGroup | PlainItemGroup

  predicate Picks(p: Pick, e: Element) {
    match p
    case Only(n) => e.name == n
    case In(ns) => e.name in ns
    case Except(ns) => e.name !in ns
    case EmptyItemGroup => e.name == C.ItemGroupElementName && ElementIsEmpty(e)
    case PlainItemGroup => IsPlainItemGroup(e)
  }

  /** The selected child elements, in document order. */
  function Picked(ns: seq<Node>, p: Pick): seq<Element> {
    if ns == [] then []
    else (if ns[0].Elem? && Picks(p, ns[0].element) then [ns[0].element] else []) + Picked(ns[1..], p)
  }

  /** The child nodes without the selected elements. */
  function Unpicked(ns: seq<Node>, p: Pick): seq<Node> {
    if ns == [] then []
    else (if ns[0].Elem? && Picks(p, ns[0].element) then [] else [ns[0]]) + Unpicked(ns[1..], p)
  }

  /** The selected items of every attribute-less root item group, group by
      group, in document order. */
  function GroupItems(rootNodes: seq<Node>, p: Pick): seq<Element> {
    if rootNodes == [] then []
    else (if rootNodes[0].Elem? && IsPlainItemGroup(rootNodes[0].element)
          then Picked(rootNodes[0].element.nodes, p) else [])
         + GroupItems(rootNodes[1..], p)
  }

  /** The root children after the selected items of every attribute-less
      item group have been removed. */
  function Strip(rootNodes: seq<Node>, p: Pick): seq<Node> {
    if rootNodes == [] then []
    else [StripNode(rootNodes[0], p)] + Strip(rootNodes[1..], p)
  }

  function StripNode(n: Node, p: Pick): Node {
    if n.Elem? && IsPlainItemGroup(n.element) then Elem(n.element.(nodes := Unpicked(n.element.nodes, p))) else n
  }

  /** The items of a list of groups, group by group. */
  function Collect(groups: seq<Element>, p: Pick): seq<Element> {
    if groups == [] then [] else Picked(groups[0].nodes, p) + Collect(groups[1..], p)
  }

  // ------------------------------------------------ the queries, restated

  lemma {:induction false} NamedIsPicked(ns: seq<Node>, name: string)
    ensures Named(ns, name) == Picked(ns, Only(name))
  {
    if ns != [] {
      NamedIsPicked(ns[1..], name);
    }
  }

  lemma {:induction false} ChildElementsIsPicked(ns: seq<Node>)
    ensures ChildElements(ns) == Picked(ns, Except({}))
  {
    if ns != [] {
      ChildElementsIsPicked(ns[1..]);
    }
  }

  /** Filtering the item groups by `filter` selects what `p` selects. */
  lemma {:induction false} FilteredGroupsArePicked(ns: seq<Node>, filter: Element -> bool, p: Pick)
    requires forall e :: Picks(p, e) == (e.name == C.ItemGroupElementName && filter(e))
    ensures Filter(Named(ns, C.ItemGroupElementName), Some(filter)) == Picked(ns, p)
  {
    if ns != [] {
      var head := if ns[0].Elem? && ns[0].element.name == C.ItemGroupElementName then [ns[0].element] else [];
      FilterConcat(head, Named(ns[1..], C.ItemGroupElementName), Some(filter));
      FilteredGroupsArePicked(ns[1..], filter, p);
      assert Filter(head, Some(filter)) == (if ns[0].Elem? && Picks(p, ns[0].element) then [ns[0].element] else []) by {
        if head != [] {
          assert head[..0] == [];
        }
      }
    }
  }

  /** The items of the attribute-less groups are those of `GroupItems`. */
  lemma {:induction false} CollectPlainGroups(rootNodes: seq<Node>, p: Pick)
    ensures Collect(Picked(rootNodes, PlainItemGroup), p) == GroupItems(rootNodes, p)
  {
    if rootNodes != [] {
      CollectPlainGroups(rootNodes[1..], p);
      var rest := Picked(rootNodes[1..], PlainItemGroup);
      if rootNodes[0].Elem? && IsPlainItemGroup(rootNodes[0].element) {
        var g := rootNodes[0].element;
        assert ([g] + rest)[0] == g && ([g] + rest)[1..] == rest;
      } else {
        assert [] + rest == rest;
      }
    }
  }

  // ---------------------------------------------------------- identities

  lemma {:induction false} PickedIds(ns: seq<Node>, p: Pick)
    ensures IdSet(Picked(ns, p)) <= Ids(ns)
  {
    if ns != [] {
      PickedIds(ns[1..], p);
      var head := if ns[0].Elem? && Picks(p, ns[0].element) then [ns[0].element] else [];
      IdSetConcat(head, Picked(ns[1..], p));
      assert Size(ns) == NodeSize(ns[0]) + Size(ns[1..]);
    }
  }

  lemma {:induction false} GroupItemsIds(rootNodes: seq<Node>, p: Pick)
    ensures IdSet(GroupItems(rootNodes, p)) <= Ids(rootNodes)
  {
    if rootNodes != [] {
      GroupItemsIds(rootNodes[1..], p);
      var n := rootNodes[0];
      var head := if n.Elem? && IsPlainItemGroup(n.element) then Picked(n.element.nodes, p) else [];
      IdSetConcat(head, GroupItems(rootNodes[1..], p));
      assert Size(rootNodes) == NodeSize(n) + Size(rootNodes[1..]);
      if n.Elem? && IsPlainItemGroup(n.element) {
        PickedIds(n.element.nodes, p);
      }
    }
  }

  /** Removing the selected children of a tree without shared objects, plus
      any objects outside it, leaves its other children as they are. */
  lemma {:induction false} PruneOfPicked(ns: seq<Node>, p: Pick, s: set<nat>)
    requires Unique(ns)
    requires s * Ids(ns) == IdSet(Picked(ns, p))
    ensures Prune(ns, s) == Unpicked(ns, p)
  {
    if ns != [] {
      var n := ns[0];
      assert Size(ns) == NodeSize(n) + Size(ns[1..]);
      var head := if n.Elem? && Picks(p, n.element) then [n.element] else [];
      IdSetConcat(head, Picked(ns[1..], p));
      PickedIds(ns[1..], p);
      PruneOfPicked(ns[1..], p, s);
      if n.Elem? && !Picks(p, n.element) {
        PruneDisjoint(n.element.nodes, s);
      }
    }
  }

  /** Removing every item `GroupItems` selects, in a tree without shared
      objects, is `Strip`. */
  lemma {:induction false} PruneOfGroupItems(rootNodes: seq<Node>, p: Pick, s: set<nat>)
    requires Unique(rootNodes)
    requires s * Ids(rootNodes) == IdSet(GroupItems(rootNodes, p))
    ensures Prune(rootNodes, s) == Strip(rootNodes, p)
  {
    if rootNodes != [] {
      var n, rest := rootNodes[0], rootNodes[1..];
      assert Size(rootNodes) == NodeSize(n) + Size(rest);
      var head := if n.Elem? && IsPlainItemGroup(n.element) then Picked(n.element.nodes, p) else [];
      var nodeIds := if n.Elem? then {n.element.id} + Ids(n.element.nodes) else {};
      assert Ids(rootNodes) == nodeIds + Ids(rest);
      assert GroupItems(rootNodes, p) == head + GroupItems(rest, p);
      IdSetConcat(head, GroupItems(rest, p));
      GroupItemsIds(rest, p);
      if n.Elem? && IsPlainItemGroup(n.element) {
        PickedIds(n.element.nodes, p);
      }
      SplitIntersection(s, nodeIds, Ids(rest), IdSet(head), IdSet(GroupItems(rest, p)));
      PruneOfGroupItems(rest, p, s);
      if n.Elem? {
        if IsPlainItemGroup(n.element) {
          PruneOfPicked(n.element.nodes, p, s);
        } else {
          PruneDisjoint(n.element.nodes, s);
        }
      }
    }
  }

  /** Intersecting with a union of disjoint sets splits along the union. */
  lemma SplitIntersection(s: set<nat>, a: set<nat>, b: set<nat>, x: set<nat>, y: set<nat>)
    requires a !! b && x <= a && y <= b && s * (a + b) == x + y
    ensures s * a == x && s * b == y
  {
  }

  /** What `RemoveAllElements` does to the items `GroupItems` collected. */
  lemma RemovingGroupItemsIsStrip(rootNodes: seq<Node>, p: Pick)
    requires Unique(rootNodes)
    ensures Prune(rootNodes, IdSet(GroupItems(rootNodes, p))) == Strip(rootNodes, p)
    ensures Unique(Strip(rootNodes, p))
  {
    GroupItemsIds(rootNodes, p);
    PruneOfGroupItems(rootNodes, p, IdSet(GroupItems(rootNodes, p)));
    PruneUnique(rootNodes, IdSet(GroupItems(rootNodes, p)));
  }

  // ----------------------------------------------------- strip, then pick

  /** Picking after the kinds in `done` were unpicked: a kind not in `done`
      is all there, and "everything except `s`" now also leaves out `done`. */
  lemma {:induction false} PickedAfterUnpicked(ns: seq<Node>, done: set<string>, p: Pick)
    requires (p.Only? && p.name !in done) || p.Except?
    ensures Picked(Unpicked(ns, In(done)), p) == Picked(ns, if p.Except? then Except(p.names + done) else p)
  {
    if ns != [] {
      PickedAfterUnpicked(ns[1..], done, p);
      var rest := Unpicked(ns[1..], In(done));
      if ns[0].Elem? && ns[0].element.name in done {
        assert Unpicked(ns, In(done)) == rest;
      } else {
        assert Unpicked(ns, In(done)) == [ns[0]] + rest;
        assert ([ns[0]] + rest)[0] == ns[0] && ([ns[0]] + rest)[1..] == rest;
      }
    }
  }

  lemma {:induction false} GroupItemsAfterStrip(rootNodes: seq<Node>, done: set<string>, p: Pick)
    requires (p.Only? && p.name !in done) || p.Except?
    ensures GroupItems(Strip(rootNodes, In(done)), p)
         == GroupItems(rootNodes, if p.Except? then Except(p.names + done) else p)
  {
    if rootNodes != [] {
      GroupItemsAfterStrip(rootNodes[1..], done, p);
      if rootNodes[0].Elem? && IsPlainItemGroup(rootNodes[0].element) {
        PickedAfterUnpicked(rootNodes[0].element.nodes, done, p);
      }
    }
  }

  lemma {:induction false} UnpickedNothing(ns: seq<Node>)
    ensures Unpicked(ns, In({})) == ns
  {
    if ns != [] {
      UnpickedNothing(ns[1..]);
    }
  }

  /** Stripping no kind changes nothing. */
  lemma {:induction false} StripNothing(rootNodes: seq<Node>)
    ensures Strip(rootNodes, In({})) == rootNodes
  {
    if rootNodes != [] {
      StripNothing(rootNodes[1..]);
      if rootNodes[0].Elem? && IsPlainItemGroup(rootNodes[0].element) {
        UnpickedNothing(rootNodes[0].element.nodes);
      }
      assert rootNodes == [rootNodes[0]] + rootNodes[1..];
    }
  }

  lemma {:induction false} UnpickedTwice(ns: seq<Node>, done: set<string>, kind: string)
    ensures Unpicked(Unpicked(ns, In(done)), Only(kind)) == Unpicked(ns, In(done + {kind}))
  {
    if ns != [] {
      UnpickedTwice(ns[1..], done, kind);
      var rest := Unpicked(ns[1..], In(done));
      if ns[0].Elem? && ns[0].element.name in done {
        assert Unpicked(ns, In(done)) == rest;
      } else {
        assert Unpicked(ns, In(done)) == [ns[0]] + rest;
        assert ([ns[0]] + rest)[0] == ns[0] && ([ns[0]] + rest)[1..] == rest;
      }
    }
  }

  /** Stripping the kinds in `done`, then `kind`, strips `done + {kind}`. */
  lemma {:induction false} StripTwice(rootNodes: seq<Node>, done: set<string>, kind: string)
    ensures Strip(Strip(rootNodes, In(done)), Only(kind)) == Strip(rootNodes, In(done + {kind}))
  {
    if rootNodes != [] {
      StripTwice(rootNodes[1..], done, kind);
      if rootNodes[0].Elem? && IsPlainItemGroup(rootNodes[0].element) {
        UnpickedTwice(rootNodes[0].element.nodes, done, kind);
      }
    }
  }

  lemma {:induction false} UnpickAllAfterUnpicked(ns: seq<Node>, done: set<string>)
    ensures Unpicked(Unpicked(ns, In(done)), Except({})) == Unpicked(ns, Except({}))
  {
    if ns != [] {
      UnpickAllAfterUnpicked(ns[1..], done);
      var rest := Unpicked(ns[1..], In(done));
      if ns[0].Elem? && ns[0].element.name in done {
        assert Unpicked(ns, In(done)) == rest;
      } else {
        assert Unpicked(ns, In(done)) == [ns[0]] + rest;
        assert ([ns[0]] + rest)[0] == ns[0] && ([ns[0]] + rest)[1..] == rest;
      }
    }
  }

  lemma {:induction false} StripAllAfterStrip(rootNodes: seq<Node>, done: set<string>)
    ensures Strip(Strip(rootNodes, In(done)), Except({})) == Strip(rootNodes, Except({}))
  {
    if rootNodes != [] {
      StripAllAfterStrip(rootNodes[1..], done);
      if rootNodes[0].Elem? && IsPlainItemGroup(rootNodes[0].element) {
        UnpickAllAfterUnpicked(rootNodes[0].element.nodes, done);
      }
    }
  }

  lemma {:induction false} NoElementAfterUnpickAll(ns: seq<Node>)
    ensures ChildElements(Unpicked(ns, Except({}))) == []
  {
    if ns != [] {
      NoElementAfterUnpickAll(ns[1..]);
      var head := if ns[0].Elem? then [] else [ns[0]];
      ChildElementsConcat(head, Unpicked(ns[1..], Except({})));
    }
  }

  /** Once every item is gone, the empty item groups are exactly the
      attribute-less ones. */
  lemma {:induction false} EmptyGroupsAfterStripAll(rootNodes: seq<Node>)
    ensures Unpicked(Strip(rootNodes, Except({})), EmptyItemGroup) == Unpicked(rootNodes, PlainItemGroup)
  {
    if rootNodes != [] {
      EmptyGroupsAfterStripAll(rootNodes[1..]);
      var n := rootNodes[0];
      if n.Elem? && IsPlainItemGroup(n.element) {
        var g := n.element.(nodes := Unpicked(n.element.nodes, Except({})));
        NoElementAfterUnpickAll(n.element.nodes);
        ElementIsEmptyMeansNoChildElements(g);
      } else if n.Elem? {
        ElementIsEmptyMeansNoChildElements(n.element);
      }
    }
  }

  // ------------------------------------------------------------- the lists

  /** The six item kinds, as a set. */
  function ItemKindSet(): set<string> {
    {C.CompileElementName, C.ReferenceElementName, C.ProjectReferenceElementName,
     C.PackageReferenceElementName, C.AnalyzerElementName, C.AdditionalFilesElementName}
  }

  /** The seven lists `ParseProject` fills from a cleaned-up root: each
      typed kind in document order, then every other item. */
  function ParsedLists(rootNodes: seq<Node>): seq<seq<Element>> {
    [GroupItems(rootNodes, Only(C.CompileElementName)),
     GroupItems(rootNodes, Only(C.ReferenceElementName)),
     GroupItems(rootNodes, Only(C.ProjectReferenceElementName)),
     GroupItems(rootNodes, Only(C.PackageReferenceElementName)),
     GroupItems(rootNodes, Only(C.AnalyzerElementName)),
     GroupItems(rootNodes, Only(C.AdditionalFilesElementName)),
     GroupItems(rootNodes, Except(ItemKindSet()))]
  }

  /** One collect-and-detach step of `ParseProject`, on a root from which
      the kinds in `done` were already collected: the items of a new kind are
      those of the cleaned-up root `start`, and detaching them strips that
      kind as well. */
  lemma CollectStep(start: seq<Node>, done: set<string>, kind: string)
    requires Unique(start) && kind !in done
    ensures var rootNodes := Strip(start, In(done));
      && GroupItems(rootNodes, Only(kind)) == GroupItems(start, Only(kind))
      && Prune(rootNodes, IdSet(GroupItems(rootNodes, Only(kind)))) == Strip(start, In(done + {kind}))
  {
    var rootNodes := Strip(start, In(done));
    RemovingGroupItemsIsStrip(start, In(done));
    RemovingGroupItemsIsStrip(rootNodes, Only(kind));
    StripTwice(start, done, kind);
    GroupItemsAfterStrip(start, done, Only(kind));
  }

  /** The last collect-and-detach step: every remaining item is one of no
      collected kind, and detaching them leaves the groups without items. */
  lemma CollectOthers(start: seq<Node>, done: set<string>)
    requires Unique(start)
    ensures var rootNodes := Strip(start, In(done));
      && GroupItems(rootNodes, Except({})) == GroupItems(start, Except(done))
      && Prune(rootNodes, IdSet(GroupItems(rootNodes, Except({})))) == Strip(start, Except({}))
      && Unique(Strip(start, Except({})))
  {
    var rootNodes := Strip(start, In(done));
    var none: set<string> := {};
    RemovingGroupItemsIsStrip(start, In(done));
    RemovingGroupItemsIsStrip(rootNodes, Except(none));
    GroupItemsAfterStrip(start, done, Except(none));
    assert none + done == done;
    StripAllAfterStrip(start, done);
    RemovingGroupItemsIsStrip(start, Except(none));
  }

  /** Every child element of an attribute-less group falls into exactly one
      of `Only(kind)` and `Except(kinds + {kind})`. */
  lemma {:induction false} PickedSplits(ns: seq<Node>, kinds: set<string>, kind: string)
    requires kind !in kinds
    ensures multiset(Picked(ns, Except(kinds)))
         == multiset(Picked(ns, Only(kind))) + multiset(Picked(ns, Except(kinds + {kind})))
  {
    if ns != [] {
      PickedSplits(ns[1..], kinds, kind);
    }
  }

  lemma {:induction false} GroupItemsSplit(rootNodes: seq<Node>, kinds: set<string>, kind: string)
    requires kind !in kinds
    ensures multiset(GroupItems(rootNodes, Except(kinds)))
         == multiset(GroupItems(rootNodes, Only(kind))) + multiset(GroupItems(rootNodes, Except(kinds + {kind})))
  {
    if rootNodes != [] {
      GroupItemsSplit(rootNodes[1..], kinds, kind);
      if rootNodes[0].Elem? && IsPlainItemGroup(rootNodes[0].element) {
        PickedSplits(rootNodes[0].element.nodes, kinds, kind);
      }
    }
  }

  /** What is left of the root keeps every node except the attribute-less
      item groups, so the only item groups left have attributes. */
  lemma {:induction false} OnlyAttributedGroupsRemain(rootNodes: seq<Node>)
    ensures forall e :: Elem(e) in Unpicked(rootNodes, PlainItemGroup) && e.name == C.ItemGroupElementName ==>
              HasAttributes(e)
    ensures forall n :: n in Unpicked(rootNodes, PlainItemGroup) <==> n in rootNodes && !(n.Elem? && IsPlainItemGroup(n.element))
  {
    if rootNodes != [] {
      OnlyAttributedGroupsRemain(rootNodes[1..]);
    }
  }

  /** The items of the given kinds, counted together. */
  function KindItems(rootNodes: seq<Node>, kinds: seq<string>): multiset<Element> {
    if kinds == [] then multiset{}
    else multiset(GroupItems(rootNodes, Only(kinds[0]))) + KindItems(rootNodes, kinds[1..])
  }

  /** The kinds of a list, as a set. */
  function KindSet(kinds: seq<string>): set<string> {
    if kinds == [] then {} else {kinds[0]} + KindSet(kinds[1..])
  }

  lemma {:induction false} KindSetHoldsTheKinds(kinds: seq<string>)
    ensures forall k :: k in KindSet(kinds) <==> k in kinds
  {
    if kinds != [] {
      KindSetHoldsTheKinds(kinds[1..]);
      assert kinds == [kinds[0]] + kinds[1..];
    }
  }

  lemma {:induction false} PartitionByKinds(rootNodes: seq<Node>, kinds: seq<string>, done: set<string>)
    requires forall i :: 0 <= i < |kinds| ==> kinds[i] !in done
    requires forall i, j :: 0 <= i < j < |kinds| ==> kinds[i] != kinds[j]
    ensures multiset(GroupItems(rootNodes, Except(done)))
         == KindItems(rootNodes, kinds) + multiset(GroupItems(rootNodes, Except(done + KindSet(kinds))))
  {
    if kinds != [] {
      var next := done + {kinds[0]};
      var rest := kinds[1..];
      GroupItemsSplit(rootNodes, done, kinds[0]);
      TailKindsStayFresh(kinds, done);
      PartitionByKinds(rootNodes, rest, next);
      assert KindSet(kinds) == {kinds[0]} + KindSet(rest);
      assert next + KindSet(rest) == done + KindSet(kinds);
      MultisetSum(multiset(GroupItems(rootNodes, Except(done))),
                  multiset(GroupItems(rootNodes, Only(kinds[0]))),
                  multiset(GroupItems(rootNodes, Except(next))),
                  KindItems(rootNodes, kinds[1..]),
                  multiset(GroupItems(rootNodes, Except(done + KindSet(kinds)))));
      assert KindItems(rootNodes, kinds) == multiset(GroupItems(rootNodes, Only(kinds[0]))) + KindItems(rootNodes, rest);
    } else {
      assert done + KindSet(kinds) == done;
    }
  }

  /** The kinds after the first are distinct and new to `done` with the
      first added. */
  lemma TailKindsStayFresh(kinds: seq<string>, done: set<string>)
    requires kinds != []
    requires forall i :: 0 <= i < |kinds| ==> kinds[i] !in done
    requires forall i, j :: 0 <= i < j < |kinds| ==> kinds[i] != kinds[j]
    ensures forall i :: 0 <= i < |kinds[1..]| ==> kinds[1..][i] !in done + {kinds[0]}
    ensures forall i, j :: 0 <= i < j < |kinds[1..]| ==> kinds[1..][i] != kinds[1..][j]
  {
    var rest := kinds[1..];
    forall i | 0 <= i < |rest| ensures rest[i] !in done + {kinds[0]} {
      assert rest[i] == kinds[i + 1];
    }
    forall i, j | 0 <= i < j < |rest| ensures rest[i] != rest[j] {
      assert rest[i] == kinds[i + 1] && rest[j] == kinds[j + 1];
    }
  }

  lemma MultisetSum<T>(a: multiset<T>, b: multiset<T>, c: multiset<T>, d: multiset<T>, e: multiset<T>)
    requires a == b + c && c == d + e
    ensures a == (b + d) + e
  {
  }

  /** Each kind `ParseProject` collects is one it has not collected yet. */
  lemma EachParseStepTakesANewKind()
    ensures C.ReferenceElementName !in {C.CompileElementName}
    ensures C.ProjectReferenceElementName !in {C.CompileElementName, C.ReferenceElementName}
    ensures C.PackageReferenceElementName !in {C.CompileElementName, C.ReferenceElementName, C.ProjectReferenceElementName}
    ensures C.AnalyzerElementName
         !in {C.CompileElementName, C.ReferenceElementName, C.ProjectReferenceElementName, C.PackageReferenceElementName}
    ensures C.AdditionalFilesElementName
         !in {C.CompileElementName, C.ReferenceElementName, C.ProjectReferenceElementName, C.PackageReferenceElementName,
              C.AnalyzerElementName}
    ensures var none: set<string> := {};
      none + {C.CompileElementName} + {C.ReferenceElementName} + {C.ProjectReferenceElementName}
      + {C.PackageReferenceElementName} + {C.AnalyzerElementName} + {C.AdditionalFilesElementName} == ItemKindSet()
  {
    ItemKindsAreDistinct();
    assert C.ItemKinds[0] == C.CompileElementName && C.ItemKinds[1] == C.ReferenceElementName;
    assert C.ItemKinds[2] == C.ProjectReferenceElementName && C.ItemKinds[3] == C.PackageReferenceElementName;
    assert C.ItemKinds[4] == C.AnalyzerElementName && C.ItemKinds[5] == C.AdditionalFilesElementName;
  }

  lemma ItemKindsAreDistinct()
    ensures forall i, j :: 0 <= i < j < |C.ItemKinds| ==> C.ItemKinds[i] != C.ItemKinds[j]
    ensures KindSet(C.ItemKinds) == ItemKindSet()
  {
    KindSetHoldsTheKinds(C.ItemKinds);
  }

  /** Every item of an attribute-less root group lands in exactly one of the
      seven lists: the six kinds, counted together, and every other item make
      up all items, duplicates included. */
  lemma ParsedListsPartitionItems(rootNodes: seq<Node>)
    ensures multiset(GroupItems(rootNodes, Except({})))
         == KindItems(rootNodes, C.ItemKinds) + multiset(ParsedLists(rootNodes)[6])
  {
    var none: set<string> := {};
    ItemKindsAreDistinct();
    PartitionByKinds(rootNodes, C.ItemKinds, none);
    assert none + KindSet(C.ItemKinds) == ItemKindSet();
  }
}
