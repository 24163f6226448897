/** What a graft guarantees about the nodes it hands over (crates/remoter-import/src/native.rs:277-375). */
module GraftTheorems {
  import opened Base
  import opened Inheritance
  import opened Nodes
  import opened Validation
  import opened Lineages
  import opened Forests
  import opened Trees
  import opened Renaming
  import opened ParentOrder
  import opened Grafting

  // Each planted node.

  lemma {:induction false} PlantedReferences(n: Node, soil: Soil, sort: int)
    ensures References(Plant(n, soil, sort)) == MapSeq(References(RemapNode(n, soil.ids)), Settling(soil))
    ensures AttachedTo(Plant(n, soil, sort)).Some? ==> AttachedTo(Plant(n, soil, sort)).value in soil.ids.Values
  {
    hide References, RemapNode, MapKind;
    var moved := RemapNode(n, soil.ids);
    var placed := if TopLevel(n, soil) then moved.(parentId := soil.parent, sortOrder := sort) else moved;
    ReferencesMapped(Dated(placed, soil.now), Settling(soil));
    PlaceKeepsReferences(moved, soil.parent, sort);
    DatedKeepsReferences(placed, soil.now);
    UnownedKeepsReferences(MapReferences(Dated(placed, soil.now), Settling(soil)), soil);
  }

  lemma PlaceKeepsReferences(n: Node, parent: Option<NodeId>, sort: int)
    ensures References(n.(parentId := parent, sortOrder := sort)) == References(n)
  {
  }

  lemma DatedKeepsReferences(n: Node, now: int)
    ensures References(Dated(n, now)) == References(n)
  {
  }

  lemma UnownedKeepsReferences(n: Node, soil: Soil)
    ensures References(Unowned(n, soil)) == References(n)
  {
  }

  lemma PlantedColumns(n: Node, soil: Soil, sort: int)
    ensures var p := Plant(n, soil, sort);
            && p.id == Renamed(n.id, soil.ids) && p.deletedAt.None? && p.createdAt == soil.now && p.revision == 1
            && p.name == n.name
            && p.parentId == (if TopLevel(n, soil) then soil.parent else MapOption(n.parentId, RenameBy(soil.ids)))
  {
    hide MapKind;
  }

  lemma {:induction false} PlantedAt(kept: seq<Node>, soil: Soil, sort: int, i: nat) returns (at: int)
    requires i < |kept|
    ensures |PlantAll(kept, soil, sort)| == |kept| && PlantAll(kept, soil, sort)[i] == Plant(kept[i], soil, at)
    decreases |kept|
  {
    hide Plant;
    PlantAllSize(kept, soil, sort);
    if i == 0 {
      at := sort;
    } else {
      at := PlantedAt(kept[1..], soil, NextSort(kept[0], soil, sort), i - 1);
    }
  }

  lemma {:induction false} PlantAllSize(kept: seq<Node>, soil: Soil, sort: int)
    ensures |PlantAll(kept, soil, sort)| == |kept|
  {
    hide Plant;
    if kept != [] {
      PlantAllSize(kept[1..], soil, NextSort(kept[0], soil, sort));
    }
  }

  // The setting: distinct ids, and new ids that occur nowhere else.

  ghost predicate FreshIds(nodes: seq<Node>, newIds: IdMap, destination: Forest, parent: Option<NodeId>) {
    && DistinctIds(nodes) && newIds.Keys == IdSet(nodes) && Injective(newIds)
    && newIds.Values !! destination.Keys && (parent.Some? ==> parent.value !in newIds.Values)
  }

  ghost predicate Grafts(nodes: seq<Node>, dropped: set<NodeId>, newIds: IdMap, destination: Forest, parent: Option<NodeId>, soil: Soil) {
    && FreshIds(nodes, newIds, destination, parent) && Closed(nodes, dropped)
    && soil == SoilFor(nodes, dropped, newIds, destination, parent, soil.now)
  }

  lemma {:induction false} KeptDistinct(nodes: seq<Node>, dropped: set<NodeId>)
    requires DistinctIds(nodes)
    ensures DistinctIds(Kept(nodes, dropped))
  {
    if nodes != [] {
      KeptDistinct(nodes[1..], dropped);
      KeptSize(nodes[1..], dropped);
      var rest := Kept(nodes[1..], dropped);
      forall j | 0 <= j < |rest| ensures rest[j].id != nodes[0].id {
        assert rest[j] in nodes[1..];
      }
    }
  }

  lemma {:induction false} SoilIds(nodes: seq<Node>, dropped: set<NodeId>, newIds: IdMap, destination: Forest, parent: Option<NodeId>, soil: Soil)
    requires Grafts(nodes, dropped, newIds, destination, parent, soil)
    ensures soil.ids.Keys == IdSet(Kept(nodes, dropped)) && Injective(soil.ids) && soil.ids.Values <= newIds.Values
    ensures soil.parent == parent && soil.destination == destination && soil.dropped == dropped && soil.present == IdSet(nodes)
    ensures DistinctIds(Kept(nodes, dropped)) && forall n :: n in Kept(nodes, dropped) <==> n in nodes && n.id !in dropped
  {
    hide DistinctIds, NameMap;
    KeptSize(nodes, dropped);
    KeptDistinct(nodes, dropped);
  }

  lemma {:induction false} PlantedDistinct(nodes: seq<Node>, dropped: set<NodeId>, newIds: IdMap, destination: Forest, parent: Option<NodeId>, soil: Soil, sort: int)
    requires Grafts(nodes, dropped, newIds, destination, parent, soil)
    ensures var planted := PlantAll(Kept(nodes, dropped), soil, sort);
            DistinctIds(planted) && IdSet(planted) == soil.ids.Values
  {
    hide Grafts, Plant, Kept, PlantAll;
    var kept, planted := Kept(nodes, dropped), PlantAll(Kept(nodes, dropped), soil, sort);
    SoilIds(nodes, dropped, newIds, destination, parent, soil);
    PlantAllSize(kept, soil, sort);
    forall i | 0 <= i < |kept| ensures kept[i].id in soil.ids && planted[i].id == soil.ids[kept[i].id] {
      assert kept[i] in kept;
      var at := PlantedAt(kept, soil, sort, i);
      PlantedColumns(kept[i], soil, at);
    }
    forall y | y in soil.ids.Values ensures y in IdSet(planted) {
      var x :| x in soil.ids && soil.ids[x] == y;
      var n :| n in kept && n.id == x;
      var i :| 0 <= i < |kept| && kept[i] == n;
      assert planted[i] in planted;
    }
  }

  /**
   The output is closed: every live reference has its target among the planted nodes or the
   live nodes of the destination, every owner is a planted node, and every node arrives live.
   */
  lemma {:induction false} GraftIsClosed(nodes: seq<Node>, dropped: set<NodeId>, newIds: IdMap, destination: Forest, parent: Option<NodeId>, soil: Soil, sort: int, n: Node)
    requires Grafts(nodes, dropped, newIds, destination, parent, soil)
    requires n in PlantAll(Kept(nodes, dropped), soil, sort)
    ensures var planted := PlantAll(Kept(nodes, dropped), soil, sort);
            && n.deletedAt.None? && n.revision == 1
            && (forall ref :: ref in References(n) && ref.Live? ==>
                  ref.id in IdSet(planted) || (ref.id in destination && destination[ref.id].deletedAt.None?))
            && (AttachedTo(n).Some? ==> AttachedTo(n).value in IdSet(planted))
  {
    hide Plant, Kept, PlantAll, References, Grafts;
    var kept, planted := Kept(nodes, dropped), PlantAll(Kept(nodes, dropped), soil, sort);
    SoilIds(nodes, dropped, newIds, destination, parent, soil);
    PlantedDistinct(nodes, dropped, newIds, destination, parent, soil, sort);
    PlantAllSize(kept, soil, sort);
    var i :| 0 <= i < |planted| && planted[i] == n;
    var at := PlantedAt(kept, soil, sort, i);
    PlantedReferences(kept[i], soil, at);
    PlantedColumns(kept[i], soil, at);
  }

  // What becomes of each kept node, in terms of the export and the destination alone.

  /** The id is that of a node of the export that is kept. */
  ghost predicate Comes(nodes: seq<Node>, dropped: set<NodeId>, id: NodeId) {
    id !in dropped && exists n :: n in nodes && n.id == id
  }

  /**
   A live reference to a kept node follows it to its new id, one to a live node of the destination stays, and any
   other becomes a tombstone with the name the export knows it by; a tombstone keeps its name. (An id that is by
   chance a new one as well is left out of the third case.)
   */
  ghost predicate Redirects(nodes: seq<Node>, dropped: set<NodeId>, newIds: IdMap, destination: Forest, was: NodeRef, got: NodeRef)
    requires IdSet(nodes) <= newIds.Keys
  {
    var target := if Comes(nodes, dropped, was.id) then newIds[was.id] else was.id;
    match was
    case Deleted(_, name) => got == Deleted(target, name)
    case Live(id) =>
      && (Comes(nodes, dropped, id) ==> got == Live(target))
      && (!Comes(nodes, dropped, id) && id in destination && destination[id].deletedAt.None? ==> got == was)
      && (!Comes(nodes, dropped, id) && !(id in destination && destination[id].deletedAt.None?) && id !in newIds.Values ==>
            got.Deleted? && got.id == id
            && (forall n :: n in nodes && n.id == id ==> got.name == n.name)
            && ((forall n :: n in nodes ==> n.id != id) ==> got.name == ""))
  }

  /** An owner that is kept is followed; any other is forgotten. */
  ghost predicate Reowns(nodes: seq<Node>, dropped: set<NodeId>, newIds: IdMap, was: Option<NodeId>, got: Option<NodeId>)
    requires IdSet(nodes) <= newIds.Keys
  {
    match was
    case None => got.None?
    case Some(owner) =>
      && (Comes(nodes, dropped, owner) ==> got == Some(newIds[owner]))
      && (!Comes(nodes, dropped, owner) && owner !in newIds.Values ==> got.None?)
  }

  /** What a kept node arrives as: new id, new dates, its place among the kept nodes or at the destination, the rest as it was. */
  ghost predicate Arrives(nodes: seq<Node>, dropped: set<NodeId>, newIds: IdMap, destination: Forest, parent: Option<NodeId>, now: int, was: Node, got: Node)
    requires IdSet(nodes) <= newIds.Keys && was in nodes
  {
    && got == was.(id := newIds[was.id], parentId := got.parentId, sortOrder := got.sortOrder, kind := got.kind,
                   createdAt := now, updatedAt := now, revision := 1, deletedAt := None)
    && (if was.parentId.Some? && Comes(nodes, dropped, was.parentId.value)
        then got.parentId == Some(newIds[was.parentId.value]) && got.sortOrder == was.sortOrder
        else got.parentId == parent)
    && SameScalars(was, got) && |References(got)| == |References(was)|
    && (forall i :: 0 <= i < |References(was)| ==> Redirects(nodes, dropped, newIds, destination, References(was)[i], References(got)[i]))
    && Reowns(nodes, dropped, newIds, AttachedTo(was), AttachedTo(got))
  }

  lemma {:induction false} ComesIsKept(nodes: seq<Node>, dropped: set<NodeId>, newIds: IdMap, destination: Forest, parent: Option<NodeId>, soil: Soil, id: NodeId)
    requires Grafts(nodes, dropped, newIds, destination, parent, soil)
    ensures id in soil.ids <==> Comes(nodes, dropped, id)
    ensures id in soil.ids ==> id in newIds && soil.ids[id] == newIds[id]
    ensures id in soil.present <==> exists n :: n in nodes && n.id == id
  {
    hide NameMap;
    KeptSize(nodes, dropped);
  }

  lemma {:induction false} ExportedName(nodes: seq<Node>, id: NodeId)
    requires DistinctIds(nodes)
    ensures (forall n :: n in nodes && n.id == id ==> id in NameMap(nodes) && NameMap(nodes)[id] == n.name)
    ensures (forall n :: n in nodes ==> n.id != id) ==> id !in NameMap(nodes)
  {
    hide ForestOf, DistinctIds;
    ForestOfMembers(nodes);
  }

  lemma {:induction false} SettledRedirects(nodes: seq<Node>, dropped: set<NodeId>, newIds: IdMap, destination: Forest, parent: Option<NodeId>, soil: Soil, ref: NodeRef)
    requires Grafts(nodes, dropped, newIds, destination, parent, soil)
    ensures Redirects(nodes, dropped, newIds, destination, ref, Settled(Retargeted(ref, soil.ids), soil))
  {
    hide Kept, NameMap, ForestOf, DistinctIds, Closed, Comes;
    ComesIsKept(nodes, dropped, newIds, destination, parent, soil, ref.id);
    ExportedName(nodes, ref.id);
    if ref.id in soil.ids {
      assert soil.ids[ref.id] in soil.ids.Values;
    }
    SoilIds(nodes, dropped, newIds, destination, parent, soil);
  }

  lemma PlantedRest(n: Node, soil: Soil, sort: int)
    ensures var p := Plant(n, soil, sort);
            && p == n.(id := p.id, parentId := p.parentId, sortOrder := p.sortOrder, kind := p.kind,
                       createdAt := soil.now, updatedAt := soil.now, revision := 1, deletedAt := None)
            && p.sortOrder == (if TopLevel(n, soil) then sort else n.sortOrder)
  {
    hide MapKind;
  }

  lemma {:induction false} PlantedShape(n: Node, soil: Soil, sort: int)
    ensures SameScalars(n, Plant(n, soil, sort))
  {
    hide MapKind, SameScalars, Unowned;
    var moved := RemapNode(n, soil.ids);
    var placed := if TopLevel(n, soil) then moved.(parentId := soil.parent, sortOrder := sort) else moved;
    var dated := Dated(placed, soil.now);
    RemappedScalars(n, soil.ids);
    SameScalarsOfKind(n, moved, dated);
    MapKeepsShape(dated, Settling(soil));
    ScalarsChain(n, dated, MapReferences(dated, Settling(soil)));
    UnownedShape(n, MapReferences(dated, Settling(soil)), soil);
  }

  lemma ScalarsChain(a: Node, b: Node, c: Node)
    requires SameScalars(a, b) && SameScalars(b, c)
    ensures SameScalars(a, c)
  {
  }

  lemma UnownedShape(n: Node, m: Node, soil: Soil)
    requires SameScalars(n, m)
    ensures SameScalars(n, Unowned(m, soil))
  {
  }

  lemma PlantedOwner(n: Node, soil: Soil, sort: int)
    ensures var to := MapOption(AttachedTo(n), RenameBy(soil.ids));
            AttachedTo(Plant(n, soil, sort)) == if to.Some? && to.value in soil.ids.Values then to else None
  {
    hide MapFields;
  }

  /** Every node of a graft is a kept one, arrived. */
  lemma {:induction false} GraftedExactly(nodes: seq<Node>, dropped: set<NodeId>, newIds: IdMap, destination: Forest, parent: Option<NodeId>, soil: Soil, sort: int, i: nat)
    requires Grafts(nodes, dropped, newIds, destination, parent, soil) && i < |Kept(nodes, dropped)|
    ensures var kept, planted := Kept(nodes, dropped), PlantAll(Kept(nodes, dropped), soil, sort);
            |planted| == |kept| && kept[i] in nodes && Arrives(nodes, dropped, newIds, destination, parent, soil.now, kept[i], planted[i])
  {
    hide Plant, Kept, PlantAll, References, Redirects, NameMap, Comes, DistinctIds, Closed, SoilFor, TopLevel, IdSet;
    var kept := Kept(nodes, dropped);
    var was := kept[i];
    SoilIds(nodes, dropped, newIds, destination, parent, soil);
    var at := PlantedAt(kept, soil, sort, i);
    var got := Plant(was, soil, at);
    assert was in kept;
    KeptHasId(kept, was);
    PlantedColumns(was, soil, at);
    PlantedRest(was, soil, at);
    PlantedShape(was, soil, at);
    PlantedReferences(was, soil, at);
    PlantedOwner(was, soil, at);
    RemappedReferences(was, soil.ids);
    forall j | 0 <= j < |References(was)| ensures Redirects(nodes, dropped, newIds, destination, References(was)[j], References(got)[j]) {
      SettledRedirects(nodes, dropped, newIds, destination, parent, soil, References(was)[j]);
    }
    ComesIsKept(nodes, dropped, newIds, destination, parent, soil, was.id);
    OwnerArrives(nodes, dropped, newIds, destination, parent, soil, AttachedTo(was));
    ParentArrives(nodes, dropped, newIds, destination, parent, soil, was);
  }

  lemma {:induction false} OwnerArrives(nodes: seq<Node>, dropped: set<NodeId>, newIds: IdMap, destination: Forest, parent: Option<NodeId>, soil: Soil, owner: Option<NodeId>)
    requires Grafts(nodes, dropped, newIds, destination, parent, soil)
    ensures var to := MapOption(owner, RenameBy(soil.ids));
            Reowns(nodes, dropped, newIds, owner, if to.Some? && to.value in soil.ids.Values then to else None)
  {
    hide Kept, NameMap, DistinctIds, Closed, Comes;
    SoilIds(nodes, dropped, newIds, destination, parent, soil);
    if owner.Some? {
      ComesIsKept(nodes, dropped, newIds, destination, parent, soil, owner.value);
      if owner.value in soil.ids {
        assert soil.ids[owner.value] in soil.ids.Values;
      }
    }
  }

  lemma {:induction false} ParentArrives(nodes: seq<Node>, dropped: set<NodeId>, newIds: IdMap, destination: Forest, parent: Option<NodeId>, soil: Soil, n: Node)
    requires Grafts(nodes, dropped, newIds, destination, parent, soil)
    ensures TopLevel(n, soil) <==> !(n.parentId.Some? && Comes(nodes, dropped, n.parentId.value))
    ensures !TopLevel(n, soil) ==> n.parentId.value in newIds && MapOption(n.parentId, RenameBy(soil.ids)) == Some(newIds[n.parentId.value])
  {
    hide Kept, NameMap, DistinctIds, Closed;
    SoilIds(nodes, dropped, newIds, destination, parent, soil);
    if n.parentId.Some? {
      ComesIsKept(nodes, dropped, newIds, destination, parent, soil, n.parentId.value);
    }
  }

  // Positions at the destination.

  function TopsBefore(kept: seq<Node>, soil: Soil, i: nat): nat
    requires i <= |kept|
  {
    if i == 0 then 0 else TopsBefore(kept, soil, i - 1) + if TopLevel(kept[i - 1], soil) then 1 else 0
  }

  /** Top-level nodes are numbered on from the base in the order they come, until the counter is full. */
  lemma {:induction false} GraftedPositions(kept: seq<Node>, soil: Soil, sort: int, i: nat)
    requires i < |kept| && sort <= MAX_SORT
    ensures |PlantAll(kept, soil, sort)| == |kept|
    ensures TopLevel(kept[i], soil) ==>
              var place := sort + TopsBefore(kept, soil, i);
              PlantAll(kept, soil, sort)[i].sortOrder == if place <= MAX_SORT then place else MAX_SORT
    decreases |kept|
  {
    hide Plant, TopLevel;
    PlantAllSize(kept, soil, sort);
    PlantedRest(kept[0], soil, sort);
    if i > 0 {
      GraftedPositions(kept[1..], soil, NextSort(kept[0], soil, sort), i - 1);
      TopsShift(kept, soil, i);
    }
  }

  lemma {:induction false} TopsShift(kept: seq<Node>, soil: Soil, i: nat)
    requires 0 < i <= |kept|
    ensures TopsBefore(kept, soil, i) == TopsBefore(kept[1..], soil, i - 1) + if TopLevel(kept[0], soil) then 1 else 0
  {
    hide TopLevel;
    if i > 1 {
      TopsShift(kept, soil, i - 1);
      assert kept[1..][i - 2] == kept[i - 1];
    }
  }

  // The count of new tombstones.

  function Graves(refs: seq<NodeRef>): nat {
    if refs == [] then 0 else (if refs[0].Deleted? then 1 else 0) + Graves(refs[1..])
  }

  function GravesIn(nodes: seq<Node>): nat {
    if nodes == [] then 0 else Graves(References(nodes[0])) + GravesIn(nodes[1..])
  }

  lemma {:induction false} LostAreGraves(refs: seq<NodeRef>, soil: Soil)
    ensures Graves(MapSeq(refs, Settling(soil))) == Graves(refs) + Lost(refs, soil)
  {
    if refs != [] {
      LostAreGraves(refs[1..], soil);
      assert MapSeq(refs, Settling(soil))[1..] == MapSeq(refs[1..], Settling(soil));
    }
  }

  lemma {:induction false} RetargetKeepsGraves(refs: seq<NodeRef>, m: IdMap)
    ensures Graves(MapSeq(refs, RetargetBy(m))) == Graves(refs)
  {
    if refs != [] {
      RetargetKeepsGraves(refs[1..], m);
      assert MapSeq(refs, RetargetBy(m))[1..] == MapSeq(refs[1..], RetargetBy(m));
    }
  }

  /** The reported count is the number of tombstones that were not there before. */
  lemma {:induction false} TombstonesCounted(kept: seq<Node>, soil: Soil, sort: int)
    ensures GravesIn(PlantAll(kept, soil, sort)) == GravesIn(kept) + LostAll(kept, soil)
    decreases |kept|
  {
    hide Plant, References, RemapNode, Graves, Lost;
    if kept != [] {
      TombstonesCounted(kept[1..], soil, NextSort(kept[0], soil, sort));
      PlantedReferences(kept[0], soil, sort);
      RemappedReferences(kept[0], soil.ids);
      LostAreGraves(References(RemapNode(kept[0], soil.ids)), soil);
      RetargetKeepsGraves(References(kept[0]), soil.ids);
      assert PlantAll(kept, soil, sort)[1..] == PlantAll(kept[1..], soil, NextSort(kept[0], soil, sort));
    }
  }

  // Ordering.

  /** The parent links among the kept nodes, as they were exported. */
  function KeptLinks(kept: seq<Node>, soil: Soil): ParentMap {
    var forest := ForestOf(kept);
    map id | id in forest :: if TopLevel(forest[id], soil) then None else forest[id].parentId
  }

  lemma {:induction false} KeptParentKept(nodes: seq<Node>, dropped: set<NodeId>, newIds: IdMap, destination: Forest, parent: Option<NodeId>, soil: Soil, n: Node)
    requires Grafts(nodes, dropped, newIds, destination, parent, soil) && n in Kept(nodes, dropped) && !TopLevel(n, soil)
    ensures n.parentId.Some? && n.parentId.value in soil.ids
  {
    hide Kept, Grafts, ForestOf;
    SoilIds(nodes, dropped, newIds, destination, parent, soil);
    var p :| p in nodes && p.id == n.parentId.value;
    assert p in Kept(nodes, dropped);
  }

  lemma {:induction false} PlantedLinks(nodes: seq<Node>, dropped: set<NodeId>, newIds: IdMap, destination: Forest, parent: Option<NodeId>, soil: Soil, sort: int)
    requires Grafts(nodes, dropped, newIds, destination, parent, soil)
    ensures LinksRenamed(KeptLinks(Kept(nodes, dropped), soil), LinksOf(PlantAll(Kept(nodes, dropped), soil, sort), parent), soil.ids)
  {
    hide Grafts, Kept, PlantAll, Plant, ForestOf, FreshIds, DistinctIds, Injective, TopLevel, KeptLinks, LinksOf, RenameBy;
    var kept, planted := Kept(nodes, dropped), PlantAll(Kept(nodes, dropped), soil, sort);
    SoilIds(nodes, dropped, newIds, destination, parent, soil);
    PlantedDistinct(nodes, dropped, newIds, destination, parent, soil, sort);
    LinksKeys(kept, soil, planted, parent);
    forall x | x in KeptLinks(kept, soil)
      ensures soil.ids[x] in LinksOf(planted, parent)
      ensures LinksOf(planted, parent)[soil.ids[x]] == MapOption(KeptLinks(kept, soil)[x], RenameBy(soil.ids))
      ensures KeptLinks(kept, soil)[x].Some? ==> KeptLinks(kept, soil)[x].value in KeptLinks(kept, soil)
    {
      PlantedLink(nodes, dropped, newIds, destination, parent, soil, sort, x);
    }
  }

  lemma LinksKeys(kept: seq<Node>, soil: Soil, planted: seq<Node>, parent: Option<NodeId>)
    ensures KeptLinks(kept, soil).Keys == IdSet(kept) && LinksOf(planted, parent).Keys == IdSet(planted)
  {
    hide ForestOf;
    ForestOfMembers(kept);
    ForestOfMembers(planted);
  }

  lemma {:induction false} PlantedLink(nodes: seq<Node>, dropped: set<NodeId>, newIds: IdMap, destination: Forest, parent: Option<NodeId>, soil: Soil, sort: int, x: NodeId)
    requires Grafts(nodes, dropped, newIds, destination, parent, soil) && x in IdSet(Kept(nodes, dropped))
    ensures var kept, planted := Kept(nodes, dropped), PlantAll(Kept(nodes, dropped), soil, sort);
            && x in soil.ids && x in KeptLinks(kept, soil) && soil.ids[x] in LinksOf(planted, parent)
            && LinksOf(planted, parent)[soil.ids[x]] == MapOption(KeptLinks(kept, soil)[x], RenameBy(soil.ids))
            && (KeptLinks(kept, soil)[x].Some? ==> KeptLinks(kept, soil)[x].value in KeptLinks(kept, soil))
  {
    hide Kept, PlantAll, Plant, ForestOf, DistinctIds, Injective, SoilFor, Closed, RenameBy, Grafts, FreshIds;
    var kept, planted := Kept(nodes, dropped), PlantAll(Kept(nodes, dropped), soil, sort);
    SoilIds(nodes, dropped, newIds, destination, parent, soil);
    PlantedDistinct(nodes, dropped, newIds, destination, parent, soil, sort);
    LinksKeys(kept, soil, planted, parent);
    var n :| n in kept && n.id == x;
    var p := PlantedParent(nodes, dropped, newIds, destination, parent, soil, sort, n);
    ForestOfMembers(kept);
    ForestOfMembers(planted);
  }

  /** Where a kept node hangs once it is planted. */
  lemma {:induction false} PlantedParent(nodes: seq<Node>, dropped: set<NodeId>, newIds: IdMap, destination: Forest, parent: Option<NodeId>, soil: Soil, sort: int, n: Node) returns (p: Node)
    requires Grafts(nodes, dropped, newIds, destination, parent, soil) && n in Kept(nodes, dropped)
    ensures p in PlantAll(Kept(nodes, dropped), soil, sort) && n.id in soil.ids && p.id == soil.ids[n.id]
    ensures TopLevel(n, soil) ==> AtTop(p, parent)
    ensures !TopLevel(n, soil) ==>
              && n.parentId.Some? && n.parentId.value in soil.ids && !AtTop(p, parent)
              && p.parentId == MapOption(n.parentId, RenameBy(soil.ids))
  {
    hide Kept, PlantAll, Plant, DistinctIds, Injective, SoilFor, Closed, TopLevel, IdSet;
    var kept := Kept(nodes, dropped);
    SoilIds(nodes, dropped, newIds, destination, parent, soil);
    var i :| 0 <= i < |kept| && kept[i] == n;
    var at := PlantedAt(kept, soil, sort, i);
    p := PlantAll(kept, soil, sort)[i];
    PlantedColumns(n, soil, at);
    KeptHasId(kept, n);
    if !TopLevel(n, soil) {
      KeptParentKept(nodes, dropped, newIds, destination, parent, soil, n);
      assert soil.ids[n.parentId.value] in soil.ids.Values;
    }
  }

  lemma KeptHasId(kept: seq<Node>, n: Node)
    requires n in kept
    ensures n.id in IdSet(kept)
  {
  }

  /**
   The nodes can be put in order exactly when the kept parent links contain no cycle; a
   parent that did not come with the export makes its child top-level, not an error.
   */
  lemma {:induction false} OrderableExact(nodes: seq<Node>, dropped: set<NodeId>, newIds: IdMap, destination: Forest, parent: Option<NodeId>, soil: Soil, sort: int)
    requires Grafts(nodes, dropped, newIds, destination, parent, soil)
    ensures var kept, planted := Kept(nodes, dropped), PlantAll(Kept(nodes, dropped), soil, sort);
            (forall n :: n in planted ==> Rooted(LinksOf(planted, parent), Some(n.id)))
            <==> (forall id :: id in KeptLinks(kept, soil) ==> !Cyclic(KeptLinks(kept, soil), KeptLinks(kept, soil)[id]))
  {
    hide Rooted, Cyclic, Kept, PlantAll, LinksOf, KeptLinks, Grafts, Injective, LinksRenamed, DistinctIds;
    var kept, planted := Kept(nodes, dropped), PlantAll(Kept(nodes, dropped), soil, sort);
    SoilIds(nodes, dropped, newIds, destination, parent, soil);
    PlantedDistinct(nodes, dropped, newIds, destination, parent, soil, sort);
    PlantedLinks(nodes, dropped, newIds, destination, parent, soil, sort);
    LinksKeys(kept, soil, planted, parent);
    LinksOrderable(KeptLinks(kept, soil), LinksOf(planted, parent), soil.ids);
    assert forall n :: n in planted ==> n.id in IdSet(planted);
    assert forall y :: y in IdSet(planted) ==> exists n :: n in planted && n.id == y;
  }

  lemma {:induction false} LinksOrderable(par: ParentMap, after: ParentMap, m: IdMap)
    requires LinksRenamed(par, after, m)
    ensures (forall y :: y in m.Values ==> Rooted(after, Some(y))) <==> (forall id :: id in par ==> !Cyclic(par, par[id]))
  {
    hide Rooted, Cyclic, Injective;
    forall id | id in par ensures m[id] in m.Values && (Rooted(after, Some(m[id])) <==> !Cyclic(par, par[id])) {
      RootedRenamed(par, after, m, id);
      UnrootedIsCyclic(par, id);
    }
  }

  // Inserting.

  /** The next node of a parents-first batch can only be refused for its parent's kind or its depth. */
  lemma {:induction false} NextFits(current: Forest, n: Node)
    requires Legal(current) && ValidateNode(n).None? && n.id !in current
    requires n.parentId.Some? ==> n.parentId.value in current
    ensures InsertError(current, n).Some? ==>
              InsertError(current, n).value.NotAContainer? || InsertError(current, n).value.DepthExceeded?
    ensures InsertError(current, n).None? ==> Legal(current[n.id := n])
  {
    hide Legal, ValidateNode, Depth, AncestorsOf, Rooted;
    if n.parentId.Some? {
      LegalIsSound(current);
      assert Placed(current, n.parentId.value);
      AncestorsDepth(current, n.parentId.value);
    }
    InsertExact(current, n);
  }

  /** A tree with a batch put into it. */
  function Joined(current: Forest, batch: seq<Node>): Forest
    decreases |batch|
  {
    if batch == [] then current else Joined(current[batch[0].id := batch[0]], batch[1..])
  }

  lemma {:induction false} JoinedKeeps(current: Forest, batch: seq<Node>)
    requires forall i :: 0 <= i < |batch| ==> batch[i].id !in current
    requires DistinctIds(batch)
    ensures forall x :: x in current ==> x in Joined(current, batch) && Joined(current, batch)[x] == current[x]
    decreases |batch|
  {
    if batch != [] {
      var next := current[batch[0].id := batch[0]];
      assert forall i :: 0 <= i < |batch[1..]| ==> batch[1..][i] == batch[i + 1];
      JoinedKeeps(next, batch[1..]);
      assert forall x :: x in current ==> x in next && next[x] == current[x];
    }
  }

  /** In a tree that has grown, the old nodes are where they were. */
  lemma {:induction false} DepthKept(nodes: Forest, more: Forest, x: NodeId)
    requires Grounded(nodes) && x in nodes && forall y :: y in nodes ==> y in more && more[y] == nodes[y]
    ensures Rooted(Parents(more), Some(x)) && Depth(more, x) == Depth(nodes, x)
  {
    hide Lineage, Rooted, Climb;
    assert Placed(nodes, x);
    LineageChain(Parents(nodes), Some(x));
    LineageKept(Parents(nodes), Parents(more), Some(x));
  }

  /** A node of the batch has a folder above it, if anything, and is no deeper than the limit. */
  ghost predicate HasRoom(all: Forest, n: Node) {
    n.id in all && HeldByFolder(all, n.id) && Depth(all, n.id) <= MAX_TREE_DEPTH
  }

  /** A node can be inserted now exactly when it has room in the end. */
  lemma {:induction false} RoomExact(current: Forest, n: Node, all: Forest)
    requires Legal(current) && ValidateNode(n).None? && n.id !in current && (n.parentId.Some? ==> n.parentId.value in current)
    requires n.id in all && all[n.id] == n && forall y :: y in current ==> y in all && all[y] == current[y]
    ensures InsertError(current, n).None? <==> HasRoom(all, n)
  {
    hide Lineage, Rooted, Climb, ValidateNode, AncestorsOf;
    var par := Parents(all);
    RootLineage(par);
    LineageStep(par, n.id);
    if n.parentId.Some? {
      assert Placed(current, n.parentId.value);
      AncestorsDepth(current, n.parentId.value);
      DepthKept(current, all, n.parentId.value);
    }
  }

  /**
   A parents-first batch of valid nodes with new, distinct ids goes into a legal tree that holds its
   destination exactly when every node of it then has a folder above it and is within the depth limit;
   otherwise one of these is what the refusal names.
   */
  lemma {:induction false} BatchInserts(current: Forest, batch: seq<Node>, k: nat, parent: Option<NodeId>)
    requires Legal(current) && k <= |batch| && DistinctIds(batch) && ParentsBefore(batch, parent)
    requires parent.Some? ==> parent.value in current
    requires forall i :: 0 <= i < |batch| ==> ValidateNode(batch[i]).None?
    requires forall i :: 0 <= i < |batch| ==> (batch[i].id in current <==> i < k)
    ensures var r := InsertAll(current, batch[k..]);
            && (r.Ok? <==> forall i :: k <= i < |batch| ==> HasRoom(Joined(current, batch[k..]), batch[i]))
            && (r.Err? ==> r.error.NotAContainer? || r.error.DepthExceeded?)
    decreases |batch| - k
  {
    hide Legal, ValidateNode, InsertError, HasRoom;
    if k < |batch| {
      var n, all := batch[k], Joined(current, batch[k..]);
      assert batch[k..][0] == n && batch[k..][1..] == batch[k + 1..];
      if !AtTop(n, parent) {
        assert ParentAmong(batch[..k], n.parentId.value);
      }
      NextFits(current, n);
      RestIsNew(current, batch, k);
      JoinedKeeps(current[n.id := n], batch[k + 1..]);
      assert all == Joined(current[n.id := n], batch[k + 1..]);
      assert forall y :: y in current ==> current[n.id := n][y] == current[y];
      RoomExact(current, n, all);
      if InsertError(current, n).None? {
        BatchInserts(current[n.id := n], batch, k + 1, parent);
      }
    }
  }

  lemma RestIsNew(current: Forest, batch: seq<Node>, k: nat)
    requires k < |batch| && DistinctIds(batch) && forall i :: 0 <= i < |batch| ==> (batch[i].id in current <==> i < k)
    ensures var rest := batch[k + 1..];
            DistinctIds(rest) && forall i :: 0 <= i < |rest| ==> rest[i].id !in current[batch[k].id := batch[k]]
  {
  }

  /**
   The hand-over: what `graft` returns goes into its destination, in order, exactly when every node of it
   then has a folder above it and is within the depth limit, and a refusal names one of the two.
   */
  lemma {:induction false} GraftInserts(nodes: seq<Node>, dropped: set<NodeId>, newIds: IdMap, destination: Forest, parent: Option<NodeId>, soil: Soil, sort: int, out: seq<Node>)
    requires Grafts(nodes, dropped, newIds, destination, parent, soil) && Legal(destination)
    requires parent.Some? ==> parent.value in destination
    requires multiset(out) == multiset(PlantAll(Kept(nodes, dropped), soil, sort)) && ParentsBefore(out, parent)
    requires forall n :: n in out ==> ValidateNode(n).None?
    ensures var r := InsertAll(destination, out);
            && (r.Ok? <==> forall i :: 0 <= i < |out| ==> HasRoom(Joined(destination, out), out[i]))
            && (r.Err? ==> r.error.NotAContainer? || r.error.DepthExceeded?)
  {
    hide Legal, ValidateNode, ParentsBefore, Kept, PlantAll, Plant, InsertAll, HasRoom, Joined;
    var planted := PlantAll(Kept(nodes, dropped), soil, sort);
    SoilIds(nodes, dropped, newIds, destination, parent, soil);
    PlantedDistinct(nodes, dropped, newIds, destination, parent, soil, sort);
    PermutedDistinct(planted, out);
    forall i | 0 <= i < |out| ensures out[i].id !in destination {
      assert out[i] in multiset(out);
      assert out[i] in planted;
      assert out[i].id in IdSet(planted);
    }
    assert out[0..] == out;
    BatchInserts(destination, out, 0, parent);
  }

  lemma {:induction false} PermutedDistinct(a: seq<Node>, b: seq<Node>)
    requires DistinctIds(a) && multiset(a) == multiset(b)
    ensures DistinctIds(b)
  {
    forall i, j | 0 <= i < j < |b| ensures b[i].id != b[j].id {
      assert b[i] in multiset(b) && b[j] in multiset(b);
      var x :| 0 <= x < |a| && a[x] == b[i];
      var y :| 0 <= y < |a| && a[y] == b[j];
      if b[i] == b[j] {
        TwiceInMultiset(b, i, j);
        OnceInMultiset(a, x);
      }
    }
  }

  lemma TwiceInMultiset(s: seq<Node>, i: nat, j: nat)
    requires i < j < |s| && s[i] == s[j]
    ensures multiset(s)[s[i]] >= 2
  {
    assert s == s[..j] + [s[j]] + s[j + 1..];
    assert s[..j] == s[..i] + [s[i]] + s[i + 1..j];
  }

  lemma OnceInMultiset(s: seq<Node>, i: nat)
    requires DistinctIds(s) && i < |s|
    ensures multiset(s)[s[i]] == 1
  {
    assert s == s[..i] + [s[i]] + s[i + 1..];
    assert s[i] !in s[..i] && s[i] !in s[i + 1..];
  }
}
