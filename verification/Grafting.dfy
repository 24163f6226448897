/** Preparing exported nodes for insertion into another tree (crates/remoter-import/src/native.rs:277-375). */
module Grafting {
  import opened Base
  import opened Inheritance
  import opened Nodes
  import opened Validation
  import opened Lineages
  import opened Forests
  import opened Trees
  import opened Transport
  import opened Renaming
  import opened ParentOrder

  const MAX_SORT: int := 0x7FFF_FFFF_FFFF_FFFF

  datatype GraftError = Refused(error: ValidationError) | NotATree

  datatype Grafted = Grafted(nodes: seq<Node>, ids: IdMap, excluded: nat, tombstoned: nat)

  // Closing the exclusion.

  /** The node goes when its parent goes, or when the connection it is attached to goes. */
  predicate Dragged(n: Node, dropped: set<NodeId>) {
    || (n.parentId.Some? && n.parentId.value in dropped)
    || (AttachedTo(n).Some? && AttachedTo(n).value in dropped)
  }

  ghost predicate Closed(nodes: seq<Node>, dropped: set<NodeId>) {
    forall n :: n in nodes && Dragged(n, dropped) ==> n.id in dropped
  }

  ghost predicate WithinEveryClosure(nodes: seq<Node>, excluded: set<NodeId>, dropped: set<NodeId>) {
    forall s: set<NodeId> {:trigger Closed(nodes, s)} :: excluded <= s && Closed(nodes, s) ==> dropped <= s
  }

  /** The least set that holds the excluded ids and is closed. */
  ghost predicate LeastClosure(nodes: seq<Node>, excluded: set<NodeId>, dropped: set<NodeId>) {
    excluded <= dropped && Closed(nodes, dropped) && WithinEveryClosure(nodes, excluded, dropped)
  }

  method CloseExclusion(nodes: seq<Node>, excluded: set<NodeId>) returns (dropped: set<NodeId>, ghost passes: nat)
    ensures LeastClosure(nodes, excluded, dropped)
    ensures passes <= |nodes| + 1
  {
    hide WithinEveryClosure, Closed, IdSet;
    dropped, passes := excluded, 0;
    NothingDropped(nodes, excluded);
    while true
      invariant excluded <= dropped <= excluded + IdSet(nodes)
      invariant WithinEveryClosure(nodes, excluded, dropped)
      invariant passes + |excluded| <= |dropped|
      decreases |excluded + IdSet(nodes)| - |dropped|
    {
      var before := dropped;
      for i := 0 to |nodes|
        invariant before <= dropped <= excluded + IdSet(nodes)
        invariant WithinEveryClosure(nodes, excluded, dropped)
        invariant dropped == before ==> forall j :: 0 <= j < i && Dragged(nodes[j], before) ==> nodes[j].id in before
      {
        if Dragged(nodes[i], dropped) {
          DropOne(nodes, excluded, dropped, i);
          dropped := dropped + {nodes[i].id};
        }
      }
      SubsetIsNoLarger(before, dropped);
      SubsetIsNoLarger(dropped, excluded + IdSet(nodes));
      passes := passes + 1;
      if |dropped| == |before| {
        IsClosed(nodes, dropped);
        DroppedBound(nodes, excluded);
        return;
      }
    }
  }

  lemma NothingDropped(nodes: seq<Node>, excluded: set<NodeId>)
    ensures WithinEveryClosure(nodes, excluded, excluded)
  {
  }

  lemma DropOne(nodes: seq<Node>, excluded: set<NodeId>, dropped: set<NodeId>, i: nat)
    requires i < |nodes| && Dragged(nodes[i], dropped) && WithinEveryClosure(nodes, excluded, dropped)
    ensures WithinEveryClosure(nodes, excluded, dropped + {nodes[i].id}) && nodes[i].id in IdSet(nodes)
  {
    assert nodes[i] in nodes;
    forall s: set<NodeId> {:trigger Closed(nodes, s)} | excluded <= s && Closed(nodes, s) ensures dropped + {nodes[i].id} <= s {
      assert dropped <= s;
      assert Dragged(nodes[i], s);
    }
  }

  lemma IsClosed(nodes: seq<Node>, dropped: set<NodeId>)
    requires forall j :: 0 <= j < |nodes| && Dragged(nodes[j], dropped) ==> nodes[j].id in dropped
    ensures Closed(nodes, dropped)
  {
  }

  lemma {:induction false} DroppedBound(nodes: seq<Node>, excluded: set<NodeId>)
    ensures |excluded + IdSet(nodes)| <= |excluded| + |nodes|
  {
    IdSetSize(nodes);
    assert excluded + IdSet(nodes) == excluded + (IdSet(nodes) - excluded);
    SubsetIsNoLarger(IdSet(nodes) - excluded, IdSet(nodes));
  }

  lemma {:induction false} IdSetSize(nodes: seq<Node>)
    ensures |IdSet(nodes)| <= |nodes|
  {
    if nodes == [] {
      assert IdSet(nodes) == {};
    } else {
      IdSetSize(nodes[1..]);
      assert nodes == [nodes[0]] + nodes[1..];
      assert IdSet(nodes) == {nodes[0].id} + IdSet(nodes[1..]);
      SubsetIsNoLarger(IdSet(nodes), {nodes[0].id} + IdSet(nodes[1..]));
    }
  }

  /** The closure does not depend on the order the nodes arrive in. */
  lemma {:induction false} ClosureIsOrderFree(a: seq<Node>, b: seq<Node>, excluded: set<NodeId>, s: set<NodeId>, t: set<NodeId>)
    requires (forall n :: n in a <==> n in b) && LeastClosure(a, excluded, s) && LeastClosure(b, excluded, t)
    ensures s == t
  {
    assert Closed(a, t) && Closed(b, s);
  }

  // Planting one node.

  /** Everything the rewriting of one kept node looks at. */
  datatype Soil = Soil(
    present: set<NodeId>,
    dropped: set<NodeId>,
    ids: IdMap,
    names: map<NodeId, string>,
    destination: Forest,
    parent: Option<NodeId>,
    now: int)

  /** No parent, or one that is not among the kept nodes. */
  predicate TopLevel(n: Node, soil: Soil) {
    n.parentId.None? || n.parentId.value !in soil.present || n.parentId.value in soil.dropped
  }

  /** Whether a reference still has a target: another planted node, or a live node of the destination. */
  predicate Keeps(soil: Soil, target: NodeId) {
    target in soil.ids.Values || (target in soil.destination && soil.destination[target].deletedAt.None?)
  }

  function NameFor(soil: Soil, target: NodeId): string {
    if target in soil.names then soil.names[target] else ""
  }

  function Settled(ref: NodeRef, soil: Soil): NodeRef {
    if ref.Live? && !Keeps(soil, ref.id) then Deleted(ref.id, NameFor(soil, ref.id)) else ref
  }

  function Settling(soil: Soil): Rewrite {
    ref => Settled(ref, soil)
  }

  function Unowned(n: Node, soil: Soil): Node {
    if n.kind.Credential? && n.kind.props.attachedTo.Some? && n.kind.props.attachedTo.value !in soil.ids.Values
    then n.(kind := Credential(n.kind.props.(attachedTo := None))) else n
  }

  function Dated(n: Node, now: int): Node {
    n.(createdAt := now, updatedAt := now, revision := 1, deletedAt := None)
  }

  /** One kept node under its new id, in its new place, with nothing left to point nowhere. */
  function Plant(n: Node, soil: Soil, sort: int): Node {
    var moved := RemapNode(n, soil.ids);
    var placed := if TopLevel(n, soil) then moved.(parentId := soil.parent, sortOrder := sort) else moved;
    Unowned(MapReferences(Dated(placed, soil.now), Settling(soil)), soil)
  }

  function NextSort(n: Node, soil: Soil, sort: int): int {
    if TopLevel(n, soil) then if sort < MAX_SORT then sort + 1 else MAX_SORT else sort
  }

  function PlantAll(kept: seq<Node>, soil: Soil, sort: int): seq<Node> {
    if kept == [] then [] else [Plant(kept[0], soil, sort)] + PlantAll(kept[1..], soil, NextSort(kept[0], soil, sort))
  }

  /** How many of a node's references are about to become tombstones. */
  function Lost(refs: seq<NodeRef>, soil: Soil): nat {
    if refs == [] then 0
    else (if refs[0].Live? && !Keeps(soil, refs[0].id) then 1 else 0) + Lost(refs[1..], soil)
  }

  function LostAll(kept: seq<Node>, soil: Soil): nat {
    if kept == [] then 0 else Lost(References(RemapNode(kept[0], soil.ids)), soil) + LostAll(kept[1..], soil)
  }

  function Kept(nodes: seq<Node>, dropped: set<NodeId>): seq<Node> {
    if nodes == [] then []
    else (if nodes[0].id in dropped then [] else [nodes[0]]) + Kept(nodes[1..], dropped)
  }

  function NameMap(nodes: seq<Node>): map<NodeId, string> {
    var forest := ForestOf(nodes);
    map id | id in forest :: forest[id].name
  }

  function SoilFor(nodes: seq<Node>, dropped: set<NodeId>, newIds: IdMap, destination: Forest, parent: Option<NodeId>, now: int): Soil {
    Soil(IdSet(nodes), dropped, map id | id in newIds && id in IdSet(Kept(nodes, dropped)) :: newIds[id],
         NameMap(nodes), destination, parent, now)
  }

  /** Rewrites the kept nodes in order, stopping at the first one the domain model refuses. */
  method PlantKept(kept: seq<Node>, soil: Soil, baseSort: int) returns (planted: seq<Node>, tombstoned: nat, fault: Verdict)
    ensures fault.None? ==> planted == PlantAll(kept, soil, baseSort) && tombstoned == LostAll(kept, soil)
    ensures fault.None? ==> forall n :: n in planted ==> ValidateNode(n).None?
    ensures fault.Some? ==> exists n :: n in PlantAll(kept, soil, baseSort) && ValidateNode(n) == fault
  {
    hide ValidateNode, Plant, Lost, NextSort, References, RemapNode;
    planted, tombstoned, fault := [], 0, None;
    var sort := baseSort;
    ghost var all := PlantAll(kept, soil, baseSort);
    for i := 0 to |kept|
      invariant planted + PlantAll(kept[i..], soil, sort) == all
      invariant tombstoned + LostAll(kept[i..], soil) == LostAll(kept, soil)
      invariant fault.None? && forall n :: n in planted ==> ValidateNode(n).None?
    {
      var n := Plant(kept[i], soil, sort);
      assert kept[i..][0] == kept[i] && kept[i..][1..] == kept[i + 1..];
      assert all[|planted|] == n && n in all;
      tombstoned := tombstoned + Lost(References(RemapNode(kept[i], soil.ids)), soil);
      sort := NextSort(kept[i], soil, sort);
      fault := ValidateNode(n);
      if fault.Some? {
        return;
      }
      planted := planted + [n];
    }
  }

  /** What grafting the kept nodes comes to. */
  ghost predicate Outcome(r: Result<Grafted, GraftError>, total: nat, kept: seq<Node>, soil: Soil, baseSort: int) {
    var planted := PlantAll(kept, soil, baseSort);
    match r
    case Ok(g) =>
      && multiset(g.nodes) == multiset(planted) && ParentsBefore(g.nodes, soil.parent)
      && (forall n :: n in planted ==> ValidateNode(n).None?)
      && (DistinctIds(planted) ==> forall n :: n in planted ==> Rooted(LinksOf(planted, soil.parent), Some(n.id)))
      && g.ids == soil.ids && g.excluded == total - |kept| && g.tombstoned == LostAll(kept, soil)
    case Err(Refused(e)) => exists n :: n in planted && ValidateNode(n) == Some(e)
    case Err(NotATree) => DistinctIds(planted) ==> exists n :: n in planted && !Rooted(LinksOf(planted, soil.parent), Some(n.id))
  }

  /**
   `graft`. `newIds` supplies the new id of every node. The nodes come out as planted,
   parents first, or the links among the kept nodes do not reach the top.
   */
  method Graft(nodes: seq<Node>, excluded: set<NodeId>, destination: Forest, parent: Option<NodeId>, baseSort: int, now: int, newIds: IdMap)
    returns (r: Result<Grafted, GraftError>)
    requires IdSet(nodes) <= newIds.Keys
    ensures exists dropped ::
              && LeastClosure(nodes, excluded, dropped)
              && Outcome(r, |nodes|, Kept(nodes, dropped), SoilFor(nodes, dropped, newIds, destination, parent, now), baseSort)
  {
    hide LeastClosure, ParentsBefore, Rooted, LinksOf, DistinctIds, ValidateNode, IdSet, Kept, PlantAll, LostAll, NameMap;
    var closure, passes := CloseExclusion(nodes, excluded);
    var kept := Kept(nodes, closure);
    KeptSize(nodes, closure);
    var soil := SoilFor(nodes, closure, newIds, destination, parent, now);
    var planted, tombstoned, fault := PlantKept(kept, soil, baseSort);
    if fault.Some? {
      return Err(Refused(fault.value));
    }
    var ordered := ParentsFirst(planted, parent);
    if ordered.None? {
      return Err(NotATree);
    }
    return Ok(Grafted(ordered.value, soil.ids, |nodes| - |kept|, tombstoned));
  }

  lemma {:induction false} KeptSize(nodes: seq<Node>, dropped: set<NodeId>)
    ensures |Kept(nodes, dropped)| <= |nodes|
    ensures forall n :: n in Kept(nodes, dropped) <==> n in nodes && n.id !in dropped
  {
    if nodes != [] {
      KeptSize(nodes[1..], dropped);
      assert nodes == [nodes[0]] + nodes[1..];
    }
  }
}
