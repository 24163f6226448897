/**
 A tree's node map as a value: what makes it legal, and the outcomes of inserting and
 updating a node (crates/remoter-core/src/tree.rs:94-378).
 */
module Forests {
  import opened Base
  import opened Inheritance
  import opened Nodes
  import opened Validation
  import opened Lineages

  type Forest = map<NodeId, Node>

  const MAX_TREE_DEPTH := 64

  datatype CoreError =
    | Invalid(error: ValidationError)
    | NodeNotFound(id: NodeId)
    | ParentNotFound(id: NodeId)
    | NotAContainer(id: NodeId)
    | DuplicateNodeId(id: NodeId)
    | ParentChanged(node: NodeId)
    | Cycle(node: NodeId, parent: NodeId)
    | DepthExceeded(depth: nat)
    | NotAConnection(id: NodeId)
    | CorruptTree

  function Parents(nodes: Forest): (par: ParentMap)
    ensures par.Keys == nodes.Keys && |par| == |nodes|
  {
    var par := map id | id in nodes :: nodes[id].parentId;
    assert par.Keys == nodes.Keys;
    par
  }

  /** The number of nodes on the path from a node to the top, both included. */
  function Depth(nodes: Forest, id: NodeId): nat {
    |Lineage(Parents(nodes), Some(id))|
  }

  ghost predicate Keyed(nodes: Forest) {
    forall id :: id in nodes ==> nodes[id].id == id
  }

  ghost predicate AllValid(nodes: Forest) {
    forall id {:trigger ValidateNode(nodes[id])} :: id in nodes ==> ValidateNode(nodes[id]).None?
  }

  ghost predicate Grounded(nodes: Forest) {
    forall id {:trigger Placed(nodes, id)} {:trigger Anchor(nodes, id)} :: id in nodes ==> Placed(nodes, id)
  }

  /** The node's parent chain reaches the root within the depth limit. */
  ghost predicate Placed(nodes: Forest, id: NodeId) {
    Anchor(nodes, id) && Depth(nodes, id) <= MAX_TREE_DEPTH
  }

  /** The node's parent chain reaches the root. */
  ghost predicate Anchor(nodes: Forest, id: NodeId) {
    Rooted(Parents(nodes), Some(id))
  }

  /** Every parent chain reaches the root, however long it is. */
  ghost predicate Anchored(nodes: Forest) {
    forall id {:trigger Anchor(nodes, id)} :: id in nodes ==> Anchor(nodes, id)
  }

  /** Every parent exists, whatever it is. */
  ghost predicate Homed(nodes: Forest) {
    forall id :: id in nodes && nodes[id].parentId.Some? ==> nodes[id].parentId.value in nodes
  }

  /** What every operation keeps, whatever came before it: keys, values and parents. */
  ghost predicate Stored(nodes: Forest) {
    Keyed(nodes) && AllValid(nodes) && Homed(nodes)
  }

  /** What all but some moves keep, whatever came before: keys, values, acyclic parents, bounded depth. */
  ghost predicate Sound(nodes: Forest) {
    Keyed(nodes) && AllValid(nodes) && Grounded(nodes)
  }

  /** Every parent exists and is a folder. */
  ghost predicate Contained(nodes: Forest) {
    forall id {:trigger HeldByFolder(nodes, id)} :: id in nodes ==> HeldByFolder(nodes, id)
  }

  ghost predicate HeldByFolder(nodes: Forest, id: NodeId)
    requires id in nodes
  {
    nodes[id].parentId.Some? ==>
      nodes[id].parentId.value in nodes && nodes[nodes[id].parentId.value].kind.Folder?
  }

  ghost predicate Legal(nodes: Forest) {
    Sound(nodes) && Contained(nodes)
  }

  /** The part of `Legal` that is about places and not about values. */
  ghost predicate Shaped(nodes: Forest) {
    Keyed(nodes) && Grounded(nodes) && Contained(nodes)
  }

  ghost predicate HasChildren(nodes: Forest, id: NodeId) {
    exists child :: child in nodes && nodes[child].parentId == Some(id)
  }

  lemma LegalIsSound(nodes: Forest)
    requires Legal(nodes)
    ensures Sound(nodes) && Keyed(nodes) && Grounded(nodes) && Contained(nodes)
  {
  }

  lemma GroundedAnchors(nodes: Forest, id: NodeId)
    requires Grounded(nodes) && id in nodes
    ensures Anchor(nodes, id)
  {
  }

  lemma {:induction false} SoundIsStored(nodes: Forest)
    requires Sound(nodes)
    ensures Stored(nodes)
  {
    hide AllValid, Rooted, Lineage;
    forall id | id in nodes && nodes[id].parentId.Some? ensures nodes[id].parentId.value in nodes {
      DepthStep(nodes, id);
    }
  }

  /** In a stored tree a walk to the top fails only on a loop, and the walk's length is the depth. */
  lemma {:induction false} StoredWalk(nodes: Forest, id: NodeId)
    requires Homed(nodes) && id in nodes
    ensures AncestorsOf(nodes, id).Ok? <==> Anchor(nodes, id)
    ensures AncestorsOf(nodes, id).Ok? <==> !Cyclic(Parents(nodes), nodes[id].parentId)
    ensures AncestorsOf(nodes, id).Err? ==> AncestorsOf(nodes, id).error == CorruptTree
  {
    hide Climb, Cyclic, Rooted, Lineage;
    var par := Parents(nodes);
    WalkExact(par, id);
    UnrootedIsCyclic(par, id);
    if Anchor(nodes, id) {
      AncestorsDepth(nodes, id);
    } else {
      assert AncestorWalk(par, id) == Endless;
    }
  }

  lemma {:induction false} DepthStep(nodes: Forest, id: NodeId)
    requires Anchored(nodes) && id in nodes
    ensures nodes[id].parentId.Some? ==> nodes[id].parentId.value in nodes
    ensures Rooted(Parents(nodes), Some(id)) && Rooted(Parents(nodes), nodes[id].parentId)
    ensures Lineage(Parents(nodes), Some(id)) == [id] + Lineage(Parents(nodes), nodes[id].parentId)
    ensures Depth(nodes, id) == 1 + |Lineage(Parents(nodes), nodes[id].parentId)|
  {
    var par := Parents(nodes);
    assert Anchor(nodes, id);
    LineageStep(par, id);
    LineageChain(par, nodes[id].parentId);
  }

  /** Everything strictly above a node is a folder. */
  lemma {:induction false} AncestorsAreFolders(nodes: Forest, id: NodeId, k: nat)
    requires Legal(nodes) && id in nodes && 0 < k < Depth(nodes, id)
    ensures Lineage(Parents(nodes), Some(id))[k] in nodes
    ensures nodes[Lineage(Parents(nodes), Some(id))[k]].kind.Folder?
    decreases k
  {
    var par := Parents(nodes);
    DepthStep(nodes, id);
    assert HeldByFolder(nodes, id);
    var p := nodes[id].parentId.value;
    LineageStep(par, p);
    if k > 1 {
      AncestorsAreFolders(nodes, p, k - 1);
    }
  }

  /** Only folders have anything but themselves in their subtree. */
  lemma {:induction false} OnlyFoldersHold(nodes: Forest, top: NodeId, x: NodeId)
    requires Legal(nodes) && top in nodes && x in nodes && Under(Parents(nodes), top, x) && top != x
    ensures nodes[top].kind.Folder?
  {
    var p := Lineage(Parents(nodes), Some(x));
    DepthStep(nodes, x);
    var k :| 0 <= k < |p| && p[k] == top;
    AncestorsAreFolders(nodes, x, k);
  }

  // Walking up.

  function NodesAt(nodes: Forest, path: seq<NodeId>): seq<Node>
    requires forall x :: x in path ==> x in nodes
  {
    seq(|path|, i requires 0 <= i < |path| => assert path[i] in path; nodes[path[i]])
  }

  /** `Tree::ancestors`. */
  function AncestorsOf(nodes: Forest, id: NodeId): Result<seq<Node>, CoreError> {
    if id !in nodes then Err(NodeNotFound(id))
    else match AncestorWalk(Parents(nodes), id)
      case Reached(path) => Ok(NodesAt(nodes, path))
      case Dangling(missing) => Err(ParentNotFound(missing))
      case Endless => Err(CorruptTree)
  }

  /** When the walk ends at the top it has passed every node above, and its length is the depth. */
  lemma {:induction false} AncestorsDepth(nodes: Forest, id: NodeId)
    requires id in nodes && Anchor(nodes, id)
    ensures AncestorsOf(nodes, id).Ok? && Depth(nodes, id) == |AncestorsOf(nodes, id).value| + 1
  {
    hide Climb;
    var par := Parents(nodes);
    LineageStep(par, id);
    LineageChain(par, par[id]);
    WalkExact(par, id);
  }

  // Inserting.

  function InsertError(nodes: Forest, n: Node): Option<CoreError> {
    if ValidateNode(n).Some? then Some(Invalid(ValidateNode(n).value))
    else if n.id in nodes then Some(DuplicateNodeId(n.id))
    else PlacementError(nodes, n)
  }

  function PlacementError(nodes: Forest, n: Node): Option<CoreError> {
    match n.parentId
    case None => None
    case Some(p) =>
      if p !in nodes then Some(ParentNotFound(p))
      else if !nodes[p].kind.Folder? then Some(NotAContainer(p))
      else match AncestorsOf(nodes, p)
        case Err(e) => Some(e)
        case Ok(above) => if |above| + 2 > MAX_TREE_DEPTH then Some(DepthExceeded(|above| + 2)) else None
  }

  /** A segment stays one as long as the pointers it follows do. */
  lemma {:induction false} SegmentKept(par: ParentMap, after: ParentMap, from: Option<NodeId>, p: seq<NodeId>, to: Option<NodeId>)
    requires forall x :: x in p && x in par ==> x in after && after[x] == par[x]
    requires Segment(par, from, p, to)
    ensures Segment(after, from, p, to)
    decreases |p|
  {
    if p != [] {
      SegmentKept(par, after, par[p[0]], p[1..], to);
    }
  }

  lemma {:induction false} LineageKept(par: ParentMap, after: ParentMap, from: Option<NodeId>)
    requires Rooted(par, from)
    requires forall x :: x in Lineage(par, from) && x in par ==> x in after && after[x] == par[x]
    ensures Rooted(after, from) && Lineage(after, from) == Lineage(par, from)
  {
    LineageChain(par, from);
    SegmentKept(par, after, from, Lineage(par, from), None);
    LineageIs(after, from, Lineage(par, from));
  }

  /** Adding one node moves nobody else. */
  lemma {:induction false} InsertKeepsLineages(nodes: Forest, n: Node)
    requires Grounded(nodes) && n.id !in nodes
    ensures forall id :: id in nodes ==>
              Rooted(Parents(nodes[n.id := n]), Some(id))
              && Lineage(Parents(nodes[n.id := n]), Some(id)) == Lineage(Parents(nodes), Some(id))
  {
    var par, par' := Parents(nodes), Parents(nodes[n.id := n]);
    forall id | id in nodes
      ensures Rooted(par', Some(id)) && Lineage(par', Some(id)) == Lineage(par, Some(id))
    {
      assert Placed(nodes, id);
      LineageKept(par, par', Some(id));
    }
  }

  lemma {:induction false} PlacementKeepsGround(nodes: Forest, n: Node)
    requires Grounded(nodes) && n.id !in nodes && PlacementError(nodes, n).None?
    ensures Grounded(nodes[n.id := n])
  {
    hide Lineage, Rooted, Climb, AncestorsOf;
    RootLineage(Parents(nodes));
    var more := nodes[n.id := n];
    InsertKeepsLineages(nodes, n);
    LineageStep(Parents(more), n.id);
    if n.parentId.Some? {
      assert Placed(nodes, n.parentId.value);
      AncestorsDepth(nodes, n.parentId.value);
    }
    LineageKept(Parents(nodes), Parents(more), n.parentId);
    forall id | id in more ensures Placed(more, id) {
      assert id != n.id ==> id in nodes && Placed(nodes, id);
    }
  }

  lemma {:induction false} PlacementKeepsShape(nodes: Forest, n: Node)
    requires Shaped(nodes) && n.id !in nodes && PlacementError(nodes, n).None?
    ensures Shaped(nodes[n.id := n])
  {
    hide Grounded;
    var more := nodes[n.id := n];
    PlacementKeepsGround(nodes, n);
    forall id | id in more ensures HeldByFolder(more, id) {
      assert id != n.id ==> HeldByFolder(nodes, id);
    }
  }

  /** Inserting keeps a tree sound even where an update has taken a folder away from its children. */
  lemma {:induction false} InsertKeepsSound(nodes: Forest, n: Node)
    requires Sound(nodes) && InsertError(nodes, n).None?
    ensures Sound(nodes[n.id := n])
  {
    hide Grounded, PlacementError;
    PlacementKeepsGround(nodes, n);
    AllValidUpdate(nodes, n.id, n);
  }

  lemma {:induction false} InsertKeepsStored(nodes: Forest, n: Node)
    requires Stored(nodes) && InsertError(nodes, n).None?
    ensures Stored(nodes[n.id := n])
  {
    hide ValidateNode;
    AllValidUpdate(nodes, n.id, n);
  }

  lemma {:induction false} PlacementNeeded(nodes: Forest, n: Node)
    requires Shaped(nodes) && n.id !in nodes && Shaped(nodes[n.id := n])
    ensures PlacementError(nodes, n).None?
  {
    var more := nodes[n.id := n];
    assert HeldByFolder(more, n.id) && Placed(more, n.id);
    if n.parentId.Some? {
      LineageStep(Parents(more), n.id);
      assert n.parentId != Some(n.id);
      InsertKeepsLineages(nodes, n);
      assert Placed(nodes, n.parentId.value);
      AncestorsDepth(nodes, n.parentId.value);
    }
  }

  /** Insertion is accepted exactly when the id is new and the grown map is a legal tree. */
  lemma {:induction false} InsertExact(nodes: Forest, n: Node)
    requires Legal(nodes)
    ensures InsertError(nodes, n).None? <==> n.id !in nodes && Legal(nodes[n.id := n])
  {
    if n.id !in nodes {
      if PlacementError(nodes, n).None? {
        PlacementKeepsShape(nodes, n);
      }
      if Shaped(nodes[n.id := n]) {
        PlacementNeeded(nodes, n);
      }
      AllValidUpdate(nodes, n.id, n);
    }
  }

  lemma {:induction false} AllValidUpdate(nodes: Forest, id: NodeId, n: Node)
    requires AllValid(nodes)
    ensures AllValid(nodes[id := n]) <==> ValidateNode(n).None?
  {
    var after := nodes[id := n];
    assert after[id] == n;
    assert forall x :: x in after && x != id ==> after[x] == nodes[x] && ValidateNode(nodes[x]).None?;
  }

  // Updating.

  function UpdateError(nodes: Forest, n: Node): Option<CoreError> {
    if ValidateNode(n).Some? then Some(Invalid(ValidateNode(n).value))
    else if n.id !in nodes then Some(NodeNotFound(n.id))
    else if nodes[n.id].parentId != n.parentId then Some(ParentChanged(n.id))
    else None
  }

  /** The stored form of an edit: the revision and the creation time are the tree's, not the caller's. */
  function Edited(existing: Node, n: Node): Node {
    n.(revision := Bump(existing.revision),
       createdAt := existing.createdAt,
       updatedAt := if n.updatedAt >= existing.updatedAt then n.updatedAt else existing.updatedAt)
  }

  function Updated(nodes: Forest, n: Node): Forest
    requires n.id in nodes
  {
    nodes[n.id := Edited(nodes[n.id], n)]
  }

  /**
   What an update stores: the caller's node, except that the creation time is the stored one, the update time
   the later of the two and the revision the next; no other node changes.
   */
  ghost predicate Stores(before: Forest, after: Forest, n: Node) {
    && n.id in before && after.Keys == before.Keys && (forall x :: x in before && x != n.id ==> after[x] == before[x])
    && var was, got := before[n.id], after[n.id];
       && got == n.(createdAt := was.createdAt, updatedAt := got.updatedAt, revision := got.revision)
       && got.updatedAt >= n.updatedAt && got.updatedAt >= was.updatedAt && (got.updatedAt == n.updatedAt || got.updatedAt == was.updatedAt)
       && Later(was.revision, got.revision, 1)
  }

  lemma UpdateStores(nodes: Forest, n: Node)
    requires n.id in nodes
    ensures Stores(nodes, Updated(nodes, n), n)
  {
  }

  lemma EditedValid(existing: Node, n: Node)
    ensures ValidateNode(Edited(existing, n)) == ValidateNode(n)
  {
    hide ValidateNode;
    SameVerdict(Edited(existing, n), n);
  }

  lemma {:induction false} UpdateKeepsStored(nodes: Forest, n: Node)
    requires Stored(nodes) && UpdateError(nodes, n).None?
    ensures Stored(Updated(nodes, n))
    ensures Parents(Updated(nodes, n)) == Parents(nodes)
  {
    hide ValidateNode;
    AllValidUpdate(nodes, n.id, Updated(nodes, n)[n.id]);
    EditedValid(nodes[n.id], n);
    assert Parents(Updated(nodes, n)) == Parents(nodes);
  }

  /** An accepted update keeps the map sound, and keeps a legal one legal exactly when no children lose their folder. */
  lemma {:induction false} UpdateExact(nodes: Forest, n: Node)
    requires Sound(nodes) && UpdateError(nodes, n).None?
    ensures Parents(Updated(nodes, n)) == Parents(nodes)
    ensures Sound(Updated(nodes, n))
    ensures Legal(nodes) ==> (Legal(Updated(nodes, n)) <==> n.kind.Folder? || !HasChildren(nodes, n.id))
  {
    var after := Updated(nodes, n);
    assert Parents(after) == Parents(nodes);
    assert forall id {:trigger Placed(after, id)} :: Placed(after, id) == Placed(nodes, id);
    AllValidUpdate(nodes, n.id, after[n.id]);
    EditedValid(nodes[n.id], n);
    forall id | id in after && Contained(nodes) && (n.kind.Folder? || !HasChildren(nodes, n.id)) ensures HeldByFolder(after, id) {
      assert HeldByFolder(nodes, id);
    }
    if HasChildren(nodes, n.id) && Legal(after) {
      var child :| child in nodes && nodes[child].parentId == Some(n.id);
      DepthStep(nodes, child);
      assert child != n.id;
      assert HeldByFolder(after, child);
    }
  }

  // Inserting a whole batch.

  /** Inserts the nodes in order, stopping at the first that is refused. */
  function InsertAll(nodes: Forest, batch: seq<Node>): Result<Forest, CoreError>
    decreases |batch|
  {
    if batch == [] then Ok(nodes)
    else if InsertError(nodes, batch[0]).Some? then Err(InsertError(nodes, batch[0]).value)
    else InsertAll(nodes[batch[0].id := batch[0]], batch[1..])
  }

  /** A batch that goes in leaves a legal tree that holds the old nodes and the new ones, unchanged. */
  lemma {:induction false} InsertAllExact(nodes: Forest, batch: seq<Node>)
    requires Legal(nodes) && InsertAll(nodes, batch).Ok?
    ensures var after := InsertAll(nodes, batch).value;
            && Legal(after)
            && (forall id :: id in nodes ==> id in after && after[id] == nodes[id])
            && (forall n :: n in batch ==> n.id !in nodes && n.id in after && after[n.id] == n)
            && (forall id :: id in after ==> id in nodes || after[id] in batch)
    decreases |batch|
  {
    hide Legal, InsertError;
    if batch != [] {
      InsertExact(nodes, batch[0]);
      InsertAllExact(nodes[batch[0].id := batch[0]], batch[1..]);
      assert batch == [batch[0]] + batch[1..];
    }
  }
}
