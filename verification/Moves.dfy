/** Re-parenting a node with the credentials attached to it (crates/remoter-core/src/tree.rs:390-503). */
module Moves {
  import opened Base
  import opened Inheritance
  import opened Nodes
  import opened Validation
  import opened Lineages
  import opened Forests
  import opened Walks
  import opened Loops
  import opened Resolution

  function Relocated(n: Node, parent: Option<NodeId>, sortOrder: int): Node {
    n.(parentId := parent, sortOrder := sortOrder, revision := Bump(n.revision))
  }

  /** The moved node, then its attached credentials: one that is attached to itself is relocated twice. */
  function MovedNode(n: Node, id: NodeId, parent: Option<NodeId>, sortOrder: int): Node {
    var first := if n.id == id then Relocated(n, parent, sortOrder) else n;
    if BelongsTo(n, id) then Relocated(first, parent, sortOrder) else first
  }

  function Moved(nodes: Forest, id: NodeId, parent: Option<NodeId>, sortOrder: int): Forest {
    map x | x in nodes :: MovedNode(nodes[x], id, parent, sortOrder)
  }

  ghost predicate OwnedBy(n: Node, id: NodeId) {
    n.kind.Credential? && n.kind.props.attachedTo == Some(id)
  }

  /**
   What a move stores: the node and every credential attached to it take the requested parent and position and
   a later revision, one later still for a node attached to itself; nothing else about them changes, and no
   other node does.
   */
  ghost predicate Reseats(before: Forest, after: Forest, id: NodeId, parent: Option<NodeId>, sortOrder: int) {
    after.Keys == before.Keys && forall x :: x in before ==>
      if x == id || OwnedBy(before[x], id) then
        && after[x] == before[x].(parentId := parent, sortOrder := sortOrder, revision := after[x].revision)
        && Later(before[x].revision, after[x].revision, if x == id && OwnedBy(before[x], id) then 2 else 1)
      else after[x] == before[x]
  }

  lemma MovedReseats(nodes: Forest, id: NodeId, parent: Option<NodeId>, sortOrder: int)
    requires Keyed(nodes)
    ensures Reseats(nodes, Moved(nodes, id, parent, sortOrder), id, parent, sortOrder)
  {
    var after := Moved(nodes, id, parent, sortOrder);
    assert after.Keys == nodes.Keys;
  }

  /** The number of levels of a subtree, the node itself counting as one. */
  ghost function Height(nodes: Forest, id: NodeId): nat {
    if h: nat :| IsHeight(nodes, id, h) then h else 0
  }

  /** What `preview_move` refuses on any stored tree, corrupt ones included. */
  ghost function MoveError(nodes: Forest, id: NodeId, parent: Option<NodeId>): Option<CoreError> {
    if id !in nodes then Some(NodeNotFound(id))
    else if parent == Some(id) then Some(Cycle(id, id))
    else if parent.Some? && parent.value !in nodes then Some(ParentNotFound(parent.value))
    else if parent.Some? && AncestorsOf(nodes, parent.value).Err? then Some(AncestorsOf(nodes, parent.value).error)
    else if parent.Some? && Under(Parents(nodes), id, parent.value) then Some(Cycle(id, parent.value))
    else if parent.Some? && !nodes[parent.value].kind.Folder? then Some(NotAContainer(parent.value))
    else if OnLoop(Parents(nodes), id) then Some(CorruptTree)
    else TooDeep(|Lineage(Parents(nodes), parent)| + Height(Cut(nodes, id), id))
  }

  function TooDeep(depth: nat): Option<CoreError> {
    if depth > MAX_TREE_DEPTH then Some(DepthExceeded(depth)) else None
  }

  /** Where every parent chain reaches the root, no walk fails and the height is the whole tree's. */
  lemma {:induction false} MoveErrorGrounded(nodes: Forest, id: NodeId, parent: Option<NodeId>)
    requires Grounded(nodes) && id in nodes && (parent.Some? ==> parent.value in nodes)
    ensures parent.Some? ==> AncestorsOf(nodes, parent.value).Ok?
    ensures !OnLoop(Parents(nodes), id) && Height(Cut(nodes, id), id) == Height(nodes, id)
  {
    hide Lineage, Rooted, Climb, OnLoop, Cut, Height, IsHeight;
    if parent.Some? {
      assert Placed(nodes, parent.value);
      AncestorsDepth(nodes, parent.value);
    }
    HeightExists(nodes, id);
    CutHeight(nodes, id, Height(nodes, id));
    HeightUnique(Cut(nodes, id), id, Height(nodes, id));
  }

  /** The destination is the root or a folder outside the moved subtree. */
  ghost predicate Destination(nodes: Forest, id: NodeId, parent: Option<NodeId>) {
    parent.Some? ==>
      parent.value in nodes && nodes[parent.value].kind.Folder? && !Under(Parents(nodes), id, parent.value)
  }

  lemma {:induction false} HeightUnique(nodes: Forest, id: NodeId, h: nat)
    requires IsHeight(nodes, id, h)
    ensures Height(nodes, id) == h
  {
    hide Lineage, Rooted, Climb;
    var g := Height(nodes, id);
    assert IsHeight(nodes, id, g);
  }

  /** A subtree of a grounded tree has a height. */
  lemma {:induction false} HeightExists(nodes: Forest, id: NodeId)
    requires Grounded(nodes) && id in nodes
    ensures IsHeight(nodes, id, Height(nodes, id)) && Height(nodes, id) >= 1
  {
    hide Lineage, Rooted, Climb;
    LevelZero(nodes, id);
    var h := DeepestLevel(nodes, id, 0);
    HeightFromLevels(nodes, id, h);
    HeightUnique(nodes, id, h);
  }

  lemma {:induction false} DeepestLevel(nodes: Forest, id: NodeId, k: nat) returns (h: nat)
    requires Grounded(nodes) && id in nodes && Level(nodes, id, k) != {}
    ensures h > 0 && Level(nodes, id, h - 1) != {} && Level(nodes, id, h) == {}
    decreases |nodes| - k
  {
    hide Lineage, Rooted, Climb;
    var x :| x in Level(nodes, id, k);
    DepthStep(nodes, id);
    DepthStep(nodes, x);
    LineageChain(Parents(nodes), Some(x));
    if Level(nodes, id, k + 1) == {} {
      h := k + 1;
    } else {
      h := DeepestLevel(nodes, id, k + 1);
    }
  }

  // Lineages after a move.

  /** What a move puts elsewhere: the node and the credentials attached to it. */
  function Relocating(nodes: Forest, id: NodeId): set<NodeId> {
    set x | x in nodes && (x == id || BelongsTo(nodes[x], id))
  }

  /** A path with everything above its first member of `at` replaced. */
  function Spliced(p: seq<NodeId>, at: set<NodeId>, tail: seq<NodeId>): seq<NodeId> {
    if p == [] then [] else if p[0] in at then [p[0]] + tail else [p[0]] + Spliced(p[1..], at, tail)
  }

  lemma {:induction false} SplicedShape(p: seq<NodeId>, at: set<NodeId>, tail: seq<NodeId>, k: nat)
    requires k <= |p| && (forall i :: 0 <= i < k ==> p[i] !in at) && (k < |p| ==> p[k] in at)
    ensures Spliced(p, at, tail) == if k < |p| then p[..k + 1] + tail else p
  {
    if p != [] && k > 0 {
      var rest := p[1..];
      SplicedShape(rest, at, tail, k - 1);
      SplicedStep(p, at, tail, k);
    } else if p != [] {
      assert p[..1] == [p[0]];
    }
  }

  lemma SplicedStep(p: seq<NodeId>, at: set<NodeId>, tail: seq<NodeId>, k: nat)
    requires p != [] && p[0] !in at && 0 < k <= |p|
    ensures p == [p[0]] + p[1..] && Spliced(p, at, tail) == [p[0]] + Spliced(p[1..], at, tail)
    ensures k < |p| ==> p[..k + 1] + tail == [p[0]] + (p[1..][..k] + tail)
  {
    if k < |p| {
      assert p[..k + 1] == [p[0]] + p[1..][..k];
    }
  }

  lemma {:induction false} SplicedChain(par: ParentMap, after: ParentMap, at: set<NodeId>, parent: Option<NodeId>, tail: seq<NodeId>, from: Option<NodeId>, p: seq<NodeId>)
    requires Chain(par, from, p) && Chain(after, parent, tail)
    requires forall y :: y in p ==> y in par && y in after && after[y] == if y in at then parent else par[y]
    ensures Chain(after, from, Spliced(p, at, tail))
    decreases |p|
  {
    if p != [] {
      if p[0] in at {
        assert ([p[0]] + tail)[1..] == tail;
      } else {
        SplicedChain(par, after, at, parent, tail, par[p[0]], p[1..]);
        assert ([p[0]] + Spliced(p[1..], at, tail))[1..] == Spliced(p[1..], at, tail);
      }
    }
  }

  /** What a move does to every node's path to the root. */
  ghost function MovedLineage(nodes: Forest, id: NodeId, parent: Option<NodeId>, x: NodeId): seq<NodeId> {
    var par := Parents(nodes);
    Spliced(Lineage(par, Some(x)), Relocating(nodes, id), Lineage(par, parent))
  }

  lemma MovedParents(nodes: Forest, id: NodeId, parent: Option<NodeId>, sortOrder: int)
    requires Keyed(nodes)
    ensures Moved(nodes, id, parent, sortOrder).Keys == nodes.Keys
    ensures forall x :: x in nodes ==>
              Parents(Moved(nodes, id, parent, sortOrder))[x] == (if x in Relocating(nodes, id) then parent else nodes[x].parentId)
  {
    assert Moved(nodes, id, parent, sortOrder).Keys == nodes.Keys;
  }

  /** Nothing at or above the destination is relocated itself. */
  ghost predicate ClearWay(nodes: Forest, id: NodeId, parent: Option<NodeId>) {
    forall c :: c in Lineage(Parents(nodes), parent) ==> c !in Relocating(nodes, id)
  }

  lemma {:induction false} ParentAnchored(nodes: Forest, parent: Option<NodeId>)
    requires Anchored(nodes) && (parent.Some? ==> parent.value in nodes)
    ensures Rooted(Parents(nodes), parent)
  {
    hide Rooted, Climb;
    RootLineage(Parents(nodes));
    assert parent.Some? ==> Anchor(nodes, parent.value);
  }

  /** Every path is cut at its first relocated node and continued along the destination's. */
  lemma {:induction false} MovedLineages(nodes: Forest, id: NodeId, parent: Option<NodeId>, sortOrder: int, x: NodeId)
    requires Keyed(nodes) && Anchored(nodes) && x in nodes && (parent.Some? ==> parent.value in nodes) && ClearWay(nodes, id, parent)
    ensures Rooted(Parents(Moved(nodes, id, parent, sortOrder)), Some(x))
    ensures Lineage(Parents(Moved(nodes, id, parent, sortOrder)), Some(x)) == MovedLineage(nodes, id, parent, x)
  {
    hide Lineage, Rooted, Climb, Moved, Relocating;
    var par, after, at := Parents(nodes), Parents(Moved(nodes, id, parent, sortOrder)), Relocating(nodes, id);
    MovedParents(nodes, id, parent, sortOrder);
    ParentAnchored(nodes, parent);
    ParentAnchored(nodes, Some(x));
    LineageChain(par, parent);
    LineageKept(par, after, parent);
    LineageChain(after, parent);
    LineageChain(par, Some(x));
    SplicedChain(par, after, at, parent, Lineage(par, parent), Some(x), Lineage(par, Some(x)));
    LineageIs(after, Some(x), MovedLineage(nodes, id, parent, x));
  }

  /** A relocated node at or above the destination closes a loop. */
  lemma {:induction false} WayBlocked(nodes: Forest, id: NodeId, parent: Option<NodeId>, sortOrder: int)
    requires Keyed(nodes) && Anchored(nodes) && (parent.Some? ==> parent.value in nodes) && !ClearWay(nodes, id, parent)
    ensures parent.Some? && !Rooted(Parents(Moved(nodes, id, parent, sortOrder)), parent)
  {
    hide Lineage, Rooted, Climb, Moved, Relocating, Cyclic;
    var par, after := Parents(nodes), Parents(Moved(nodes, id, parent, sortOrder));
    MovedParents(nodes, id, parent, sortOrder);
    ParentAnchored(nodes, parent);
    RootLineage(par);
    LineageChain(par, parent);
    var c :| c in Lineage(par, parent) && c in Relocating(nodes, id);
    var k :| 0 <= k < |Lineage(par, parent)| && Lineage(par, parent)[k] == c;
    k := FirstAt(Lineage(par, parent), Relocating(nodes, id), k);
    LoopClosed(par, after, Relocating(nodes, id), parent, k);
    CyclicIsNotRooted(after, parent);
  }

  lemma {:induction false} FirstAt(p: seq<NodeId>, at: set<NodeId>, some: nat) returns (k: nat)
    requires some < |p| && p[some] in at
    ensures k <= some && p[k] in at && forall i :: 0 <= i < k ==> p[i] !in at
    decreases some
  {
    if i :| 0 <= i < some && p[i] in at {
      k := FirstAt(p, at, i);
    } else {
      k := some;
    }
  }

  lemma {:induction false} LoopClosed(par: ParentMap, after: ParentMap, at: set<NodeId>, parent: Option<NodeId>, k: nat)
    requires Rooted(par, parent) && k < |Lineage(par, parent)| && Lineage(par, parent)[k] in at
    requires forall i :: 0 <= i < k ==> Lineage(par, parent)[i] !in at
    requires forall y :: y in par ==> y in after && after[y] == if y in at then parent else par[y]
    ensures Cyclic(after, parent)
  {
    hide Lineage, Rooted, Climb;
    var path := Lineage(par, parent);
    var c := path[k];
    LineageChain(par, parent);
    assert c in path;
    SegmentSplit(par, parent, path, None, k);
    assert forall y :: y in path[..k] ==> y !in at;
    SegmentKept(par, after, parent, path[..k], Some(c));
    assert [c][1..] == [] && Segment(after, Some(c), [c], parent);
    SegmentJoin(after, parent, path[..k], Some(c), [c], parent);
    assert path[..k] + [c] != [];
    assert Segment(after, parent, [], parent);
  }

  // Depths after a move.

  /** The relocated node that `x` goes along with: the first at or above it. */
  ghost predicate Follows(nodes: Forest, id: NodeId, c: NodeId, x: NodeId) {
    var par := Parents(nodes);
    c in Relocating(nodes, id) && Under(par, c, x) && forall d :: d in Relocating(nodes, id) && Under(par, d, x) ==> Under(par, d, c)
  }

  lemma {:induction false} FollowsFirst(nodes: Forest, id: NodeId, c: NodeId, x: NodeId) returns (k: nat)
    requires Anchored(nodes) && x in nodes && Follows(nodes, id, c, x)
    ensures var p := Lineage(Parents(nodes), Some(x));
            && k < |p| && p[k] == c && Lineage(Parents(nodes), Some(c)) == p[k..]
            && forall i :: 0 <= i < k ==> p[i] !in Relocating(nodes, id)
  {
    hide Lineage, Rooted, Climb, Relocating;
    var par := Parents(nodes);
    var p := Lineage(par, Some(x));
    ParentAnchored(nodes, Some(x));
    LineageChain(par, Some(x));
    k :| 0 <= k < |p| && p[k] == c;
    LineageSuffix(par, Some(x), k);
    forall i | 0 <= i < k ensures p[i] !in Relocating(nodes, id) {
      assert p[i] in p && p[i] !in p[k..];
    }
  }

  lemma {:induction false} FirstFollows(nodes: Forest, id: NodeId, x: NodeId, k: nat)
    requires Anchored(nodes) && x in nodes && k < Depth(nodes, x) && Lineage(Parents(nodes), Some(x))[k] in Relocating(nodes, id)
    requires forall i :: 0 <= i < k ==> Lineage(Parents(nodes), Some(x))[i] !in Relocating(nodes, id)
    ensures Follows(nodes, id, Lineage(Parents(nodes), Some(x))[k], x)
  {
    hide Lineage, Rooted, Climb, Relocating;
    var par := Parents(nodes);
    var p := Lineage(par, Some(x));
    ParentAnchored(nodes, Some(x));
    LineageSuffix(par, Some(x), k);
    assert p[k] in p;
    forall d | d in Relocating(nodes, id) && Under(par, d, x) ensures Under(par, d, p[k]) {
      var j :| 0 <= j < |p| && p[j] == d;
      assert p[k..][j - k] == d;
    }
  }

  /** The new depth of a node: its place below the relocated node it goes along with, on top of the destination's depth. */
  lemma {:induction false} MovedDepth(nodes: Forest, id: NodeId, parent: Option<NodeId>, c: NodeId, x: NodeId)
    requires Anchored(nodes) && x in nodes && Follows(nodes, id, c, x)
    ensures |MovedLineage(nodes, id, parent, x)| == |Lineage(Parents(nodes), parent)| + Depth(nodes, x) - Depth(nodes, c) + 1
  {
    hide Lineage, Rooted, Climb, Spliced, Relocating;
    var k := FollowsFirst(nodes, id, c, x);
    SplicedShape(Lineage(Parents(nodes), Some(x)), Relocating(nodes, id), Lineage(Parents(nodes), parent), k);
  }

  /** A node goes along with a relocated one or keeps its path. */
  lemma {:induction false} FollowsOrStays(nodes: Forest, id: NodeId, parent: Option<NodeId>, x: NodeId)
    requires Anchored(nodes) && x in nodes
    ensures (exists c :: Follows(nodes, id, c, x)) || MovedLineage(nodes, id, parent, x) == Lineage(Parents(nodes), Some(x))
  {
    hide Lineage, Rooted, Climb, Spliced, Relocating, Follows;
    var p := Lineage(Parents(nodes), Some(x));
    if j :| 0 <= j < |p| && p[j] in Relocating(nodes, id) {
      var k := FirstAt(p, Relocating(nodes, id), j);
      FirstFollows(nodes, id, x, k);
    } else {
      SplicedShape(p, Relocating(nodes, id), Lineage(Parents(nodes), parent), |p|);
    }
  }

  /** What goes along with a relocated node keeps its path exactly when that node is put where it was. */
  lemma {:induction false} PathKept(nodes: Forest, id: NodeId, parent: Option<NodeId>, c: NodeId, x: NodeId)
    requires Anchored(nodes) && x in nodes && (parent.Some? ==> parent.value in nodes) && Follows(nodes, id, c, x)
    ensures c in nodes && (MovedLineage(nodes, id, parent, x) == Lineage(Parents(nodes), Some(x)) <==> parent == nodes[c].parentId)
  {
    hide Lineage, Rooted, Climb, Spliced;
    var par := Parents(nodes);
    var p := Lineage(par, Some(x));
    var k := FollowsFirst(nodes, id, c, x);
    SplicedShape(p, Relocating(nodes, id), Lineage(par, parent), k);
    DepthStep(nodes, c);
    assert p == p[..k + 1] + p[k..][1..];
    assert MovedLineage(nodes, id, parent, x)[k + 1..] == Lineage(par, parent);
    ParentAnchored(nodes, parent);
    SameHead(par, parent, nodes[c].parentId);
  }

  /** A path starts with its cursor, so equal paths have equal cursors. */
  lemma {:induction false} SameHead(par: ParentMap, a: Option<NodeId>, b: Option<NodeId>)
    requires Rooted(par, a) && Rooted(par, b)
    ensures Lineage(par, a) == Lineage(par, b) ==> a == b
  {
    hide Rooted, Climb, Lineage;
    LineageChain(par, a);
    LineageChain(par, b);
  }

  // Legality of the result.

  lemma RelocatedValid(n: Node, id: NodeId, parent: Option<NodeId>, sortOrder: int)
    ensures ValidateNode(MovedNode(n, id, parent, sortOrder)) == ValidateNode(n)
  {
    hide ValidateNode;
    SameVerdict(MovedNode(n, id, parent, sortOrder), n);
  }

  lemma {:induction false} MovedValues(nodes: Forest, id: NodeId, parent: Option<NodeId>, sortOrder: int)
    requires Keyed(nodes) && AllValid(nodes)
    ensures Keyed(Moved(nodes, id, parent, sortOrder)) && AllValid(Moved(nodes, id, parent, sortOrder))
  {
    hide ValidateNode;
    var after := Moved(nodes, id, parent, sortOrder);
    forall x | x in after ensures ValidateNode(after[x]).None? {
      RelocatedValid(nodes[x], id, parent, sortOrder);
    }
  }

  /** An accepted move leaves a stored tree even where the tree was corrupt. */
  lemma {:induction false} MoveKeepsStored(nodes: Forest, id: NodeId, parent: Option<NodeId>, sortOrder: int)
    requires Stored(nodes) && MoveError(nodes, id, parent).None?
    ensures Stored(Moved(nodes, id, parent, sortOrder))
  {
    hide AllValid, MoveError, Moved;
    var after := Moved(nodes, id, parent, sortOrder);
    MovedValues(nodes, id, parent, sortOrder);
    MovedParents(nodes, id, parent, sortOrder);
    MoveKnows(nodes, id, parent);
    assert forall x :: x in after ==> Parents(after)[x] == after[x].parentId;
  }

  lemma MoveKnows(nodes: Forest, id: NodeId, parent: Option<NodeId>)
    requires MoveError(nodes, id, parent).None?
    ensures id in nodes && (parent.Some? ==> parent.value in nodes)
  {
    hide OnLoop, Cut, Height, Lineage, AncestorsOf;
  }

  /** What goes along with a carried credential fits below the destination. */
  ghost predicate PassengersFit(nodes: Forest, id: NodeId, parent: Option<NodeId>) {
    forall c, x {:trigger Follows(nodes, id, c, x)} :: x in nodes && c != id && Follows(nodes, id, c, x) ==>
      |Lineage(Parents(nodes), parent)| + Depth(nodes, x) - Depth(nodes, c) + 1 <= MAX_TREE_DEPTH
  }

  lemma {:induction false} MovedPlaced(nodes: Forest, id: NodeId, parent: Option<NodeId>, sortOrder: int, x: NodeId)
    requires Sound(nodes) && MoveError(nodes, id, parent).None? && x in nodes
    requires ClearWay(nodes, id, parent) && PassengersFit(nodes, id, parent)
    ensures Placed(Moved(nodes, id, parent, sortOrder), x)
  {
    hide Lineage, Rooted, Climb, MovedLineage, Moved, OnLoop, Cut, Height, ClearWay, Follows, AncestorsOf, AllValid, Relocating;
    HeightExists(nodes, id);
    MoveKnows(nodes, id, parent);
    MoveErrorGrounded(nodes, id, parent);
    MovedLineages(nodes, id, parent, sortOrder, x);
    FollowsOrStays(nodes, id, parent, x);
    if c :| Follows(nodes, id, c, x) {
      MovedDepth(nodes, id, parent, c, x);
      FollowsUnder(nodes, id, c, x);
    } else {
      assert Placed(nodes, x);
    }
  }

  lemma FollowsUnder(nodes: Forest, id: NodeId, c: NodeId, x: NodeId)
    requires Follows(nodes, id, c, x)
    ensures Under(Parents(nodes), c, x) && c in nodes && (c == id || BelongsTo(nodes[c], id))
  {
  }

  /**
   In a sound tree an accepted move leaves no loop exactly when no credential it carries lies at or above the
   destination, and leaves a sound tree exactly when also everything below those credentials has room there.
   */
  lemma {:induction false} MoveKeepsSound(nodes: Forest, id: NodeId, parent: Option<NodeId>, sortOrder: int)
    requires Sound(nodes) && MoveError(nodes, id, parent).None?
    ensures Anchored(Moved(nodes, id, parent, sortOrder)) <==> ClearWay(nodes, id, parent)
    ensures Sound(Moved(nodes, id, parent, sortOrder)) <==> ClearWay(nodes, id, parent) && PassengersFit(nodes, id, parent)
  {
    hide AllValid, MoveError, Moved, ClearWay, PassengersFit, Lineage, Rooted;
    var after := Moved(nodes, id, parent, sortOrder);
    MoveKnows(nodes, id, parent);
    MovedValues(nodes, id, parent, sortOrder);
    MovedParents(nodes, id, parent, sortOrder);
    if !ClearWay(nodes, id, parent) {
      WayBlocked(nodes, id, parent, sortOrder);
      NotAnchored(after, parent);
    } else {
      forall x | x in after ensures Anchor(after, x) {
        MovedLineages(nodes, id, parent, sortOrder, x);
      }
      if PassengersFit(nodes, id, parent) {
        forall x | x in after ensures Placed(after, x) {
          MovedPlaced(nodes, id, parent, sortOrder, x);
        }
      }
      if Grounded(after) {
        RoomNeeded(nodes, id, parent, sortOrder);
      }
    }
  }

  lemma {:induction false} NotAnchored(after: Forest, parent: Option<NodeId>)
    requires parent.Some? && parent.value in after && !Rooted(Parents(after), parent)
    ensures !Anchored(after) && !Grounded(after)
  {
    hide Rooted;
    assert !Anchor(after, parent.value);
    assert !Placed(after, parent.value);
  }

  lemma {:induction false} RoomNeeded(nodes: Forest, id: NodeId, parent: Option<NodeId>, sortOrder: int)
    requires Keyed(nodes) && Anchored(nodes) && (parent.Some? ==> parent.value in nodes) && ClearWay(nodes, id, parent)
    requires Grounded(Moved(nodes, id, parent, sortOrder))
    ensures PassengersFit(nodes, id, parent)
  {
    hide Lineage, Rooted, Climb, Moved, MovedLineage, ClearWay, Follows;
    var after := Moved(nodes, id, parent, sortOrder);
    MovedParents(nodes, id, parent, sortOrder);
    forall c, x | x in nodes && c != id && Follows(nodes, id, c, x)
      ensures |Lineage(Parents(nodes), parent)| + Depth(nodes, x) - Depth(nodes, c) + 1 <= MAX_TREE_DEPTH
    {
      MovedDepth(nodes, id, parent, c, x);
      MovedLineages(nodes, id, parent, sortOrder, x);
      assert Placed(after, x);
    }
  }

  /** In a legal tree folders alone have anything above or below them, so nothing is in the way. */
  lemma {:induction false} LegalIsClear(nodes: Forest, id: NodeId, parent: Option<NodeId>)
    requires Legal(nodes) && id in nodes && Destination(nodes, id, parent)
    ensures ClearWay(nodes, id, parent)
    ensures forall c, x {:trigger Follows(nodes, id, c, x)} :: x in nodes && c != id && Follows(nodes, id, c, x) ==> c == x
  {
    hide Lineage, Rooted, Climb, AllValid;
    var par := Parents(nodes);
    RootLineage(par);
    if parent.Some? {
      ParentAnchored(nodes, parent);
      LineageChain(par, parent);
      forall c | c in Lineage(par, parent) ensures c !in Relocating(nodes, id) {
        if c != parent.value {
          OnlyFoldersHold(nodes, c, parent.value);
        }
      }
    }
    forall c, x {:trigger Follows(nodes, id, c, x)} | x in nodes && c != id && Follows(nodes, id, c, x) ensures c == x {
      FollowsUnder(nodes, id, c, x);
      if c != x {
        OnlyFoldersHold(nodes, c, x);
      }
    }
  }

  lemma MovedHeld(nodes: Forest, id: NodeId, parent: Option<NodeId>, sortOrder: int, x: NodeId)
    requires Keyed(nodes) && Contained(nodes) && Destination(nodes, id, parent) && x in nodes
    ensures x in Moved(nodes, id, parent, sortOrder) && HeldByFolder(Moved(nodes, id, parent, sortOrder), x)
  {
    hide Under;
    assert HeldByFolder(nodes, x);
  }

  /** An accepted move leaves a legal tree. */
  lemma {:induction false} MoveKeepsLegal(nodes: Forest, id: NodeId, parent: Option<NodeId>, sortOrder: int)
    requires Legal(nodes) && MoveError(nodes, id, parent).None?
    ensures ClearWay(nodes, id, parent) && PassengersFit(nodes, id, parent)
    ensures Legal(Moved(nodes, id, parent, sortOrder))
  {
    hide Lineage, Rooted, Climb, HeldByFolder, Moved, OnLoop, Cut, Height, AncestorsOf, ClearWay, Follows, AllValid, Grounded;
    var after := Moved(nodes, id, parent, sortOrder);
    HeightExists(nodes, id);
    MoveErrorGrounded(nodes, id, parent);
    LegalIsClear(nodes, id, parent);
    MoveKeepsSound(nodes, id, parent, sortOrder);
    MovedParents(nodes, id, parent, sortOrder);
    forall x | x in after ensures HeldByFolder(after, x) {
      MovedHeld(nodes, id, parent, sortOrder, x);
    }
  }

  /** A legal result means the destination was one. */
  lemma {:induction false} MoveNeedsDestination(nodes: Forest, id: NodeId, parent: Option<NodeId>, sortOrder: int)
    requires Legal(nodes) && id in nodes && Legal(Moved(nodes, id, parent, sortOrder))
    ensures Destination(nodes, id, parent) && parent != Some(id)
  {
    hide Lineage, Rooted, Climb, ClearWay, Moved, AllValid;
    var after := Moved(nodes, id, parent, sortOrder);
    MovedParents(nodes, id, parent, sortOrder);
    NewPlace(nodes, id, parent, sortOrder);
    assert HeldByFolder(after, id);
    if parent.Some? {
      if !ClearWay(nodes, id, parent) {
        WayBlocked(nodes, id, parent, sortOrder);
        NotAnchored(after, parent);
      }
      ClearOfSelf(nodes, id, parent.value);
    }
  }

  lemma NewPlace(nodes: Forest, id: NodeId, parent: Option<NodeId>, sortOrder: int)
    requires Keyed(nodes) && id in nodes
    ensures var after := Moved(nodes, id, parent, sortOrder);
            after.Keys == nodes.Keys && after[id].parentId == parent && forall x :: x in nodes ==> (after[x].kind.Folder? <==> nodes[x].kind.Folder?)
  {
  }

  lemma {:induction false} ClearOfSelf(nodes: Forest, id: NodeId, parent: NodeId)
    requires Anchored(nodes) && id in nodes && parent in nodes && ClearWay(nodes, id, Some(parent))
    ensures !Under(Parents(nodes), id, parent) && parent != id
  {
    hide Lineage, Rooted, Climb;
    DepthStep(nodes, parent);
  }

  /** The credentials attached to the moved node from inside its own subtree would fit below it, too. */
  ghost predicate CarriedFit(nodes: Forest, id: NodeId, parent: Option<NodeId>) {
    forall x :: x in nodes && x != id && BelongsTo(nodes[x], id) && Under(Parents(nodes), id, x) ==>
      |Lineage(Parents(nodes), parent)| + Depth(nodes, x) - Depth(nodes, id) + 1 <= MAX_TREE_DEPTH
  }

  /**
   A move is accepted exactly when its result is a legal tree and the credentials that leave
   the moved subtree for a place beside its top would have fitted where they were: the
   preview still counts the levels they are about to leave.
   */
  lemma {:induction false} MoveExact(nodes: Forest, id: NodeId, parent: Option<NodeId>, sortOrder: int)
    requires Legal(nodes)
    ensures MoveError(nodes, id, parent).None? <==>
            id in nodes && Legal(Moved(nodes, id, parent, sortOrder)) && CarriedFit(nodes, id, parent)
  {
    hide Lineage, Rooted, Climb, Moved, MovedLineage, Depth;
    MoveAccepted(nodes, id, parent);
    if MoveError(nodes, id, parent).None? {
      MoveKeepsLegal(nodes, id, parent, sortOrder);
    }
    var after := Moved(nodes, id, parent, sortOrder);
    if id in nodes && Legal(after) && CarriedFit(nodes, id, parent) {
      MoveNeedsDestination(nodes, id, parent, sortOrder);
      forall x | x in nodes && Under(Parents(nodes), id, x)
        ensures |Lineage(Parents(nodes), parent)| + Depth(nodes, x) - Depth(nodes, id) + 1 <= MAX_TREE_DEPTH
      {
        if x == id || !BelongsTo(nodes[x], id) {
          MovedFits(nodes, id, parent, sortOrder, x);
        }
      }
    }
  }

  /** A member that stays in the moved subtree is where the preview expects it. */
  lemma {:induction false} MovedFits(nodes: Forest, id: NodeId, parent: Option<NodeId>, sortOrder: int, x: NodeId)
    requires Legal(nodes) && id in nodes && Destination(nodes, id, parent) && Legal(Moved(nodes, id, parent, sortOrder))
    requires x in nodes && Under(Parents(nodes), id, x) && (x == id || !BelongsTo(nodes[x], id))
    ensures |Lineage(Parents(nodes), parent)| + Depth(nodes, x) - Depth(nodes, id) + 1 <= MAX_TREE_DEPTH
  {
    hide Lineage, Rooted, Climb, Moved, MovedLineage, ClearWay, AllValid;
    var after := Moved(nodes, id, parent, sortOrder);
    MovedParents(nodes, id, parent, sortOrder);
    LegalIsClear(nodes, id, parent);
    MovedLineages(nodes, id, parent, sortOrder, x);
    FollowsSelf(nodes, id, x);
    MovedDepth(nodes, id, parent, id, x);
    assert Placed(after, x);
  }

  lemma {:induction false} FollowsSelf(nodes: Forest, id: NodeId, x: NodeId)
    requires Legal(nodes) && id in nodes && x in nodes && Under(Parents(nodes), id, x) && (x == id || !BelongsTo(nodes[x], id))
    ensures Follows(nodes, id, id, x)
  {
    hide Lineage, Rooted, Climb, AllValid;
    DepthStep(nodes, id);
    forall d | d in Relocating(nodes, id) && Under(Parents(nodes), d, x) ensures Under(Parents(nodes), d, id) {
      if d != id && d != x {
        OnlyFoldersHold(nodes, d, x);
      }
    }
  }

  /** Acceptance in terms of the tree as it stands: the destination, and the depth every member would have. */
  lemma {:induction false} MoveAccepted(nodes: Forest, id: NodeId, parent: Option<NodeId>)
    requires Legal(nodes)
    ensures MoveError(nodes, id, parent).None? <==>
            && id in nodes
            && parent != Some(id)
            && Destination(nodes, id, parent)
            && forall x :: x in nodes && Under(Parents(nodes), id, x) ==>
                 |Lineage(Parents(nodes), parent)| + Depth(nodes, x) - Depth(nodes, id) + 1 <= MAX_TREE_DEPTH
  {
    hide Lineage, Rooted, Climb, OnLoop, Cut, Height, AncestorsOf;
    if id in nodes && (parent.Some? ==> parent.value in nodes) {
      HeightExists(nodes, id);
      MoveErrorGrounded(nodes, id, parent);
    }
  }

  /** Nothing at or above the node is relocated. */
  ghost predicate Stays(nodes: Forest, id: NodeId, x: NodeId) {
    forall c :: c in Lineage(Parents(nodes), Some(x)) ==> c !in Relocating(nodes, id)
  }

  /**
   Patch honesty in any sound tree, even when the move closes a loop elsewhere: a connection that goes along
   with nothing relocated resolves exactly as before. In a legal tree that is every connection outside the
   reported subtree.
   */
  lemma {:induction false} MoveIsHonest(nodes: Forest, id: NodeId, parent: Option<NodeId>, sortOrder: int, x: NodeId)
    requires Sound(nodes) && MoveError(nodes, id, parent).None? && x in nodes && nodes[x].kind.Connection?
    ensures Stays(nodes, id, x) ==> EffectiveConnection(Moved(nodes, id, parent, sortOrder), x) == EffectiveConnection(nodes, x)
    ensures Legal(nodes) ==> (Stays(nodes, id, x) <==> !Under(Parents(nodes), id, x))
  {
    hide Lineage, Rooted, Climb, EffectiveConnection, CredentialAt, Moved, BelongsTo, AllValid, MoveError;
    var after := Moved(nodes, id, parent, sortOrder);
    MoveKnows(nodes, id, parent);
    MovedParents(nodes, id, parent, sortOrder);
    DepthStep(nodes, x);
    LineageChain(Parents(nodes), Some(x));
    if Stays(nodes, id, x) {
      UnmovedNodes(nodes, id, parent, sortOrder, x);
      LineageKept(Parents(nodes), Parents(after), Some(x));
      MoveKeepsCredentials(nodes, id, parent, sortOrder);
      EffectiveFrame(nodes, after, x);
    }
    if Legal(nodes) {
      LegalStays(nodes, id, x);
    }
  }

  lemma {:induction false} LegalStays(nodes: Forest, id: NodeId, x: NodeId)
    requires Legal(nodes) && id in nodes && x in nodes && nodes[x].kind.Connection?
    ensures Stays(nodes, id, x) <==> !Under(Parents(nodes), id, x)
  {
    hide Lineage, Rooted, Climb, AllValid;
    DepthStep(nodes, x);
    LineageChain(Parents(nodes), Some(x));
    forall c | c in Lineage(Parents(nodes), Some(x)) && c in Relocating(nodes, id) ensures c == id {
      if c != x {
        OnlyFoldersHold(nodes, c, x);
      }
    }
  }

  lemma UnmovedNodes(nodes: Forest, id: NodeId, parent: Option<NodeId>, sortOrder: int, x: NodeId)
    requires Keyed(nodes) && Stays(nodes, id, x)
    ensures forall y :: y in Lineage(Parents(nodes), Some(x)) && y in nodes ==>
              y in Moved(nodes, id, parent, sortOrder) && Moved(nodes, id, parent, sortOrder)[y] == nodes[y]
  {
    hide Lineage;
  }

  lemma MoveKeepsCredentials(nodes: Forest, id: NodeId, parent: Option<NodeId>, sortOrder: int)
    ensures forall ref :: CredentialAt(Moved(nodes, id, parent, sortOrder), ref) == CredentialAt(nodes, ref)
  {
  }
}
