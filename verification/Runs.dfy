/** Whole runs of the tree's operations, and the one operation that needs care (crates/remoter-core/src/tree.rs:295-590). */
module Runs {
  import opened Base
  import opened Inheritance
  import opened Nodes
  import opened Validation
  import opened Lineages
  import opened Forests
  import opened Walks
  import opened Loops
  import opened Moves
  import opened Deletions
  import opened Resolution
  import opened Edits
  import SiblingIndex
  import Trees

  datatype Operation =
    | Insert(node: Node)
    | Update(node: Node)
    | Move(id: NodeId, parent: Option<NodeId>, sortOrder: int)
    | SoftDelete(id: NodeId, now: int)

  /** Why an operation is refused, leaving the tree as it was. */
  ghost function Failure(nodes: Forest, op: Operation): Option<CoreError> {
    match op
    case Insert(n) => InsertError(nodes, n)
    case Update(n) => UpdateError(nodes, n)
    case Move(id, parent, _) => MoveError(nodes, id, parent)
    case SoftDelete(id, _) => DeleteError(nodes, id)
  }

  /** The node map after one operation; a refused one leaves it alone. */
  ghost function After(nodes: Forest, op: Operation): Forest {
    if Failure(nodes, op).Some? then nodes
    else match op
      case Insert(n) => nodes[n.id := n]
      case Update(n) => if n.id in nodes then Updated(nodes, n) else nodes
      case Move(id, parent, sortOrder) => Moved(nodes, id, parent, sortOrder)
      case SoftDelete(id, now) => SoftDeleted(nodes, id, now)
  }

  /** The update does not turn a folder that has children into something else. */
  ghost predicate KeepsFolders(nodes: Forest, op: Operation) {
    op.Update? ==> op.node.kind.Folder? || !HasChildren(nodes, op.node.id)
  }

  ghost function Run(nodes: Forest, ops: seq<Operation>): Forest
    decreases |ops|
  {
    if ops == [] then nodes else Run(After(nodes, ops[0]), ops[1..])
  }

  ghost predicate RunKeepsFolders(nodes: Forest, ops: seq<Operation>)
    decreases |ops|
  {
    ops == [] || (KeepsFolders(nodes, ops[0]) && RunKeepsFolders(After(nodes, ops[0]), ops[1..]))
  }

  /** One step keeps a legal tree legal exactly when it takes no folder away from its children. */
  lemma {:induction false} StepKeepsLegal(nodes: Forest, op: Operation)
    requires Legal(nodes)
    ensures Legal(After(nodes, op)) <==> Failure(nodes, op).Some? || KeepsFolders(nodes, op)
    ensures Sound(After(nodes, op))
  {
    hide Legal, Moved, SoftDeleted, Updated, InsertError, UpdateError, MoveError, HasChildren;
    LegalIsSound(nodes);
    if Failure(nodes, op).None? {
      match op
      case Insert(n) => InsertExact(nodes, n); LegalIsSound(After(nodes, op));
      case Update(n) => UpdateKnown(nodes, n); UpdateExact(nodes, n);
      case Move(id, parent, sortOrder) => MoveKeepsLegal(nodes, id, parent, sortOrder); LegalIsSound(After(nodes, op));
      case SoftDelete(id, now) => DeleteKeepsLegal(nodes, id, now); LegalIsSound(After(nodes, op));
    }
  }

  lemma UpdateKnown(nodes: Forest, n: Node)
    ensures UpdateError(nodes, n).None? ==> n.id in nodes
  {
  }

  /** The tree invariant over every run. */
  lemma {:induction false} RunKeepsLegal(nodes: Forest, ops: seq<Operation>)
    requires Legal(nodes) && RunKeepsFolders(nodes, ops)
    ensures Legal(Run(nodes, ops))
    decreases |ops|
  {
    hide Legal, After, KeepsFolders;
    if ops != [] {
      StepKeepsLegal(nodes, ops[0]);
      RunKeepsLegal(After(nodes, ops[0]), ops[1..]);
    }
  }

  // What holds with no care at all.

  /** Any operation keeps ids, values and the existence of parents, even in a corrupt tree. */
  lemma {:induction false} StepKeepsStored(nodes: Forest, op: Operation)
    requires Stored(nodes)
    ensures Stored(After(nodes, op))
  {
    hide Stored, Moved, SoftDeleted, Updated, InsertError, UpdateError, MoveError, DeleteError;
    if Failure(nodes, op).None? {
      match op
      case Insert(n) => InsertKeepsStored(nodes, n);
      case Update(n) => UpdateKnown(nodes, n); UpdateKeepsStored(nodes, n);
      case Move(id, parent, sortOrder) => MoveKeepsStored(nodes, id, parent, sortOrder);
      case SoftDelete(id, now) => DeleteKeepsStored(nodes, id, now);
    }
  }

  /** No credential the move carries lies at or above the destination, and what is below those credentials has room there. */
  ghost predicate KeepsGround(nodes: Forest, op: Operation) {
    op.Move? ==> ClearWay(nodes, op.id, op.parent) && PassengersFit(nodes, op.id, op.parent)
  }

  ghost predicate RunKeepsGround(nodes: Forest, ops: seq<Operation>)
    decreases |ops|
  {
    ops == [] || ((Failure(nodes, ops[0]).Some? || KeepsGround(nodes, ops[0])) && RunKeepsGround(After(nodes, ops[0]), ops[1..]))
  }

  /** One step keeps a sound tree sound exactly when it is no move that takes a destination, or too deep a subtree, along. */
  lemma {:induction false} StepKeepsSound(nodes: Forest, op: Operation)
    requires Sound(nodes)
    ensures Sound(After(nodes, op)) <==> Failure(nodes, op).Some? || KeepsGround(nodes, op)
  {
    hide Sound, SoftDeleted, Updated, Moved, InsertError, UpdateError, MoveError, DeleteError, ClearWay, PassengersFit;
    if Failure(nodes, op).None? {
      match op
      case Insert(n) => InsertKeepsSound(nodes, n);
      case Update(n) => UpdateKnown(nodes, n); UpdateExact(nodes, n);
      case Move(id, parent, sortOrder) => MoveKeepsSound(nodes, id, parent, sortOrder);
      case SoftDelete(id, now) => DeletedIsSound(nodes, id, now);
    }
  }

  /** In a legal tree no accepted step can fail that. */
  lemma {:induction false} LegalKeepsGround(nodes: Forest, op: Operation)
    requires Legal(nodes)
    ensures Failure(nodes, op).Some? || KeepsGround(nodes, op)
  {
    hide Legal, MoveError, ClearWay, PassengersFit, InsertError, UpdateError, DeleteError;
    if Failure(nodes, op).None? && op.Move? {
      MoveKeepsLegal(nodes, op.id, op.parent, op.sortOrder);
    }
  }

  lemma {:induction false} DeletedIsSound(nodes: Forest, id: NodeId, now: int)
    requires Sound(nodes)
    ensures Sound(SoftDeleted(nodes, id, now))
  {
    hide Grounded, AllValid, SoftDeleted;
    DeleteKeepsSound(nodes, id, now);
  }

  /**
   Over every run: always stored; sound after every step exactly when every move leaves its destination behind
   and has room for what it takes along; legal as long as folders keep their children, and then sound with no more.
   */
  lemma {:induction false} RunKeeps(nodes: Forest, ops: seq<Operation>)
    requires Stored(nodes)
    ensures Stored(Run(nodes, ops))
    ensures Sound(nodes) ==> (AlwaysSound(nodes, ops) <==> RunKeepsGround(nodes, ops))
    ensures Legal(nodes) && RunKeepsFolders(nodes, ops) ==> Legal(Run(nodes, ops)) && RunKeepsGround(nodes, ops)
    decreases |ops|
  {
    hide Stored, Sound, Legal, After, KeepsFolders, KeepsGround;
    if ops != [] {
      var next := After(nodes, ops[0]);
      StepKeepsStored(nodes, ops[0]);
      if Sound(nodes) {
        StepKeepsSound(nodes, ops[0]);
      }
      if Legal(nodes) && RunKeepsFolders(nodes, ops) {
        StepKeepsLegal(nodes, ops[0]);
        LegalKeepsGround(nodes, ops[0]);
      }
      RunKeeps(next, ops[1..]);
      SoundAtFirst(next, ops[1..]);
    }
  }

  /** The tree is sound at the start of the run and after each of its steps. */
  ghost predicate AlwaysSound(nodes: Forest, ops: seq<Operation>)
    decreases |ops|
  {
    Sound(nodes) && (ops == [] || AlwaysSound(After(nodes, ops[0]), ops[1..]))
  }

  lemma SoundAtFirst(nodes: Forest, ops: seq<Operation>)
    ensures AlwaysSound(nodes, ops) ==> Sound(nodes)
  {
    hide Sound, After;
  }

  lemma {:induction false} SoundAtLast(nodes: Forest, ops: seq<Operation>)
    requires AlwaysSound(nodes, ops)
    ensures Sound(Run(nodes, ops))
    decreases |ops|
  {
    hide Sound, After;
    if ops != [] {
      SoundAtLast(After(nodes, ops[0]), ops[1..]);
    }
  }

  /** The tree object does what the run over its node map says, and its index stays exact throughout. */
  method Replay(tree: Trees.Tree, ops: seq<Operation>)
    requires tree.Consistent()
    modifies tree
    ensures tree.nodes == Run(old(tree.nodes), ops) && tree.Consistent()
    ensures old(Sound(tree.nodes)) && RunKeepsGround(old(tree.nodes), ops) ==> Sound(tree.nodes)
    ensures old(tree.Valid()) && RunKeepsFolders(old(tree.nodes), ops) ==> tree.Valid()
  {
    hide Run, RunKeepsGround, RunKeepsFolders, AlwaysSound, Stored, Sound, Legal, Moved, SoftDeleted, Updated, InsertError, UpdateError, MoveError, DeleteError, SiblingIndex.Indexed;
    RunKeeps(tree.nodes, ops);
    if AlwaysSound(tree.nodes, ops) {
      SoundAtLast(tree.nodes, ops);
    }
    assert ops[0..] == ops;
    for i := 0 to |ops|
      invariant tree.Consistent() && Run(tree.nodes, ops[i..]) == Run(old(tree.nodes), ops)
    {
      RunOnward(tree.nodes, ops, i);
      ghost var before := tree.nodes;
      var done;
      match ops[i] {
        case Insert(n) => done := tree.Insert(n);
        case Update(n) => UpdateKnown(before, n); done := tree.Update(n);
        case Move(id, parent, sortOrder) => done := tree.MoveNode(id, parent, sortOrder);
        case SoftDelete(id, now) => done := tree.SoftDelete(id, now);
      }
      assert tree.nodes == After(before, ops[i]);
    }
    RunOver(tree.nodes, ops);
  }

  lemma RunOnward(nodes: Forest, ops: seq<Operation>, i: nat)
    requires i < |ops|
    ensures Run(nodes, ops[i..]) == Run(After(nodes, ops[i]), ops[i + 1..])
  {
    hide After;
    assert ops[i..][0] == ops[i] && ops[i..][1..] == ops[i + 1..];
  }

  lemma RunOver(nodes: Forest, ops: seq<Operation>)
    ensures Run(nodes, ops[|ops|..]) == nodes
  {
  }

  // Why updates need care: a legal tree, an accepted update and an accepted move that leave a cycle.

  function Sample(id: NodeId, parent: Option<NodeId>, kind: NodeKind): Node {
    Node(id, parent, 0, kind, "n", "", [], None, None, 0, 0, 1, map[], None)
  }

  /** A credential attached to node 3. */
  function Owned(): NodeKind {
    Credential(CredentialProps(Some(3), "u", None, Agent(None), None, None, []))
  }

  /** A folder, a folder in it, and a separator beside them. */
  function Small(outer: NodeKind): Forest {
    map[1 := Sample(1, None, outer), 2 := Sample(2, Some(1), Folder(PLAIN)), 3 := Sample(3, None, Separator)]
  }

  lemma SmallLineages(par: ParentMap)
    requires par == map[1 := None, 2 := Some(1), 3 := None]
    ensures Rooted(par, Some(1)) && Lineage(par, Some(1)) == [1]
    ensures Rooted(par, Some(2)) && Lineage(par, Some(2)) == [2, 1]
    ensures Rooted(par, Some(3)) && Lineage(par, Some(3)) == [3]
  {
    assert Segment(par, Some(1), [1], None);
    assert [2, 1][1..] == [1];
    assert Segment(par, Some(2), [2, 1], None);
    assert Segment(par, Some(3), [3], None);
    LineageIs(par, Some(1), [1]);
    LineageIs(par, Some(2), [2, 1]);
    LineageIs(par, Some(3), [3]);
  }

  lemma SampleValid(id: NodeId, parent: Option<NodeId>, kind: NodeKind)
    requires ValidateKind(kind).None?
    ensures ValidateNode(Sample(id, parent, kind)).None?
  {
    hide ValidateKind;
  }

  lemma SampleKinds()
    ensures ValidateKind(Folder(PLAIN)).None? && ValidateKind(Owned()).None? && ValidateKind(Separator).None?
  {
  }

  lemma SmallShape(outer: NodeKind)
    ensures Small(outer).Keys == {1, 2, 3}
    ensures Parents(Small(outer)) == map[1 := None, 2 := Some(1), 3 := None]
  {
    assert Small(outer).Keys == {1, 2, 3};
  }

  lemma {:induction false} SmallSound(outer: NodeKind)
    requires ValidateKind(outer).None?
    ensures Sound(Small(outer))
    ensures outer.Folder? ==> Legal(Small(outer))
  {
    hide Lineage, Rooted, Climb, ValidateNode, ValidateKind;
    var nodes := Small(outer);
    SmallShape(outer);
    SmallLineages(Parents(nodes));
    SampleKinds();
    SampleValid(1, None, outer);
    SampleValid(2, Some(1), Folder(PLAIN));
    SampleValid(3, None, Separator);
    assert Placed(nodes, 1) && Placed(nodes, 2) && Placed(nodes, 3);
    assert HeldByFolder(nodes, 1) && HeldByFolder(nodes, 3);
    assert outer.Folder? ==> HeldByFolder(nodes, 2);
  }

  /**
   An update may turn a folder with children into a credential; moving the node that
   credential is attached to under one of those children is then accepted and closes a loop.
   */
  lemma {:induction false} CareIsNeeded()
    ensures Legal(Small(Folder(PLAIN)))
    ensures var n := Sample(1, None, Owned());
            && UpdateError(Small(Folder(PLAIN)), n).None?
            && !KeepsFolders(Small(Folder(PLAIN)), Update(n))
            && var broken := Updated(Small(Folder(PLAIN)), n);
               && MoveError(broken, 3, Some(2)).None?
               && Cyclic(Parents(Moved(broken, 3, Some(2), 0)), Some(1)) && OnLoop(Parents(Moved(broken, 3, Some(2), 0)), 1)
  {
    hide Lineage, Rooted, Climb, MoveError, Moved, ValidateNode, ValidateKind, Cyclic, OnLoop, Legal, AllValid, Grounded;
    var nodes, n := Small(Folder(PLAIN)), Sample(1, None, Owned());
    SampleKinds();
    SmallSound(Folder(PLAIN));
    SampleValid(1, None, Owned());
    assert nodes[2].parentId == Some(1);
    var broken := Updated(nodes, n);
    SmallShape(Folder(PLAIN));
    UpdateExact(nodes, n);
    SmallLineages(Parents(broken));
    LeafMoves(broken, 3, 2);
    MoveClosesLoop(broken);
  }

  /** A node without children can go into any folder that is not at the depth limit. */
  lemma {:induction false} LeafMoves(nodes: Forest, id: NodeId, parent: NodeId)
    requires Grounded(nodes) && id in nodes && !HasChildren(nodes, id) && parent in nodes && parent != id
    requires nodes[parent].kind.Folder? && Depth(nodes, parent) < MAX_TREE_DEPTH
    ensures MoveError(nodes, id, Some(parent)).None?
  {
    hide Lineage, Rooted, Climb, Height, OnLoop, Cut, AncestorsOf, Level, IsHeight;
    LevelZero(nodes, id);
    forall x | x in nodes ensures x !in Level(nodes, id, 1) {
      LevelStep(nodes, id, 0, x);
    }
    LevelInside(nodes, id, 1);
    HeightFromLevels(nodes, id, 1);
    HeightUnique(nodes, id, 1);
    MoveErrorGrounded(nodes, id, Some(parent));
    if Under(Parents(nodes), id, parent) {
      var child := ChildOnPath(nodes, id, parent);
    }
  }

  lemma LevelInside(nodes: Forest, id: NodeId, k: nat)
    ensures forall x :: x in Level(nodes, id, k) ==> x in nodes
  {
  }

  lemma MoveClosesLoop(nodes: Forest)
    requires Parents(nodes) == map[1 := None, 2 := Some(1), 3 := None]
    requires nodes[1].id == 1 && BelongsTo(nodes[1], 3) && nodes[2].id == 2 && !BelongsTo(nodes[2], 3)
    ensures Cyclic(Parents(Moved(nodes, 3, Some(2), 0)), Some(1)) && OnLoop(Parents(Moved(nodes, 3, Some(2), 0)), 1)
  {
    var par := Parents(Moved(nodes, 3, Some(2), 0));
    assert Parents(nodes)[2] == Some(1) && nodes[2].parentId == Some(1);
    assert par[1] == Some(2) && par[2] == Some(1);
    assert [1, 2][1..] == [2];
    assert Segment(par, Some(1), [1, 2], Some(1));
    assert Segment(par, Some(1), [], Some(1));
  }

  /** What that update and that move leave. */
  ghost function Looped(): Forest {
    Run(Small(Folder(PLAIN)), [Update(Sample(1, None, Owned())), Move(3, Some(2), 0)])
  }

  lemma {:induction false} LoopedIs()
    ensures Looped() == Moved(Updated(Small(Folder(PLAIN)), Sample(1, None, Owned())), 3, Some(2), 0)
  {
    hide UpdateError, MoveError, Moved, Updated, OnLoop, Cyclic, KeepsFolders;
    var nodes, n := Small(Folder(PLAIN)), Sample(1, None, Owned());
    CareIsNeeded();
    RunTwo(nodes, Update(n), Move(3, Some(2), 0));
  }

  lemma RunTwo(nodes: Forest, a: Operation, b: Operation)
    ensures Run(nodes, [a, b]) == After(After(nodes, a), b)
  {
    hide After;
    assert [a, b][1..] == [b] && [b][1..] == [];
    assert Run(After(nodes, a), [b]) == Run(After(After(nodes, a), b), []);
  }

  /** Node 1 once more, with an icon. */
  function Dressed(): Node {
    Sample(1, Some(2), Owned()).(icon := Some("i"))
  }

  lemma DressedValid()
    ensures ValidateNode(Dressed()).None?
  {
    hide ValidateKind;
    SampleKinds();
  }

  /** On the loop an update is stored and then reported as a failure. */
  lemma {:induction false} UpdateFailsLate(children: SiblingIndex.Index)
    ensures Dressed().id in Looped() && UpdateError(Looped(), Dressed()).None?
    ensures Trees.UpdateReport(Looped(), Dressed(), children) == Err(CorruptTree) && Updated(Looped(), Dressed()) != Looped()
  {
    hide ValidateNode, ValidateKind, OnLoop, Cyclic, MoveError, Legal, Preorder, Looped;
    CareIsNeeded();
    LoopedIs();
    DressedValid();
    var before := Updated(Small(Folder(PLAIN)), Sample(1, None, Owned()));
    assert 1 in before && before[1].id == 1 && BelongsTo(before[1], 3) && before[1].icon == None;
    assert Looped()[1] == MovedNode(before[1], 3, Some(2), 0);
    assert Updated(Looped(), Dressed())[1].icon == Some("i");
  }

  // What a move's patch does not report: what hangs below a credential that it carries.

  /** `x` is in `c`, a credential at the top that goes along with `id` into `parent`, a folder at the top. */
  ghost predicate Ferried(nodes: Forest, id: NodeId, parent: NodeId, c: NodeId, x: NodeId) {
    && id in nodes && parent in nodes && c in nodes && x in nodes && id != parent && id != c
    && BelongsTo(nodes[c], id) && nodes[c].parentId == None
    && nodes[x].kind.Connection? && nodes[x].parentId == Some(c) && id != x
    && nodes[parent].kind.Folder? && nodes[parent].parentId == None
  }

  lemma {:induction false} FerriedPaths(nodes: Forest, id: NodeId, parent: NodeId, c: NodeId, x: NodeId, sortOrder: int)
    requires Keyed(nodes) && Anchored(nodes) && Ferried(nodes, id, parent, c, x)
    ensures var after := Moved(nodes, id, Some(parent), sortOrder);
            && Lineage(Parents(nodes), Some(x)) == [x, c] && Anchor(nodes, x)
            && x in after && Lineage(Parents(after), Some(x)) == [x, c, parent] && Anchor(after, x)
  {
    hide Lineage, Rooted, Climb, Moved;
    var par := Parents(nodes);
    RootLineage(par);
    DepthStep(nodes, x);
    DepthStep(nodes, c);
    DepthStep(nodes, parent);
    assert Lineage(par, Some(x)) == [x, c] && Lineage(par, Some(parent)) == [parent];
    MovedParents(nodes, id, Some(parent), sortOrder);
    MovedLineages(nodes, id, Some(parent), sortOrder, x);
    SplicedShape([x, c], Relocating(nodes, id), [parent], 1);
    assert [x, c][..2] + [parent] == [x, c, parent];
  }

  /** If that folder has a port and the connection none, the connection resolves differently, and nothing reports it. */
  lemma {:induction false} PassengerMissed(nodes: Forest, id: NodeId, parent: NodeId, c: NodeId, x: NodeId, sortOrder: int)
    requires Sound(nodes) && Ferried(nodes, id, parent, c, x)
    requires nodes[x].kind.fields.port == Inherit && nodes[parent].kind.fields.port.Explicit?
    ensures !Under(Parents(nodes), id, x)
    ensures EffectiveConnection(nodes, x).Ok? && EffectiveConnection(Moved(nodes, id, Some(parent), sortOrder), x) != EffectiveConnection(nodes, x)
  {
    hide Lineage, Rooted, Climb, AncestorsOf, AllValid, WalkedOf, Moved;
    var after := Moved(nodes, id, Some(parent), sortOrder);
    FerriedPaths(nodes, id, parent, c, x, sortOrder);
    MovedKinds(nodes, id, Some(parent), sortOrder);
    EffectiveAlongLineage(nodes, x);
    EffectiveAlongLineage(after, x);
    assert PathNodes(nodes, x)[1..] == [nodes[c]] && PathNodes(after, x)[1..] == [after[c], after[parent]];
    PortsDiffer(nodes[x], nodes[c], after[x], after[c], after[parent]);
  }

  lemma MovedKinds(nodes: Forest, id: NodeId, parent: Option<NodeId>, sortOrder: int)
    ensures forall y :: y in nodes ==> y in Moved(nodes, id, parent, sortOrder) && Moved(nodes, id, parent, sortOrder)[y].kind == nodes[y].kind
  {
  }

  lemma {:induction false} PortsDiffer(x: Node, c: Node, x': Node, c': Node, parent: Node)
    requires x.kind.Connection? && x.kind == x'.kind && x.kind.fields.port == Inherit && c.kind.Credential? && c'.kind.Credential?
    requires parent.kind.Folder? && parent.kind.fields.port.Explicit?
    ensures WalkedOf(x.kind.protocol, x, [c]).port.provenance == DefaultAtRoot
    ensures WalkedOf(x.kind.protocol, x', [c', parent]).port.provenance == Ancestor(parent.id)
  {
    hide MergedSettings;
    assert [x] + [c] == [x, c] && [x'] + [c', parent] == [x', c', parent];
    ResolveNearest(x, [c], PortField, 2);
    ResolveNearest(x', [c', parent], PortField, 2);
  }

  /** A folder that holds a connection, a separator, and a folder with a port. */
  function Quay(): Forest {
    map[][1 := Sample(1, None, Folder(PLAIN))][2 := Boarder()][3 := Sample(3, None, Separator)][4 := Haven()]
  }

  function Boarder(): Node { Sample(2, Some(1), Connection("ssh", "h", PLAIN)) }

  function Haven(): Node { Sample(4, None, Folder(PLAIN.(port := Explicit(22)))) }

  lemma {:induction false} QuayLegal()
    ensures Legal(Quay()) && ValidateNode(Sample(1, None, Owned())).None?
  {
    hide ValidateNode, ValidateHost, Legal, Lineage, Rooted, Climb, Depth;
    OneLetterHost();
    SampleKinds();
    SampleValid(1, None, Folder(PLAIN));
    SampleValid(1, None, Owned());
    SampleValid(2, Some(1), Boarder().kind);
    SampleValid(3, None, Separator);
    SampleValid(4, None, Haven().kind);
    NothingIsLegal();
    var a := map[][1 := Sample(1, None, Folder(PLAIN))];
    Placeable(map[], Sample(1, None, Folder(PLAIN)), 1);
    Placeable(a, Boarder(), 2);
    Placeable(a[2 := Boarder()], Sample(3, None, Separator), 1);
    Placeable(a[2 := Boarder()][3 := Sample(3, None, Separator)], Haven(), 1);
  }

  lemma {:induction false} TopDepth(nodes: Forest, id: NodeId)
    requires Grounded(nodes) && id in nodes && nodes[id].parentId == None
    ensures Depth(nodes, id) == 1
  {
    hide Lineage, Rooted;
    DepthStep(nodes, id);
    RootLineage(Parents(nodes));
  }

  /** The folder becomes a credential of the separator, which then moves. */
  lemma {:induction false} MoveMissesPassengers()
    ensures var n := Sample(1, None, Owned());
            && Legal(Quay()) && UpdateError(Quay(), n).None?
            && var nodes := Updated(Quay(), n);
               && MoveError(nodes, 3, Some(4)).None? && !Under(Parents(nodes), 3, 2) && EffectiveConnection(nodes, 2).Ok?
               && EffectiveConnection(Moved(nodes, 3, Some(4), 0), 2) != EffectiveConnection(nodes, 2)
  {
    hide ValidateNode, Legal, Lineage, Rooted, Climb, EffectiveConnection, Moved, MoveError, AllValid, Grounded, Depth;
    var n := Sample(1, None, Owned());
    var nodes := Updated(Quay(), n);
    QuayLegal();
    LegalIsSound(Quay());
    UpdateExact(Quay(), n);
    assert Quay()[2] == Boarder() && Quay()[4] == Haven();
    TopDepth(nodes, 4);
    LeafMoves(nodes, 3, 4);
    PassengerMissed(nodes, 3, 4, 1, 2, 0);
  }

  // Why the preview of a move is cautious: a legal result it refuses.

  /** Folders 1 to n, each in the one before. */
  function Tower(n: nat): (f: Forest)
    ensures forall id :: id in f <==> 1 <= id <= n
  {
    if n == 0 then map[] else Tower(n - 1)[n := Sample(n, if n == 1 then None else Some(n - 1), Folder(PLAIN))]
  }

  lemma {:induction false} TowerLegal(n: nat)
    requires n <= MAX_TREE_DEPTH
    ensures Legal(Tower(n))
    ensures n > 0 ==> Depth(Tower(n), n) == n
    ensures forall id :: id in Tower(n) ==> Tower(n)[id].id == id && Tower(n)[id].kind.Folder?
  {
    hide Lineage, Rooted, Climb, ValidateNode, Legal, Depth;
    if n == 0 {
      NothingIsLegal();
    } else {
      TowerLegal(n - 1);
      CarriedKind();
      SampleValid(n, if n == 1 then None else Some(n - 1), Folder(PLAIN));
      Placeable(Tower(n - 1), Tower(n)[n], n);
    }
  }

  lemma NothingIsLegal()
    ensures Legal(map[])
  {
  }

  /** Putting a node in a folder, or at the top, that has room for it. */
  lemma {:induction false} Placeable(nodes: Forest, n: Node, depth: nat)
    requires Legal(nodes) && n.id !in nodes && ValidateNode(n).None? && depth <= MAX_TREE_DEPTH
    requires n.parentId.None? ==> depth == 1
    requires n.parentId.Some? ==>
               n.parentId.value in nodes && nodes[n.parentId.value].kind.Folder? && depth == Depth(nodes, n.parentId.value) + 1
    ensures var after := nodes[n.id := n];
            Legal(after) && Depth(after, n.id) == depth && forall x :: x in nodes ==> Depth(after, x) == Depth(nodes, x)
  {
    hide Lineage, Rooted, Climb, ValidateNode, Legal, AncestorsOf;
    var after := nodes[n.id := n];
    LegalIsSound(nodes);
    if n.parentId.Some? {
      assert Placed(nodes, n.parentId.value);
      AncestorsDepth(nodes, n.parentId.value);
    }
    InsertExact(nodes, n);
    LegalIsSound(after);
    InsertKeepsLineages(nodes, n);
    DepthStep(after, n.id);
    RootLineage(Parents(after));
  }

  /** A credential attached to node 100. */
  function Carried(): NodeKind {
    Credential(CredentialProps(Some(100), "u", None, Agent(None), None, None, []))
  }

  lemma CarriedKind()
    ensures ValidateKind(Folder(PLAIN)).None? && ValidateKind(Carried()).None?
  {
  }

  function Holder(): Node { Sample(100, None, Folder(PLAIN)) }

  function Held(): Node { Sample(101, Some(100), Carried()) }

  lemma HolderValid()
    ensures ValidateNode(Holder()).None? && ValidateNode(Held()).None?
  {
    hide ValidateNode, ValidateKind;
    CarriedKind();
    SampleValid(100, None, Folder(PLAIN));
    SampleValid(101, Some(100), Carried());
  }

  /** A tower, and beside it folder 100 with a credential in it that is attached to it. */
  function Beside(top: nat): Forest {
    Tower(top)[100 := Holder()][101 := Held()]
  }

  /** Folder 100 would fit on top of the tower with its credential beside it, and the move is refused. */
  lemma {:induction false} MoveIsCautious(top: nat)
    requires top == MAX_TREE_DEPTH - 1
    ensures Legal(Beside(top)) && Legal(Moved(Beside(top), 100, Some(top), 0)) && MoveError(Beside(top), 100, Some(top)).Some?
  {
    hide Lineage, Rooted, Climb, ValidateNode, Legal, Depth, Tower, Moved, MoveError, Under;
    var base, nodes := Tower(top), Beside(top);
    TowerLegal(top);
    HolderValid();
    Placeable(base, Holder(), 1);
    Placeable(base[100 := Holder()], Held(), 2);
    MoveAccepted(nodes, 100, Some(top));
    DepthOf(nodes, top);
    LegalIsSound(nodes);
    HeldIsUnder(nodes);
    MovedBeside(top);
  }

  lemma DepthOf(nodes: Forest, id: NodeId)
    ensures |Lineage(Parents(nodes), Some(id))| == Depth(nodes, id)
  {
  }

  lemma {:induction false} HeldIsUnder(nodes: Forest)
    requires Grounded(nodes) && 101 in nodes && nodes[101].parentId == Some(100)
    ensures Under(Parents(nodes), 100, 101)
  {
    hide Rooted, Climb, Lineage;
    DepthStep(nodes, 101);
    DepthStep(nodes, 100);
  }

  lemma {:induction false} MovedBeside(top: nat)
    requires top == MAX_TREE_DEPTH - 1
    ensures Legal(Moved(Beside(top), 100, Some(top), 0))
  {
    hide Lineage, Rooted, Climb, ValidateNode, Legal, Depth, Tower;
    var base := Tower(top);
    var a, b := MovedNode(Holder(), 100, Some(top), 0), MovedNode(Held(), 100, Some(top), 0);
    TowerLegal(top);
    HolderValid();
    RelocatedValid(Holder(), 100, Some(top), 0);
    RelocatedValid(Held(), 100, Some(top), 0);
    Placeable(base, a, MAX_TREE_DEPTH);
    Placeable(base[100 := a], b, MAX_TREE_DEPTH);
    assert Moved(Beside(top), 100, Some(top), 0) == base[100 := a][101 := b];
  }

  // What an update's patch does not report: a renamed account behind a credential that others read.

  function Account(username: string): Node {
    Sample(2, None, Credential(CredentialProps(None, username, None, Agent(None), None, None, [])))
  }

  function Reader(): Node {
    Sample(1, None, Connection("ssh", "h", PLAIN.(credential := Explicit(Live(2)))))
  }

  lemma {:induction false} ReaderValid()
    ensures ValidateNode(Reader()).None? && ValidateNode(Account("u")).None? && ValidateNode(Account("v")).None?
  {
    hide ValidateNode, ValidateHost;
    OneLetterHost();
    SampleValid(1, None, Reader().kind);
    SampleValid(2, None, Account("u").kind);
    SampleValid(2, None, Account("v").kind);
  }

  function Pair(): Forest {
    map[1 := Reader(), 2 := Account("u")]
  }

  lemma {:induction false} PairLegal()
    ensures Legal(Pair())
  {
    hide ValidateNode, Legal, Lineage, Rooted, Climb, Depth;
    ReaderValid();
    NothingIsLegal();
    Placeable(map[], Reader(), 1);
    Placeable(map[1 := Reader()], Account("u"), 1);
    assert Pair() == map[1 := Reader()][2 := Account("u")];
  }

  /** An edit that changes an account's name is not reported for a connection that reads it. */
  lemma {:induction false} AccountMissed(nodes: Forest, n: Node, x: NodeId)
    requires Legal(nodes) && UpdateError(nodes, n).None? && x in nodes && nodes[x].kind.Connection?
    requires nodes[x].kind.fields.credential == Explicit(Live(n.id)) && n.id != x
    requires !InheritanceDiffers(nodes[n.id], n) && AccountOf(nodes[n.id], x) != AccountOf(n, x)
    ensures !ReportedByUpdate(nodes, n, x)
    ensures EffectiveConnection(nodes, x).Ok? && EffectiveConnection(Updated(nodes, n), x) != EffectiveConnection(nodes, x)
  {
    hide ValidateNode, Legal, Lineage, Rooted, Climb, Depth, Updated, AncestorsOf, AccountOf, InheritanceDiffers;
    LegalIsSound(nodes);
    EffectiveAlongLineage(nodes, x);
    UpdateIsHonest(nodes, n, x);
    assert EffectiveConnection(nodes, x).value.walked.credential.value == Some(Live(n.id));
  }

  lemma {:induction false} UpdateMissesAccounts()
    ensures var n := Account("v");
            && Legal(Pair()) && UpdateError(Pair(), n).None? && !ReportedByUpdate(Pair(), n, 1)
            && EffectiveConnection(Pair(), 1).Ok? && EffectiveConnection(Updated(Pair(), n), 1) != EffectiveConnection(Pair(), 1)
  {
    hide ValidateNode, Legal, EffectiveConnection, Updated;
    ReaderValid();
    PairLegal();
    AccountMissed(Pair(), Account("v"), 1);
  }

  /** A new credential under an id that a connection already refers to changes what the connection resolves to, unreported. */
  lemma {:induction false} InsertMissesReaders()
    ensures var nodes, n := map[1 := Reader()], Account("u");
            && Legal(nodes) && InsertError(nodes, n).None? && EffectiveConnection(nodes, 1).Ok?
            && EffectiveConnection(nodes[2 := n], 1) != EffectiveConnection(nodes, 1)
  {
    hide ValidateNode, Legal, Lineage, Rooted, Climb, Depth, AncestorsOf;
    var nodes, n := map[1 := Reader()], Account("u");
    ReaderValid();
    NothingIsLegal();
    Placeable(map[], Reader(), 1);
    LegalIsSound(nodes);
    EffectiveAlongLineage(nodes, 1);
    InsertIsHonest(nodes, n, 1);
    assert EffectiveConnection(nodes, 1).value.walked.credential.value == Some(Live(2));
  }

  // What a deletion's patch does not report: a connection that inherits the lost credential.

  function Giver(): Node {
    Sample(3, None, Folder(PLAIN.(credential := Explicit(Live(2)))))
  }

  function Heir(): Node {
    Sample(1, Some(3), Connection("ssh", "h", PLAIN))
  }

  function Estate(): Forest {
    map[3 := Giver(), 1 := Heir(), 2 := Account("u")]
  }

  lemma {:induction false} HeirValid()
    ensures ValidateNode(Giver()).None? && ValidateNode(Heir()).None? && ValidateNode(Account("u")).None?
  {
    hide ValidateNode, ValidateHost;
    OneLetterHost();
    SampleValid(3, None, Giver().kind);
    SampleValid(1, Some(3), Heir().kind);
    SampleValid(2, None, Account("u").kind);
  }

  lemma {:induction false} EstateLegal()
    ensures Legal(Estate())
  {
    hide ValidateNode, Legal, Lineage, Rooted, Climb, Depth;
    HeirValid();
    NothingIsLegal();
    Placeable(map[], Giver(), 1);
    Placeable(map[3 := Giver()], Heir(), 2);
    Placeable(map[3 := Giver()][1 := Heir()], Account("u"), 1);
    assert Estate() == map[3 := Giver()][1 := Heir()][2 := Account("u")];
  }

  /** A connection that inherits its credential from its folder resolves differently once that credential is deleted. */
  lemma {:induction false} HeirMissed(nodes: Forest, x: NodeId, y: NodeId, c: NodeId, now: int)
    requires Legal(nodes) && x in nodes && c in nodes && nodes[x].kind.Connection? && nodes[x].parentId == Some(y)
    requires nodes[x].kind.fields.credential == Inherit && References(nodes[x]) == []
    requires y in nodes && nodes[y].kind.Folder? && nodes[y].kind.fields.credential == Explicit(Live(c))
    requires x !in Doomed(nodes, c) && c in Doomed(nodes, c)
    ensures x !in Referrers(nodes, Doomed(nodes, c))
    ensures EffectiveConnection(nodes, x).Ok? && EffectiveConnection(SoftDeleted(nodes, c, now), x) != EffectiveConnection(nodes, x)
  {
    hide ValidateNode, Legal, Rooted, Climb, Lineage, SoftDeleted, AncestorsOf, Doomed, MergedSettings;
    LegalIsSound(nodes);
    DepthStep(nodes, x);
    DepthStep(nodes, y);
    EffectiveAlongLineage(nodes, x);
    var above := PathNodes(nodes, x)[1..];
    assert above != [] && above[0] == nodes[y];
    ResolveNearest(nodes[x], above, CredentialField, 1);
    assert EffectiveConnection(nodes, x).value.walked.credential.value == Some(Live(c));
    assert Live(c) in ResolvedReferences(EffectiveConnection(nodes, x).value.walked);
    DeleteIsHonest(nodes, c, now, x);
  }

  lemma {:induction false} EstateDoomed()
    ensures 2 in Doomed(Estate(), 2) && 1 !in Doomed(Estate(), 2)
  {
    hide ValidateNode, Legal, Rooted, Climb, Lineage, Doomed;
    var nodes := Estate();
    EstateLegal();
    LegalIsSound(nodes);
    DepthStep(nodes, 1);
    DepthStep(nodes, 2);
    DepthStep(nodes, 3);
    RootLineage(Parents(nodes));
    DoomedGrounded(nodes, 2, 1);
    DoomedGrounded(nodes, 2, 2);
  }

  lemma {:induction false} DeleteMissesHeirs(now: int)
    ensures Legal(Estate()) && 1 !in Doomed(Estate(), 2) && 1 !in Referrers(Estate(), Doomed(Estate(), 2))
    ensures EffectiveConnection(SoftDeleted(Estate(), 2, now), 1) != EffectiveConnection(Estate(), 1)
  {
    hide ValidateNode, Legal, EffectiveConnection, SoftDeleted, Doomed;
    EstateLegal();
    EstateDoomed();
    HeirMissed(Estate(), 1, 3, 2, now);
  }
}
