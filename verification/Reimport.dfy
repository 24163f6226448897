/** Importing the same thing twice (crates/remoter-import/src/conflicts.rs:107-237). */
module Reimport {
  import opened Base
  import opened Inheritance
  import opened Nodes
  import opened Validation
  import opened Lineages
  import opened Forests
  import opened SiblingIndex
  import opened Trees
  import opened Renaming
  import opened ParentOrder
  import opened Conflicts
  import opened ImportPlans
  import opened Grafting
  import Previews
  import Deletions
  import Runs

  /** A first import into `vault`, the vault it leaves, and the renaming its second copy arrives under. */
  datatype Story = Story(
    nodes: seq<Node>,
    destination: Option<NodeId>,
    vault: Forest,
    children: Index,
    after: Forest,
    afterChildren: Index,
    renaming: IdMap)

  ghost function First(s: Story): IdMap {
    Matching(s.nodes, s.vault, s.children, s.destination)
  }

  function Copy(s: Story): seq<Node> {
    RemapAll(s.nodes, s.renaming)
  }

  ghost function Second(s: Story): IdMap {
    Matching(Copy(s), s.after, s.afterChildren, s.destination)
  }

  ghost function Plan1(s: Story): ImportPlan {
    Plan(s.nodes, First(s), s.vault, Skip)
  }

  /** Something in the import depends on where this node lands: it is a folder, or a credential is attached to it. */
  ghost predicate Named(nodes: seq<Node>, n: Node) {
    !OwnedInside(nodes, n) && (n.kind.Folder? || exists m :: m in nodes && AttachedTo(m) == Some(n.id))
  }

  /** A folder or owner differs in kind or name from every other node under its parent. */
  ghost predicate DistinctNames(nodes: seq<Node>) {
    forall i, j ::
      0 <= i < |nodes| && 0 <= j < |nodes| && i != j && nodes[i].parentId == nodes[j].parentId && Named(nodes, nodes[i])
      && Label(nodes[i].kind) == Label(nodes[j].kind)
      ==> nodes[i].name != nodes[j].name
  }

  /** An owner is not itself a credential of some other owner. */
  ghost predicate OwnersAreFree(nodes: seq<Node>) {
    forall n, m :: n in nodes && m in nodes && AttachedTo(m) == Some(n.id) ==> !OwnedInside(nodes, n)
  }

  /** What the reference checks ask of owners. */
  ghost predicate OwnedByConnections(nodes: seq<Node>) {
    forall n, m :: n in nodes && m in nodes && AttachedTo(m) == Some(n.id) ==> n.kind.Connection?
  }

  lemma ConnectionsAreFree(nodes: seq<Node>)
    requires OwnedByConnections(nodes)
    ensures OwnersAreFree(nodes)
  {
  }

  ghost predicate FirstImport(s: Story) {
    && Orderly(s.nodes, s.destination) && DistinctNames(s.nodes)
    && Legal(s.vault) && Indexed(s.vault, s.children) && IdSet(s.nodes) !! s.vault.Keys
    && (s.destination.Some? ==> s.destination.value in s.vault)
    && InsertAll(s.vault, Remapped(Plan1(s)).inserts) == Ok(s.after)
    && Indexed(s.after, s.afterChildren)
  }

  ghost predicate FreshCopy(s: Story) {
    && s.renaming.Keys == IdSet(s.nodes) && Injective(s.renaming) && s.renaming.Values !! s.after.Keys
    && (s.destination.Some? ==> s.destination.value !in s.renaming.Values)
    && forall n :: n in s.nodes ==> FreshFor(s.renaming, n)
  }

  /** Where a node ends up: on what it matched, or in the vault under its own id. */
  ghost function Land(s: Story, id: NodeId): NodeId {
    Renamed(id, First(s))
  }

  ghost function Place(s: Story, n: Node): Option<NodeId> {
    PlaceOf(n, First(s), s.destination)
  }

  /** Something live, alike in kind and name, is inserted beside this node; the node itself will do. */
  ghost predicate LiveTwin(s: Story, n: Node) {
    exists m :: m in s.nodes && m.id !in First(s) && m.parentId == n.parentId
                && Label(m.kind) == Label(n.kind) && m.name == n.name && m.deletedAt.None?
  }

  /** Whatever is inserted already deleted has a live twin; what goes by its owner does not need one. */
  ghost predicate DeletedHaveTwins(s: Story) {
    forall n :: n in s.nodes && !OwnedInside(s.nodes, n) && n.id !in First(s) ==> LiveTwin(s, n)
  }

  /**
   What the copy of a node is taken for once it is matched: where the node landed, or, for a credential with an
   owner in the import, the first credential of whatever the owner's copy is taken for.
   */
  ghost function Settles(s: Story, i: nat): Option<NodeId>
    requires i < |s.nodes|
    decreases i
  {
    var n := s.nodes[i];
    if !OwnedInside(s.nodes, n) then Some(Land(s, n.id))
    else if exists j :: 0 <= j < i && AttachedTo(n) == Some(s.nodes[j].id) then
      var j :| 0 <= j < i && AttachedTo(n) == Some(s.nodes[j].id);
      match Settles(s, j) case None => None case Some(owner) => FirstAttached(s.after, owner)
    else None
  }

  /** Every credential with an owner in the import settles somewhere. */
  ghost predicate OwnedSettle(s: Story) {
    forall i :: 0 <= i < |s.nodes| && OwnedInside(s.nodes, s.nodes[i]) ==> Settles(s, i).Some?
  }

  // The vault after the first import.

  lemma {:induction false} FirstFacts(s: Story)
    requires FirstImport(s)
    ensures MatchedExactly(s.nodes, First(s), s.vault, s.children, s.destination)
    ensures forall x :: x in First(s) ==> First(s)[x] in s.vault
    ensures First(s).Keys <= IdSet(s.nodes) && Plan1(s).ids == First(s)
  {
    hide MatchedExactly, Matching, Legal, Indexed, InsertAll, FateOf, Plan;
    MatchingIsExact(s.nodes, s.vault, s.children, s.destination);
    MatchedInVault(s.nodes, First(s), s.vault, s.children, s.destination);
    MatchKeysInside(s.nodes, First(s), s.vault, s.children, s.destination);
    PlanMembers(s.nodes, First(s), s.vault, Skip);
    forall x | x in First(s) ensures x in Plan1(s).ids {
      var n :| n in s.nodes && n.id == x;
      SkipNeverInserts(n, First(s), s.vault, Skip);
    }
  }

  lemma MatchKeysInside(nodes: seq<Node>, matched: IdMap, vault: Forest, children: Index, destination: Option<NodeId>)
    requires MatchedExactly(nodes, matched, vault, children, destination)
    ensures matched.Keys <= IdSet(nodes)
  {
  }

  lemma SkipNeverInserts(n: Node, matched: IdMap, vault: Forest, policy: ConflictPolicy)
    requires !policy.KeepBoth? && (n.id in matched ==> matched[n.id] in vault)
    ensures FateOf(n, matched, vault, policy).Inserted? <==> n.id !in matched
  {
  }

  lemma {:induction false} AfterFacts(s: Story)
    requires FirstImport(s)
    ensures Legal(s.after) && forall x :: x in s.vault ==> x in s.after && s.after[x] == s.vault[x]
    ensures forall x :: x in s.after && x !in s.vault ==> exists n :: n in s.nodes && n.id == x && n.id !in First(s)
    ensures forall n :: n in s.nodes && n.id !in First(s) ==>
              n.id in s.after && s.after[n.id] == RemapNode(n, First(s))
  {
    hide Legal, Indexed, InsertAll, FateOf, Plan, Matching, RemapNode, Orderly;
    var inserts := Remapped(Plan1(s)).inserts;
    FirstFacts(s);
    InsertAllExact(s.vault, inserts);
    PlanMembers(s.nodes, First(s), s.vault, Skip);
    forall n | n in s.nodes && n.id !in First(s) ensures n.id in s.after && s.after[n.id] == RemapNode(n, First(s)) {
      SkipNeverInserts(n, First(s), s.vault, Skip);
      var i :| 0 <= i < |Plan1(s).inserts| && Plan1(s).inserts[i] == n;
      assert inserts[i] == RemapNode(n, First(s)) && inserts[i] in inserts;
      RemappedPlace(n, First(s));
    }
    forall x | x in s.after && x !in s.vault ensures exists n :: n in s.nodes && n.id == x && n.id !in First(s) {
      var i :| 0 <= i < |inserts| && inserts[i] == s.after[x];
      var n := Plan1(s).inserts[i];
      assert n in Plan1(s).inserts;
      SkipNeverInserts(n, First(s), s.vault, Skip);
      RemappedPlace(n, First(s));
      KeyedAt(s.after, x);
    }
  }

  lemma KeyedAt(nodes: Forest, x: NodeId)
    requires Legal(nodes) && x in nodes
    ensures nodes[x].id == x
  {
  }

  /** A live node of this kind and name stands, afterwards, where the imported one landed. */
  lemma {:induction false} Standing(s: Story, i: nat) returns (x: NodeId)
    requires FirstImport(s) && i < |s.nodes| && !OwnedInside(s.nodes, s.nodes[i])
    requires s.nodes[i].id in First(s) || LiveTwin(s, s.nodes[i])
    ensures var n := s.nodes[i];
            x in s.after && s.after[x].parentId == Place(s, n) && Alike(s.after[x], Label(n.kind), n.name)
  {
    hide Legal, Indexed, InsertAll, Plan, Matching, RemapNode, Orderly, MatchedExactly, IdSet, OwnedInside, DistinctNames, Named;
    var n := s.nodes[i];
    FirstFacts(s);
    AfterFacts(s);
    if n.id in First(s) {
      MatchedAlike(s.nodes, i, First(s), s.vault, s.children, s.destination);
      x := First(s)[n.id];
    } else {
      var m :| m in s.nodes && m.id !in First(s) && m.parentId == n.parentId
               && Label(m.kind) == Label(n.kind) && m.name == n.name && m.deletedAt.None?;
      var j :| 0 <= j < |s.nodes| && s.nodes[j] == m;
      InsertedPlace(s, j);
      x := m.id;
    }
  }

  lemma {:induction false} InsertedPlace(s: Story, i: nat)
    requires FirstImport(s) && i < |s.nodes|
    ensures var n, m := s.nodes[i], RemapNode(s.nodes[i], First(s));
            m.parentId == Place(s, n) && Label(m.kind) == Label(n.kind) && m.name == n.name && m.deletedAt == n.deletedAt
  {
    hide Legal, Indexed, InsertAll, Plan, Matching, MatchedExactly, IdSet, DistinctNames, Named, MapKind;
    FirstFacts(s);
    ParentIsInside(s.nodes, i, s.destination);
    RemappedLabel(s.nodes[i], First(s));
    assert s.destination.Some? ==> s.destination.value !in First(s);
  }

  lemma RemappedLabel(n: Node, m: IdMap)
    ensures Label(RemapNode(n, m).kind) == Label(n.kind) && RemapNode(n, m).deletedAt == n.deletedAt
  {
  }

  // Landing keeps places apart.

  /** A matched folder lies strictly below the destination. */
  lemma {:induction false} MatchedBelow(s: Story, i: nat)
    requires FirstImport(s) && i < |s.nodes| && s.nodes[i].kind.Folder? && s.nodes[i].id in First(s)
    ensures First(s)[s.nodes[i].id] in s.vault
    ensures Depth(s.vault, First(s)[s.nodes[i].id]) > |Lineage(Parents(s.vault), s.destination)|
    decreases i
  {
    hide Indexed, InsertAll, Plan, Matching, MatchedExactly, IdSet, DistinctNames, Named, Lineage, Rooted, Climb, Alike, AllValid;
    var n := s.nodes[i];
    FirstFacts(s);
    MatchedAlike(s.nodes, i, First(s), s.vault, s.children, s.destination);
    DepthStep(s.vault, First(s)[n.id]);
    if n.parentId != s.destination {
      var j :| 0 <= j < i && n.parentId == Some(s.nodes[j].id) && s.nodes[j].kind.Folder?;
      MatchedBelow(s, j);
    }
  }

  /** Folders that land on the same node are the same folder. */
  lemma {:induction false} LandInjective(s: Story, a: nat, b: nat)
    requires FirstImport(s) && a < |s.nodes| && b < |s.nodes| && s.nodes[a].kind.Folder? && s.nodes[b].kind.Folder?
    requires Land(s, s.nodes[a].id) == Land(s, s.nodes[b].id)
    ensures a == b
    decreases a + b, 1
  {
    hide Indexed, InsertAll, Plan, Matching, MatchedExactly, Legal, ComesAfter, IdSet;
    FirstFacts(s);
    MemberId(s.nodes, a);
    MemberId(s.nodes, b);
    if s.nodes[a].id in First(s) && s.nodes[b].id in First(s) {
      MatchedAlike(s.nodes, a, First(s), s.vault, s.children, s.destination);
      MatchedAlike(s.nodes, b, First(s), s.vault, s.children, s.destination);
      PlaceInjective(s, a, b);
    }
  }

  /** Nodes that land in the same place have the same parent in the import. */
  lemma {:induction false} PlaceInjective(s: Story, a: nat, b: nat)
    requires FirstImport(s) && a < |s.nodes| && b < |s.nodes| && Place(s, s.nodes[a]) == Place(s, s.nodes[b])
    ensures s.nodes[a].parentId == s.nodes[b].parentId
    decreases a + b, 0
  {
    hide Indexed, InsertAll, Plan, Matching, MatchedExactly, Legal, DistinctNames, Named, IdSet;
    FirstFacts(s);
    if s.nodes[a].parentId == s.destination {
      if s.nodes[b].parentId != s.destination {
        OutsideDestination(s, b);
      }
    } else if s.nodes[b].parentId == s.destination {
      OutsideDestination(s, a);
    } else {
      assert ComesAfter(s.nodes, a, s.nodes[a].parentId, true) && ComesAfter(s.nodes, b, s.nodes[b].parentId, true);
      var p :| 0 <= p < a && s.nodes[a].parentId == Some(s.nodes[p].id) && s.nodes[p].kind.Folder?;
      var q :| 0 <= q < b && s.nodes[b].parentId == Some(s.nodes[q].id) && s.nodes[q].kind.Folder?;
      LandInjective(s, p, q);
    }
  }

  /** A node with a parent in the import never lands directly in the destination. */
  lemma {:induction false} OutsideDestination(s: Story, i: nat)
    requires FirstImport(s) && i < |s.nodes| && s.nodes[i].parentId != s.destination
    ensures Place(s, s.nodes[i]) != s.destination
  {
    hide Indexed, InsertAll, Plan, Matching, MatchedExactly, Legal, DistinctNames, Named, IdSet;
    FirstFacts(s);
    assert ComesAfter(s.nodes, i, s.nodes[i].parentId, true);
    var p :| 0 <= p < i && s.nodes[i].parentId == Some(s.nodes[p].id) && s.nodes[p].kind.Folder?;
    MemberId(s.nodes, p);
    if s.nodes[p].id in First(s) {
      MatchedBelow(s, p);
    }
  }

  // The second import, node by node.

  /** The copy of a node matches, and that of a folder, an owner or an owned credential matches where it settles. */
  ghost predicate MatchedAgain(s: Story, i: nat)
    requires i < |s.nodes|
  {
    && s.nodes[i].id in s.renaming && s.renaming[s.nodes[i].id] in Second(s)
    && (Named(s.nodes, s.nodes[i]) || OwnedInside(s.nodes, s.nodes[i]) ==> Settles(s, i) == Some(Second(s)[s.renaming[s.nodes[i].id]]))
  }

  lemma {:induction false} CopyColumns(s: Story, i: nat)
    requires FirstImport(s) && FreshCopy(s) && i < |s.nodes|
    ensures var n, c := s.nodes[i], Copy(s)[i];
            && n.id in s.renaming && c.id == s.renaming[n.id]
            && Label(c.kind) == Label(n.kind) && c.name == n.name
            && (n.kind.Folder? <==> c.kind.Folder?)
            && c.parentId == (if n.parentId == s.destination then s.destination else MapOption(n.parentId, RenameBy(s.renaming)))
            && (n.parentId != s.destination ==> c.parentId != s.destination)
            && AttachedTo(c) == MapOption(AttachedTo(n), RenameBy(s.renaming))
  {
    hide Indexed, InsertAll, Plan, Matching, Legal, DistinctNames, Named, MapKind, Injective, FreshFor, IdSet;
    MemberId(s.nodes, i);
    ParentIsInside(s.nodes, i, s.destination);
    RemappedPlace(s.nodes[i], s.renaming);
    RemappedLabel(s.nodes[i], s.renaming);
    RemappedAttachment(s.nodes[i], s.renaming);
    if s.nodes[i].parentId != s.destination {
      assert s.renaming[s.nodes[i].parentId.value] in s.renaming.Values;
    }
  }

  lemma {:induction false} CopyIds(s: Story)
    requires FirstImport(s) && FreshCopy(s)
    ensures DistinctIds(Copy(s)) && IdSet(Copy(s)) == s.renaming.Values
  {
    hide FirstImport, FreshCopy, RemapNode, DistinctIds, Injective, IdSet;
    RenamingParts(s);
    forall i | 0 <= i < |s.nodes| ensures s.nodes[i].id in s.renaming && Copy(s)[i].id == s.renaming[s.nodes[i].id] {
      CopyColumns(s, i);
    }
    RenamedDistinct(s.nodes, Copy(s), s.renaming);
    RenamedIds(s.nodes, Copy(s), s.renaming);
  }

  lemma RenamedDistinct(nodes: seq<Node>, copy: seq<Node>, m: IdMap)
    requires |copy| == |nodes| && DistinctIds(nodes) && Injective(m)
    requires forall i :: 0 <= i < |nodes| ==> nodes[i].id in m && copy[i].id == m[nodes[i].id]
    ensures DistinctIds(copy)
  {
  }

  lemma {:induction false} RenamedIds(nodes: seq<Node>, copy: seq<Node>, m: IdMap)
    requires |copy| == |nodes| && m.Keys == IdSet(nodes)
    requires forall i :: 0 <= i < |nodes| ==> nodes[i].id in m && copy[i].id == m[nodes[i].id]
    ensures IdSet(copy) == m.Values
  {
    forall y | y in m.Values ensures y in IdSet(copy) {
      var x :| x in m && m[x] == y;
      var n :| n in nodes && n.id == x;
      var i :| 0 <= i < |nodes| && nodes[i] == n;
      MemberId(copy, i);
    }
  }

  lemma RenamingParts(s: Story)
    requires FirstImport(s) && FreshCopy(s)
    ensures DistinctIds(s.nodes) && Injective(s.renaming) && s.renaming.Keys == IdSet(s.nodes)
  {
  }

  lemma {:induction false} CopyOwned(s: Story, i: nat)
    requires FirstImport(s) && FreshCopy(s) && i < |s.nodes|
    ensures OwnedInside(Copy(s), Copy(s)[i]) <==> OwnedInside(s.nodes, s.nodes[i])
    ensures OwnedInside(s.nodes, s.nodes[i]) ==> AttachedTo(Copy(s)[i]) == Some(s.renaming[AttachedTo(s.nodes[i]).value])
  {
    hide Indexed, InsertAll, Plan, Matching, Legal, DistinctNames, Named, RemapNode, Orderly, IdSet, Injective;
    CopyIds(s);
    CopyColumns(s, i);
    assert FreshFor(s.renaming, s.nodes[i]);
    if OwnedInside(s.nodes, s.nodes[i]) {
      assert s.renaming[AttachedTo(s.nodes[i]).value] in s.renaming.Values;
    }
  }

  lemma {:induction false} CopyOrderly(s: Story)
    requires FirstImport(s) && FreshCopy(s)
    ensures Orderly(Copy(s), s.destination)
  {
    hide Indexed, InsertAll, Plan, Matching, Legal, DistinctNames, Named, RemapNode, IdSet, Injective, FreshFor;
    CopyIds(s);
    forall i | 0 <= i < |s.nodes|
      ensures Copy(s)[i].parentId == s.destination || ComesAfter(Copy(s), i, Copy(s)[i].parentId, true)
      ensures OwnedInside(Copy(s), Copy(s)[i]) ==> ComesAfter(Copy(s), i, AttachedTo(Copy(s)[i]), false)
    {
      CopyColumns(s, i);
      CopyOwned(s, i);
      if s.nodes[i].parentId != s.destination {
        CopyComesAfter(s, i, s.nodes[i].parentId, true);
      }
      if OwnedInside(s.nodes, s.nodes[i]) {
        CopyComesAfter(s, i, AttachedTo(s.nodes[i]), false);
      }
    }
  }

  lemma {:induction false} CopyComesAfter(s: Story, i: nat, id: Option<NodeId>, folder: bool)
    requires FirstImport(s) && FreshCopy(s) && i < |s.nodes| && ComesAfter(s.nodes, i, id, folder)
    ensures ComesAfter(Copy(s), i, MapOption(id, RenameBy(s.renaming)), folder)
  {
    hide FirstImport, FreshCopy, RemapNode;
    var j :| 0 <= j < i && id == Some(s.nodes[j].id) && (folder ==> s.nodes[j].kind.Folder?);
    CopyColumns(s, j);
  }

  lemma {:induction false} SecondFacts(s: Story)
    requires FirstImport(s) && FreshCopy(s)
    ensures Orderly(Copy(s), s.destination)
    ensures MatchedExactly(Copy(s), Second(s), s.after, s.afterChildren, s.destination)
    ensures forall x :: x in Second(s) ==> Second(s)[x] in s.after
  {
    hide FirstImport, FreshCopy, MatchedExactly, Matching, Orderly;
    CopyOrderly(s);
    MatchingIsExact(Copy(s), s.after, s.afterChildren, s.destination);
    MatchedInVault(Copy(s), Second(s), s.after, s.afterChildren, s.destination);
  }

  /** The copy looks for its match exactly where the original landed. */
  lemma {:induction false} SamePlace(s: Story, i: nat)
    requires FirstImport(s) && FreshCopy(s) && i < |s.nodes|
    requires forall j :: 0 <= j < i ==> MatchedAgain(s, j)
    ensures PlaceOf(Copy(s)[i], Second(s), s.destination) == Place(s, s.nodes[i])
    ensures Copy(s)[i].parentId == s.destination || (Copy(s)[i].parentId.Some? && Copy(s)[i].parentId.value in Second(s))
  {
    hide Indexed, InsertAll, Plan, Matching, Legal, DistinctNames, Named, RemapNode, IdSet, FreshCopy;
    CopyColumns(s, i);
    if s.nodes[i].parentId != s.destination {
      assert ComesAfter(s.nodes, i, s.nodes[i].parentId, true);
      var j :| 0 <= j < i && s.nodes[i].parentId == Some(s.nodes[j].id) && s.nodes[j].kind.Folder?;
      FolderIsNamed(s.nodes, s.nodes[j]);
      SettlesFree(s, j);
      assert MatchedAgain(s, j);
    }
  }

  /** A like sibling of a folder or an owner, in the place where it landed, is where it landed. */
  lemma {:induction false} OnlyLanding(s: Story, i: nat, x: NodeId)
    requires FirstImport(s) && i < |s.nodes| && Named(s.nodes, s.nodes[i])
    requires x in s.after && s.after[x].parentId == Place(s, s.nodes[i])
    requires Alike(s.after[x], Label(s.nodes[i].kind), s.nodes[i].name)
    requires FirstAlike(s.after, Kids(s.afterChildren, Place(s, s.nodes[i])), Label(s.nodes[i].kind), s.nodes[i].name) == Some(x)
    ensures x == Land(s, s.nodes[i].id)
  {
    hide Indexed, InsertAll, Plan, Matching, Legal, RemapNode, IdSet, MatchedExactly, FirstAlike, OwnedInside, Orderly, DistinctNames, Named;
    AfterFacts(s);
    NamedIsNotOwned(s.nodes, s.nodes[i]);
    if x in s.vault {
      OldLanding(s, i, x);
    } else {
      var d :| d in s.nodes && d.id == x && d.id !in First(s);
      var j :| 0 <= j < |s.nodes| && s.nodes[j] == d;
      InsertedPlace(s, j);
      PlaceInjective(s, i, j);
      SameNamed(s.nodes, i, j);
    }
  }

  lemma SameNamed(nodes: seq<Node>, i: nat, j: nat)
    requires DistinctNames(nodes) && i < |nodes| && j < |nodes| && nodes[i].parentId == nodes[j].parentId && Named(nodes, nodes[i])
    requires Label(nodes[i].kind) == Label(nodes[j].kind) && nodes[i].name == nodes[j].name
    ensures i == j
  {
  }

  lemma NamedIsNotOwned(nodes: seq<Node>, n: Node)
    requires Named(nodes, n)
    ensures !OwnedInside(nodes, n)
  {
  }

  /** The match the copy finds among the old nodes is the one the original found. */
  lemma {:induction false} OldLanding(s: Story, i: nat, x: NodeId)
    requires FirstImport(s) && i < |s.nodes| && !OwnedInside(s.nodes, s.nodes[i]) && x in s.vault && x in s.after
    requires s.after[x].parentId == Place(s, s.nodes[i]) && Alike(s.after[x], Label(s.nodes[i].kind), s.nodes[i].name)
    requires FirstAlike(s.after, Kids(s.afterChildren, Place(s, s.nodes[i])), Label(s.nodes[i].kind), s.nodes[i].name) == Some(x)
    ensures s.nodes[i].id in First(s) && x == Land(s, s.nodes[i].id)
  {
    hide InsertAll, Plan, Matching, RemapNode, IdSet, MatchedExactly, FirstAlike, OwnedInside, DistinctNames, Named, Alike, Indexed, AllValid, Keyed, Grounded;
    var n, place := s.nodes[i], Place(s, s.nodes[i]);
    FirstFacts(s);
    AfterFacts(s);
    assert HeldByFolder(s.vault, x);
    ParentIsInside(s.nodes, i, s.destination);
    SiblingMatch(s.nodes, i, First(s), s.vault, s.children, s.destination);
    SiblingFound(s.vault, Kids(s.children, place), Label(n.kind), n.name);
    KidsExact(s.vault, s.children, place);
    var y := First(s)[n.id];
    FirstIsLeast(s.vault, Kids(s.children, place), Label(n.kind), n.name, x);
    KidsExact(s.after, s.afterChildren, place);
    FirstIsLeast(s.after, Kids(s.afterChildren, place), Label(n.kind), n.name, y);
  }

  lemma {:induction false} FirstIsLeast(vault: Forest, ids: seq<NodeId>, kind: string, name: string, x: NodeId)
    requires Sorted(vault, ids) && x in ids && x in vault && Alike(vault[x], kind, name)
    ensures FirstAlike(vault, ids, kind, name).Some?
    ensures FirstAlike(vault, ids, kind, name).value == x || Before(vault, FirstAlike(vault, ids, kind, name).value, x)
  {
    hide Alike;
    TailElements(vault, ids);
    if !Alike(vault[ids[0]], kind, name) {
      FirstIsLeast(vault, ids[1..], kind, name, x);
    } else if x != ids[0] {
      assert x in ids[1..];
    }
  }

  /** Where a copy that matches finds its match. */
  lemma {:induction false} SiblingPlace(s: Story, i: nat)
    requires FirstImport(s) && FreshCopy(s) && i < |s.nodes| && !OwnedInside(s.nodes, s.nodes[i])
    requires forall j :: 0 <= j < i ==> MatchedAgain(s, j)
    ensures var n, c := s.nodes[i], Copy(s)[i];
            var found := FirstAlike(s.after, Kids(s.afterChildren, Place(s, n)), Label(n.kind), n.name);
            && n.id in s.renaming && c.id == s.renaming[n.id] && Lookup(Second(s), c.id) == found
            && (found.Some? ==> found.value in s.after && s.after[found.value].parentId == Place(s, n)
                                && Alike(s.after[found.value], Label(n.kind), n.name))
  {
    hide Indexed, InsertAll, Plan, Matching, Legal, DistinctNames, Named, RemapNode, IdSet, MatchedExactly, FirstAlike, OwnedInside, Alike, Orderly, PlaceOf;
    var n, place := s.nodes[i], Place(s, s.nodes[i]);
    CopyColumns(s, i);
    CopyOwned(s, i);
    SecondFacts(s);
    SamePlace(s, i);
    SiblingMatch(Copy(s), i, Second(s), s.after, s.afterChildren, s.destination);
    KidsExact(s.after, s.afterChildren, place);
    SiblingFound(s.after, Kids(s.afterChildren, place), Label(n.kind), n.name);
  }

  /** A copy that matches does so as the argument needs it. */
  lemma {:induction false} SiblingKept(s: Story, i: nat)
    requires FirstImport(s) && FreshCopy(s) && i < |s.nodes| && !OwnedInside(s.nodes, s.nodes[i])
    requires (forall j :: 0 <= j < i ==> MatchedAgain(s, j)) && Copy(s)[i].id in Second(s)
    ensures MatchedAgain(s, i)
    ensures s.nodes[i].id in First(s) || LiveTwin(s, s.nodes[i])
  {
    hide FirstImport, FreshCopy, Matching, Named, RemapNode, FirstAlike, OwnedInside, Alike, PlaceOf, LiveTwin;
    var n, x := s.nodes[i], Second(s)[Copy(s)[i].id];
    SiblingPlace(s, i);
    SettlesFree(s, i);
    if Named(s.nodes, n) {
      OnlyLanding(s, i, x);
    }
    TwinFound(s, i, x);
  }

  /** The match of a copy is an old node the original matched, too, or one that was inserted live. */
  lemma {:induction false} TwinFound(s: Story, i: nat, x: NodeId)
    requires FirstImport(s) && i < |s.nodes| && !OwnedInside(s.nodes, s.nodes[i])
    requires x in s.after && s.after[x].parentId == Place(s, s.nodes[i])
    requires Alike(s.after[x], Label(s.nodes[i].kind), s.nodes[i].name)
    requires FirstAlike(s.after, Kids(s.afterChildren, Place(s, s.nodes[i])), Label(s.nodes[i].kind), s.nodes[i].name) == Some(x)
    ensures s.nodes[i].id in First(s) || LiveTwin(s, s.nodes[i])
  {
    hide Indexed, InsertAll, Plan, Matching, Legal, RemapNode, IdSet, MatchedExactly, FirstAlike, OwnedInside, Orderly, DistinctNames, Named;
    AfterFacts(s);
    if x in s.vault {
      OldLanding(s, i, x);
    } else {
      var d :| d in s.nodes && d.id == x && d.id !in First(s);
      var j :| 0 <= j < |s.nodes| && s.nodes[j] == d;
      InsertedPlace(s, j);
      PlaceInjective(s, i, j);
    }
  }

  lemma {:induction false} SiblingAgain(s: Story, i: nat)
    requires FirstImport(s) && FreshCopy(s) && i < |s.nodes| && !OwnedInside(s.nodes, s.nodes[i])
    requires s.nodes[i].id in First(s) || LiveTwin(s, s.nodes[i])
    requires forall j :: 0 <= j < i ==> MatchedAgain(s, j)
    ensures MatchedAgain(s, i)
  {
    hide FreshCopy, InsertAll, Indexed, Plan, Legal, DistinctNames, Orderly, Matching, Named, RemapNode, OwnedInside, Alike, PlaceOf, LiveTwin, FirstAlike;
    var n, place := s.nodes[i], Place(s, s.nodes[i]);
    var x := Standing(s, i);
    SiblingPlace(s, i);
    KidsExact(s.after, s.afterChildren, place);
    SiblingFound(s.after, Kids(s.afterChildren, place), Label(n.kind), n.name);
    SiblingKept(s, i);
  }

  /** A connection's imported credential is attached, afterwards, to where the connection landed. */
  lemma {:induction false} OwnedLanding(s: Story, i: nat) returns (x: NodeId)
    requires FirstImport(s) && i < |s.nodes| && OwnedInside(s.nodes, s.nodes[i])
    ensures x in s.after && BelongsTo(s.after[x], Land(s, AttachedTo(s.nodes[i]).value))
  {
    hide Indexed, InsertAll, Plan, Matching, Legal, DistinctNames, Named, IdSet, FirstAlike, Alike, Orderly, MapKind;
    var n, owner := s.nodes[i], AttachedTo(s.nodes[i]).value;
    FirstFacts(s);
    AfterFacts(s);
    if n.id in First(s) {
      x := First(s)[n.id];
      var c := CandidateOf(n, s.destination);
      assert Lookup(First(s), n.id) == MatchOf(c, IdSet(s.nodes), First(s), s.vault, s.children, s.destination);
      assert owner in First(s) && FirstAttached(s.vault, First(s)[owner]) == Some(x);
    } else {
      x := n.id;
      RemappedAttachment(n, First(s));
    }
  }

  lemma {:induction false} FirstAttachedExists(vault: Forest, owner: NodeId, x: NodeId)
    requires x in vault && BelongsTo(vault[x], owner)
    ensures FirstAttached(vault, owner).Some?
    decreases x
  {
    hide BelongsTo;
    if y :| y in vault && BelongsTo(vault[y], owner) && y < x {
      FirstAttachedExists(vault, owner, y);
    }
  }

  lemma SettlesFree(s: Story, i: nat)
    requires i < |s.nodes| && !OwnedInside(s.nodes, s.nodes[i])
    ensures Settles(s, i) == Some(Land(s, s.nodes[i].id))
  {
    hide OwnedInside, First;
  }

  lemma {:induction false} SettlesOwned(s: Story, i: nat, j: nat)
    requires DistinctIds(s.nodes) && j < i < |s.nodes| && OwnedInside(s.nodes, s.nodes[i]) && AttachedTo(s.nodes[i]) == Some(s.nodes[j].id)
    ensures Settles(s, i) == match Settles(s, j) case None => None case Some(owner) => FirstAttached(s.after, owner)
  {
    hide OwnedInside, First, FirstAttached;
    assert forall k :: 0 <= k < i && AttachedTo(s.nodes[i]) == Some(s.nodes[k].id) ==> k == j;
  }

  /** The copy of an owned credential matches where it settles, if anywhere. */
  lemma {:induction false} OwnedPlace(s: Story, i: nat)
    requires FirstImport(s) && FreshCopy(s) && i < |s.nodes| && OwnedInside(s.nodes, s.nodes[i])
    requires forall j :: 0 <= j < i ==> MatchedAgain(s, j)
    ensures s.nodes[i].id in s.renaming && Copy(s)[i].id == s.renaming[s.nodes[i].id]
    ensures Lookup(Second(s), Copy(s)[i].id) == Settles(s, i)
  {
    hide Indexed, InsertAll, Plan, Matching, Legal, DistinctNames, Named, RemapNode, IdSet, MatchedExactly, FirstAlike, FirstAttached, OwnedInside, Settles, DistinctIds;
    CopyColumns(s, i);
    CopyOwned(s, i);
    SecondFacts(s);
    SamePlace(s, i);
    assert ComesAfter(s.nodes, i, AttachedTo(s.nodes[i]), false);
    var j :| 0 <= j < i && AttachedTo(s.nodes[i]) == Some(s.nodes[j].id);
    OwnerIsPinned(s.nodes, i, j);
    assert MatchedAgain(s, j);
    SettlesOwned(s, i, j);
    OwnedMatch(Copy(s), i, Second(s), s.after, s.afterChildren, s.destination);
  }

  /** With owners that have no owner themselves, every credential settles. */
  lemma {:induction false} FreeOwnersSettle(s: Story)
    requires FirstImport(s) && OwnersAreFree(s.nodes)
    ensures OwnedSettle(s)
  {
    hide Indexed, InsertAll, Plan, Matching, Legal, DistinctNames, Named, IdSet, FirstAttached, OwnedInside, Settles, DistinctIds;
    forall i | 0 <= i < |s.nodes| && OwnedInside(s.nodes, s.nodes[i]) ensures Settles(s, i).Some? {
      assert ComesAfter(s.nodes, i, AttachedTo(s.nodes[i]), false);
      var j :| 0 <= j < i && AttachedTo(s.nodes[i]) == Some(s.nodes[j].id);
      assert s.nodes[i] in s.nodes && s.nodes[j] in s.nodes;
      SettlesOwned(s, i, j);
      SettlesFree(s, j);
      var x := OwnedLanding(s, i);
      FirstAttachedExists(s.after, Land(s, s.nodes[j].id), x);
    }
  }

  lemma OwnerIsPinned(nodes: seq<Node>, i: nat, j: nat)
    requires i < |nodes| && j < |nodes| && AttachedTo(nodes[i]) == Some(nodes[j].id)
    ensures Named(nodes, nodes[j]) || OwnedInside(nodes, nodes[j])
  {
    hide OwnedInside;
    assert nodes[i] in nodes && nodes[j] in nodes;
  }

  lemma FolderIsNamed(nodes: seq<Node>, n: Node)
    requires n.kind.Folder?
    ensures Named(nodes, n)
  {
  }

  lemma MatchedOwned(s: Story, i: nat)
    requires i < |s.nodes| && OwnedInside(s.nodes, s.nodes[i]) && s.nodes[i].id in s.renaming
    requires Settles(s, i).Some? && Lookup(Second(s), s.renaming[s.nodes[i].id]) == Settles(s, i)
    ensures MatchedAgain(s, i)
  {
    hide Matching, Settles;
  }

  lemma {:induction false} AllMatchAgain(s: Story, k: nat)
    requires FirstImport(s) && FreshCopy(s) && DeletedHaveTwins(s) && OwnedSettle(s) && k <= |s.nodes|
    ensures forall i :: 0 <= i < k ==> MatchedAgain(s, i)
    decreases k
  {
    hide FirstImport, FreshCopy, OwnedInside, MatchedAgain, LiveTwin, Matching, Settles;
    if k > 0 {
      AllMatchAgain(s, k - 1);
      assert s.nodes[k - 1] in s.nodes;
      if OwnedInside(s.nodes, s.nodes[k - 1]) {
        OwnedPlace(s, k - 1);
        MatchedOwned(s, k - 1);
      } else {
        SiblingAgain(s, k - 1);
      }
    }
  }

  /** If every copy matches, whatever was inserted deleted has a live twin and every owned credential settles. */
  lemma {:induction false} TwinsNeeded(s: Story, k: nat)
    requires FirstImport(s) && FreshCopy(s) && k <= |s.nodes|
    requires forall i :: 0 <= i < |s.nodes| ==> Copy(s)[i].id in Second(s)
    ensures forall i :: 0 <= i < k ==> MatchedAgain(s, i)
    ensures forall i :: 0 <= i < k && !OwnedInside(s.nodes, s.nodes[i]) ==> s.nodes[i].id in First(s) || LiveTwin(s, s.nodes[i])
    ensures forall i :: 0 <= i < k && OwnedInside(s.nodes, s.nodes[i]) ==> Settles(s, i).Some?
    decreases k
  {
    hide FirstImport, FreshCopy, OwnedInside, MatchedAgain, LiveTwin, Matching, RemapNode, Settles;
    if k > 0 {
      TwinsNeeded(s, k - 1);
      if OwnedInside(s.nodes, s.nodes[k - 1]) {
        OwnedPlace(s, k - 1);
        MatchedOwned(s, k - 1);
      } else {
        SiblingKept(s, k - 1);
      }
    }
  }

  /** Under "skip" and "replace" the copies that do not match are what is inserted. */
  lemma {:induction false} NothingLeft(s: Story, policy: ConflictPolicy)
    requires FirstImport(s) && FreshCopy(s) && !policy.KeepBoth?
    ensures Remapped(Plan(Copy(s), Second(s), s.after, policy)).inserts == [] <==>
            forall i :: 0 <= i < |s.nodes| ==> Copy(s)[i].id in Second(s)
  {
    hide FirstImport, FreshCopy, Plan, Matching, FateOf, RemapNode;
    SecondFacts(s);
    PlanMembers(Copy(s), Second(s), s.after, policy);
    var inserts := Plan(Copy(s), Second(s), s.after, policy).inserts;
    assert Remapped(Plan(Copy(s), Second(s), s.after, policy)).inserts == [] <==> inserts == [];
    forall n | n in Copy(s) ensures n in inserts <==> n.id !in Second(s) {
      SkipNeverInserts(n, Second(s), s.after, policy);
    }
    HeadIsMember(inserts);
    assert forall i :: 0 <= i < |s.nodes| ==> Copy(s)[i] in Copy(s);
  }

  /**
   Importing twice: once an import has been committed under "skip", resolving a freshly renamed copy of it
   at the same destination, under "skip" or "replace", leaves nothing to insert exactly when whatever was
   inserted already marked deleted has a live twin beside it and every owned credential settles.
   */
  lemma {:induction false} ImportingTwiceAddsNothing(s: Story, policy: ConflictPolicy)
    requires FirstImport(s) && FreshCopy(s) && !policy.KeepBoth?
    ensures Remapped(Plan(Copy(s), Second(s), s.after, policy)).inserts == [] <==> DeletedHaveTwins(s) && OwnedSettle(s)
    ensures (forall n :: n in s.nodes ==> n.deletedAt.None?) ==> DeletedHaveTwins(s)
    ensures OwnersAreFree(s.nodes) ==> OwnedSettle(s)
  {
    hide FirstImport, FreshCopy, Plan, Matching, OwnedInside, OwnersAreFree, RemapNode, Settles;
    NothingLeft(s, policy);
    if DeletedHaveTwins(s) && OwnedSettle(s) {
      AllMatchAgain(s, |s.nodes|);
      forall i | 0 <= i < |s.nodes| ensures Copy(s)[i].id in Second(s) {
        CopyColumns(s, i);
        assert MatchedAgain(s, i);
      }
    }
    if forall i :: 0 <= i < |s.nodes| ==> Copy(s)[i].id in Second(s) {
      TwinsNeeded(s, |s.nodes|);
    }
    if OwnersAreFree(s.nodes) {
      FreeOwnersSettle(s);
    }
  }

  // What the program imports: grafted nodes and converted previews, none of them marked deleted.

  /** A graft's output, imported twice: only credentials of owned credentials can come back, so none if connections own them all. */
  lemma {:induction false} GraftingTwice(s: Story, kept: seq<Node>, soil: Soil, sort: int, policy: ConflictPolicy)
    requires FirstImport(s) && FreshCopy(s) && !policy.KeepBoth? && multiset(s.nodes) == multiset(PlantAll(kept, soil, sort))
    ensures Remapped(Plan(Copy(s), Second(s), s.after, policy)).inserts == [] <==> OwnedSettle(s)
    ensures OwnedByConnections(s.nodes) ==> Remapped(Plan(Copy(s), Second(s), s.after, policy)).inserts == []
  {
    hide FirstImport, FreshCopy, Plan, Matching, OwnedSettle, DeletedHaveTwins, OwnersAreFree, OwnedByConnections, PlantAll, RemapNode;
    forall n | n in s.nodes ensures n.deletedAt.None? {
      assert n in multiset(s.nodes);
      assert n in PlantAll(kept, soil, sort);
      PlantedLive(kept, soil, sort);
    }
    if OwnedByConnections(s.nodes) {
      ConnectionsAreFree(s.nodes);
    }
    ImportingTwiceAddsNothing(s, policy);
  }

  lemma {:induction false} PlantedLive(kept: seq<Node>, soil: Soil, sort: int)
    ensures forall n :: n in PlantAll(kept, soil, sort) ==> n.deletedAt.None?
    decreases |kept|
  {
    if kept != [] {
      PlantedLive(kept[1..], soil, NextSort(kept[0], soil, sort));
    }
  }

  ghost predicate FromPreview(n: Node) {
    exists p, now, sealedSecret :: Previews.IntoNode(p, now, sealedSecret) == Ok(n)
  }

  /** A converted preview, imported twice, adds nothing the second time. */
  lemma {:induction false} ConvertingTwice(s: Story, policy: ConflictPolicy)
    requires FirstImport(s) && FreshCopy(s) && !policy.KeepBoth? && forall n :: n in s.nodes ==> FromPreview(n)
    ensures Remapped(Plan(Copy(s), Second(s), s.after, policy)).inserts == []
  {
    hide FirstImport, FreshCopy, Plan, Matching, OwnedSettle, DeletedHaveTwins, RemapNode, FromPreview, OwnedInside;
    forall n | n in s.nodes ensures n.deletedAt.None? && AttachedTo(n).None? {
      PreviewedShared(n);
    }
    assert OwnersAreFree(s.nodes);
    ImportingTwiceAddsNothing(s, policy);
  }

  lemma PreviewedShared(n: Node)
    requires FromPreview(n)
    ensures n.deletedAt.None? && AttachedTo(n).None?
  {
    hide ValidateNode;
  }

  // Why the conditions are there. Imports into an empty vault: everything is inserted as it is.

  lemma {:induction false} NothingToMatch(nodes: seq<Node>, k: nat)
    requires k <= |nodes|
    ensures MatchUpTo(CandidatesOf(nodes, None), k, map[], map[], None) == map[]
    decreases k
  {
    if k > 0 {
      NothingToMatch(nodes, k - 1);
    }
  }

  lemma {:induction false} AllInserted(nodes: seq<Node>)
    ensures Plan(nodes, map[], map[], Skip).inserts == nodes && Plan(nodes, map[], map[], Skip).ids == map[]
  {
    if nodes != [] {
      var rest, n := nodes[..|nodes| - 1], nodes[|nodes| - 1];
      AllInserted(rest);
      assert nodes == rest + [n];
    }
  }

  /** An import into an empty vault, and the copy it comes back as. */
  function Opening(nodes: seq<Node>, after: Forest, ids: seq<NodeId>, renaming: IdMap): Story {
    Story(nodes, None, map[], map[], after, map[None := ids], renaming)
  }

  lemma {:induction false} OpeningInserts(s: Story)
    requires s.vault == map[] && s.children == map[] && s.destination == None && forall n :: n in s.nodes ==> References(n) == []
    ensures First(s) == map[] && Remapped(Plan1(s)).inserts == s.nodes
  {
    hide RemapNode, Plan;
    NothingToMatch(s.nodes, |s.nodes|);
    AllInserted(s.nodes);
    forall i | 0 <= i < |s.nodes| ensures Remapped(Plan1(s)).inserts[i] == s.nodes[i] {
      assert s.nodes[i] in s.nodes;
      RemapByNothing(s.nodes[i]);
    }
  }

  // A node handed to `resolve` already marked deleted; `graft` and `into_node` clear the mark.

  function Gone(): Node {
    Runs.Sample(1, None, Separator).(deletedAt := Some(0))
  }

  function Return(): Story {
    Opening([Gone()], map[1 := Gone()], [1], map[1 := 2])
  }

  lemma {:induction false} GoneStored()
    ensures Legal(map[]) && InsertAll(map[], [Gone()]) == Ok(map[1 := Gone()])
  {
    hide ValidateNode, ValidateKind;
    Runs.NothingIsLegal();
    Runs.SampleKinds();
    Runs.SampleValid(1, None, Separator);
    Deletions.DeletedValid(Runs.Sample(1, None, Separator), 0);
    assert InsertError(map[], Gone()).None?;
    assert [Gone()][1..] == [];
  }

  lemma GoneIndexed()
    ensures Indexed(map[], map[]) && Indexed(map[1 := Gone()], map[None := [1]])
  {
  }

  lemma {:induction false} ReturnHappens()
    ensures FirstImport(Return()) && FreshCopy(Return()) && First(Return()) == map[]
  {
    hide Matching, Plan, Legal, InsertAll, RemapNode, Indexed;
    var s := Return();
    OpeningInserts(s);
    GoneStored();
    GoneIndexed();
    assert s.nodes[0] == Gone() && IdSet(s.nodes) == {1};
    assert s.renaming.Keys == {1} && s.renaming.Values == {2} && s.after.Keys == {1};
  }

  /** A node marked deleted when `resolve` is called is inserted by every import of it. */
  lemma {:induction false} MarkedComesBack(policy: ConflictPolicy)
    requires !policy.KeepBoth?
    ensures var s := Return();
            FirstImport(s) && FreshCopy(s) && Remapped(Plan(Copy(s), Second(s), s.after, policy)).inserts != []
  {
    hide Matching, Plan, RemapNode, FirstImport, FreshCopy, OwnedSettle;
    var s := Return();
    ReturnHappens();
    ImportingTwiceAddsNothing(s, policy);
    assert s.nodes[0] == Gone() && !LiveTwin(s, Gone());
  }

  // A credential of one of two credentials with the same owner.

  /** A credential attached to `owner`. */
  function Key(id: NodeId, owner: NodeId): Node {
    Runs.Sample(id, None, Credential(CredentialProps(Some(owner), "u", None, Agent(None), None, None, [])))
  }

  function Bunch(): seq<Node> {
    [Runs.Sample(1, None, Separator), Key(2, 1), Key(3, 1), Key(4, 3)]
  }

  function BunchForest(): Forest {
    map[][1 := Bunch()[0]][2 := Bunch()[1]][3 := Bunch()[2]][4 := Bunch()[3]]
  }

  function Keys(): Story {
    Opening(Bunch(), BunchForest(), [1, 2, 3, 4], map[][1 := 11][2 := 12][3 := 13][4 := 14])
  }

  lemma KeyValid(id: NodeId, owner: NodeId)
    ensures ValidateNode(Key(id, owner)).None? && References(Key(id, owner)) == []
  {
    hide ValidateNode;
    assert ValidateKind(Key(id, owner).kind).None?;
    Runs.SampleValid(id, None, Key(id, owner).kind);
  }

  /** Nodes at the top with new ids go in. */
  lemma {:induction false} TopInserts(nodes: Forest, batch: seq<Node>)
    requires batch != [] && ValidateNode(batch[0]).None? && batch[0].id !in nodes && batch[0].parentId.None?
    ensures InsertAll(nodes, batch) == InsertAll(nodes[batch[0].id := batch[0]], batch[1..])
  {
    hide ValidateNode;
  }

  lemma {:induction false} BunchStored()
    ensures Legal(map[]) && InsertAll(map[], Bunch()) == Ok(BunchForest())
  {
    hide ValidateNode, ValidateKind, Legal, InsertAll, Key, Runs.Sample;
    var b := Bunch();
    Runs.NothingIsLegal();
    BunchValid();
    assert b[1..] == [b[1], b[2], b[3]] && b[1..][1..] == [b[2], b[3]] && b[1..][1..][1..] == [b[3]] && b[1..][1..][1..][1..] == [];
    var f1 := map[][1 := b[0]];
    TopInserts(map[], b);
    TopInserts(f1, b[1..]);
    TopInserts(f1[2 := b[1]], b[1..][1..]);
    TopInserts(f1[2 := b[1]][3 := b[2]], b[1..][1..][1..]);
    assert InsertAll(BunchForest(), []) == Ok(BunchForest()) by { NoMoreInserts(BunchForest()); }
  }

  lemma NoMoreInserts(nodes: Forest)
    ensures InsertAll(nodes, []) == Ok(nodes)
  {
  }

  lemma {:induction false} BunchValid()
    ensures forall i :: 0 <= i < 4 ==>
              ValidateNode(Bunch()[i]).None? && References(Bunch()[i]) == [] && Bunch()[i].id == i + 1
              && Bunch()[i].parentId == None && Bunch()[i].deletedAt == None && Bunch()[i].sortOrder == 0
    ensures !Bunch()[0].kind.Credential? && !Bunch()[0].kind.Folder? && AttachedTo(Bunch()[0]) == None
    ensures forall i :: 1 <= i < 4 ==> Bunch()[i].kind.Credential? && AttachedTo(Bunch()[i]) == Some(if i == 3 then 3 else 1)
  {
    hide ValidateNode, ValidateKind;
    Runs.SampleKinds();
    Runs.SampleValid(1, None, Separator);
    KeyValid(2, 1);
    KeyValid(3, 1);
    KeyValid(4, 3);
  }

  lemma {:induction false} BunchIndexed()
    ensures Indexed(map[], map[]) && Indexed(BunchForest(), map[None := [1, 2, 3, 4]])
  {
    hide Key, Runs.Sample, ValidateNode, IdSet, DistinctIds;
    BunchValid();
    BunchIds();
  }

  lemma {:induction false} BunchIds()
    ensures IdSet(Bunch()) == {1, 2, 3, 4} && DistinctIds(Bunch())
    ensures BunchForest().Keys == {1, 2, 3, 4}
  {
    hide Key, Runs.Sample, ValidateNode;
    var b := Bunch();
    BunchValid();
    assert b[0] in b && b[1] in b && b[2] in b && b[3] in b;
    assert forall n :: n in b ==> n.id in {1, 2, 3, 4};
  }

  lemma {:induction false} BunchOrderly()
    ensures Orderly(Bunch(), None) && DistinctNames(Bunch())
  {
    hide Key, Runs.Sample, ValidateNode, IdSet, DistinctIds;
    var b := Bunch();
    BunchValid();
    BunchIds();
    forall i | 0 <= i < |b| && OwnedInside(b, b[i]) ensures ComesAfter(b, i, AttachedTo(b[i]), false) {
      assert AttachedTo(b[i]) == Some(b[if i == 3 then 2 else 0].id);
    }
    forall i | 0 <= i < |b| && Named(b, b[i]) ensures i == 0 {
    }
  }

  lemma {:induction false} KeysFresh()
    ensures FreshCopy(Keys())
  {
    hide Key, Runs.Sample, ValidateNode, IdSet, DistinctIds, BunchForest, Bunch;
    var s := Keys();
    BunchIds();
    assert s.renaming.Keys == {1, 2, 3, 4} && s.renaming.Values == {11, 12, 13, 14};
    forall n | n in s.nodes ensures FreshFor(s.renaming, n) {
      BunchMember(n);
    }
  }

  lemma BunchMember(n: Node)
    requires n in Bunch()
    ensures References(n) == [] && (AttachedTo(n).Some? ==> AttachedTo(n).value in {1, 3}) && n.deletedAt.None?
  {
    hide Key, Runs.Sample, ValidateNode;
    BunchValid();
  }

  lemma {:induction false} KeysHappen()
    ensures FirstImport(Keys()) && FreshCopy(Keys()) && First(Keys()) == map[]
  {
    hide Matching, Plan, Legal, InsertAll, RemapNode, Indexed, Key, Runs.Sample, ValidateNode, BunchForest, Bunch, IdSet, Orderly, DistinctNames, FreshCopy;
    var s := Keys();
    forall n | n in s.nodes ensures References(n) == [] {
      BunchMember(n);
    }
    OpeningInserts(s);
    BunchStored();
    BunchIndexed();
    BunchOrderly();
    BunchIds();
    KeysFresh();
  }

  lemma {:induction false} KeysUnsettled()
    requires First(Keys()) == map[]
    ensures !OwnedSettle(Keys())
  {
    hide First, Settles, Key, Runs.Sample, ValidateNode, FirstAttached;
    var s := Keys();
    BunchValid();
    BunchIds();
    SettlesFree(s, 0);
    SettlesOwned(s, 2, 0);
    SettlesOwned(s, 3, 2);
    BunchAttached();
  }

  lemma {:induction false} BunchAttached()
    ensures FirstAttached(BunchForest(), 1) == Some(2) && FirstAttached(BunchForest(), 2) == None
  {
    hide Key, Runs.Sample, ValidateNode, IdSet, DistinctIds;
    BunchValid();
    BunchIds();
    var f := BunchForest();
    assert BelongsTo(f[2], 1);
  }

  /** The two credentials are taken for one, and what belonged to the other is inserted again. */
  lemma {:induction false} OwnedComesBack(policy: ConflictPolicy)
    requires !policy.KeepBoth?
    ensures var s := Keys();
            && FirstImport(s) && FreshCopy(s) && (forall n :: n in s.nodes ==> n.deletedAt.None?)
            && Remapped(Plan(Copy(s), Second(s), s.after, policy)).inserts != []
  {
    hide Matching, Plan, RemapNode, FirstImport, FreshCopy, OwnedSettle, Key, Runs.Sample, ValidateNode, DeletedHaveTwins, OwnedInside, OwnersAreFree, Bunch;
    var s := Keys();
    KeysHappen();
    forall n | n in s.nodes ensures n.deletedAt.None? {
      BunchMember(n);
    }
    KeysUnsettled();
    ImportingTwiceAddsNothing(s, policy);
  }

  lemma HeadIsMember(nodes: seq<Node>)
    ensures nodes != [] ==> nodes[0] in nodes
  {
  }
}
