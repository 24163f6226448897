/** The owned node tree: a node map and its children index, kept in step (crates/remoter-core/src/tree.rs). */
module Trees {
  import opened Base
  import opened Inheritance
  import opened Nodes
  import opened Validation
  import opened Lineages
  import opened Forests
  import opened SiblingIndex
  import opened Walks
  import opened Loops
  import opened Resolution
  import opened Moves
  import opened Deletions

  /** What an operation reports: ids added, rewritten and marked deleted, and ids that may resolve differently. */
  datatype TreePatch = TreePatch(
    inserted: seq<NodeId>,
    updated: seq<NodeId>,
    tombstoned: seq<NodeId>,
    resolutionChanged: seq<NodeId>)

  type Outcome = Result<TreePatch, CoreError>

  // Loading.

  function ForestOf(input: seq<Node>): Forest {
    if input == [] then map[] else ForestOf(input[..|input| - 1])[input[|input| - 1].id := input[|input| - 1]]
  }

  ghost predicate DistinctIds(input: seq<Node>) {
    forall i, j :: 0 <= i < j < |input| ==> input[i].id != input[j].id
  }

  lemma {:induction false} ForestOfMembers(input: seq<Node>)
    ensures forall n :: n in input ==> n.id in ForestOf(input)
    ensures forall id :: id in ForestOf(input) ==> ForestOf(input)[id] in input && ForestOf(input)[id].id == id
    ensures DistinctIds(input) ==> forall n :: n in input ==> ForestOf(input)[n.id] == n
  {
    hide DistinctIds;
    if input != [] {
      var rest, last := input[..|input| - 1], input[|input| - 1];
      ForestOfMembers(rest);
      LastIsDistinct(input);
      assert input == rest + [last];
    }
  }

  lemma LastIsDistinct(input: seq<Node>)
    requires input != []
    ensures var rest, last := input[..|input| - 1], input[|input| - 1];
            DistinctIds(input) ==> DistinctIds(rest) && forall n :: n in rest ==> n.id != last.id
  {
    var rest := input[..|input| - 1];
    assert forall i :: 0 <= i < |rest| ==> rest[i] == input[i];
  }

  /** Each way loading can fail is a fault of the input. */
  ghost predicate LoadFault(input: seq<Node>, e: CoreError) {
    var nodes := ForestOf(input);
    match e
    case Invalid(error) => exists n :: n in input && ValidateNode(n) == Some(error)
    case DuplicateNodeId(id) => exists i, j :: 0 <= i < j < |input| && input[i].id == input[j].id == id
    case ParentNotFound(p) => p !in nodes && exists x :: x in nodes && nodes[x].parentId == Some(p)
    case NotAContainer(p) => p in nodes && !nodes[p].kind.Folder? && exists x :: x in nodes && nodes[x].parentId == Some(p)
    case CorruptTree => exists x :: x in nodes && Cyclic(Parents(nodes), nodes[x].parentId)
    case DepthExceeded(d) => d > MAX_TREE_DEPTH && exists x :: x in nodes && Rooted(Parents(nodes), Some(x)) && Depth(nodes, x) == d
    case _ => false
  }

  /** A fault and a legal load exclude each other. */
  lemma {:induction false} LoadFaultRefutes(input: seq<Node>, e: CoreError)
    requires LoadFault(input, e) && DistinctIds(input)
    ensures !Legal(ForestOf(input))
  {
    hide ValidateNode, Lineage, Rooted, Climb, ForestOf;
    var nodes := ForestOf(input);
    ForestOfMembers(input);
    match e
    case Invalid(error) =>
      var n :| n in input && ValidateNode(n) == Some(error);
      assert ValidateNode(nodes[n.id]) == Some(error);
    case ParentNotFound(p) =>
      var x :| x in nodes && nodes[x].parentId == Some(p);
      assert !HeldByFolder(nodes, x);
    case NotAContainer(p) =>
      var x :| x in nodes && nodes[x].parentId == Some(p);
      assert !HeldByFolder(nodes, x);
    case CorruptTree =>
      var x :| x in nodes && Cyclic(Parents(nodes), nodes[x].parentId);
      CyclicIsNotRooted(Parents(nodes), nodes[x].parentId);
      LineageStep(Parents(nodes), x);
      assert !Placed(nodes, x);
    case DepthExceeded(d) =>
      var x :| x in nodes && Rooted(Parents(nodes), Some(x)) && Depth(nodes, x) == d;
      assert !Placed(nodes, x);
    case _ =>
  }

  method LoadNodes(input: seq<Node>) returns (r: Result<Forest, CoreError>)
    ensures r.Ok? ==> r.value == ForestOf(input) && DistinctIds(input) && Keyed(r.value) && AllValid(r.value)
    ensures r.Err? ==> LoadFault(input, r.error)
  {
    hide ValidateNode, AllValid, ForestOf, DistinctIds;
    var nodes: Forest := map[];
    NoNodes();
    for i := 0 to |input|
      invariant nodes == ForestOf(input[..i]) && DistinctIds(input[..i]) && AllValid(nodes)
    {
      var n := input[i];
      var verdict := ValidateNode(n);
      if verdict.Some? {
        return Err(Invalid(verdict.value));
      }
      LoadStep(input, i);
      if n.id in nodes {
        return Err(DuplicateNodeId(n.id));
      }
      AllValidUpdate(nodes, n.id, n);
      nodes := nodes[n.id := n];
    }
    assert input[..|input|] == input;
    ForestOfMembers(input);
    return Ok(nodes);
  }

  lemma {:induction false} LoadStep(input: seq<Node>, i: nat)
    requires i < |input| && DistinctIds(input[..i])
    ensures input[i].id in ForestOf(input[..i]) ==> exists j :: 0 <= j < i && input[j].id == input[i].id
    ensures input[i].id !in ForestOf(input[..i]) ==>
              DistinctIds(input[..i + 1]) && ForestOf(input[..i + 1]) == ForestOf(input[..i])[input[i].id := input[i]]
  {
    hide ForestOf;
    var before, n := input[..i], input[i];
    ForestOfMembers(before);
    assert input[..i + 1][..i] == before;
    ForestOfAppend(input[..i + 1]);
    if n.id in ForestOf(before) {
      var j :| 0 <= j < i && before[j] == ForestOf(before)[n.id];
      assert input[j].id == n.id;
    } else {
      var after := input[..i + 1];
      forall a, b | 0 <= a < b < |after| ensures after[a].id != after[b].id {
        assert before[a] in before && (b < i ==> before[b].id != before[a].id);
      }
    }
  }

  lemma ForestOfAppend(input: seq<Node>)
    requires input != []
    ensures ForestOf(input) == ForestOf(input[..|input| - 1])[input[|input| - 1].id := input[|input| - 1]]
  {
  }

  lemma NoNodes()
    ensures AllValid(map[]) && ForestOf([]) == map[] && DistinctIds([])
  {
  }

  /** The members of `done` have parents that exist and are folders. */
  ghost predicate HeldSoFar(nodes: Forest, done: set<NodeId>) {
    forall x {:trigger HeldByFolder(nodes, x)} :: x in done && x in nodes ==> HeldByFolder(nodes, x)
  }

  method GroupByParent(nodes: Forest) returns (children: Index, e: Option<CoreError>)
    requires Keyed(nodes)
    ensures e.None? ==> Contained(nodes) && Grouped(nodes, nodes.Keys, children)
    ensures e.Some? ==> (e.value.ParentNotFound? || e.value.NotAContainer?)
    ensures e.Some? && e.value.ParentNotFound? ==>
              e.value.id !in nodes && exists x :: x in nodes && nodes[x].parentId == Some(e.value.id)
    ensures e.Some? && e.value.NotAContainer? ==>
              e.value.id in nodes && !nodes[e.value.id].kind.Folder? && exists x :: x in nodes && nodes[x].parentId == Some(e.value.id)
  {
    hide Grouped, HeldByFolder;
    children, e := map[], None;
    var todo := nodes.Keys;
    NothingGrouped(nodes);
    while todo != {}
      invariant todo <= nodes.Keys && Grouped(nodes, nodes.Keys - todo, children) && HeldSoFar(nodes, nodes.Keys - todo)
      decreases |todo|
    {
      var id :| id in todo;
      var parent := nodes[id].parentId;
      if parent.Some? {
        if parent.value !in nodes {
          return children, Some(ParentNotFound(parent.value));
        }
        if !nodes[parent.value].kind.Folder? {
          return children, Some(NotAContainer(parent.value));
        }
      }
      GroupOne(nodes, nodes.Keys - todo, children, id);
      HeldNow(nodes, id);
      assert nodes.Keys - (todo - {id}) == nodes.Keys - todo + {id};
      children := children[parent := Kids(children, parent) + [id]];
      todo := todo - {id};
    }
    assert nodes.Keys - {} == nodes.Keys;
  }

  lemma NothingGrouped(nodes: Forest)
    ensures nodes.Keys - nodes.Keys == {} && Grouped(nodes, {}, map[])
  {
  }

  lemma HeldNow(nodes: Forest, id: NodeId)
    requires id in nodes
    requires nodes[id].parentId.Some? ==> nodes[id].parentId.value in nodes && nodes[nodes[id].parentId.value].kind.Folder?
    ensures HeldByFolder(nodes, id)
  {
  }

  method SortGroups(nodes: Forest, grouped: Index) returns (children: Index)
    requires Grouped(nodes, nodes.Keys, grouped)
    ensures Indexed(nodes, children)
  {
    hide Grouped, Sorted, Indexed, SortIds;
    children := grouped;
    var todo := children.Keys;
    while todo != {}
      invariant todo <= children.Keys && Grouped(nodes, nodes.Keys, children)
      invariant forall key :: key in children && key !in todo ==> Sorted(nodes, children[key])
      decreases |todo|
    {
      var key :| key in todo;
      SortGroup(nodes, children, key);
      children := children[key := SortIds(nodes, children[key])];
      todo := todo - {key};
    }
    GroupedSortedIndexed(nodes, children);
  }

  // Patches.

  /** `list` holds exactly the ids of the credentials attached to `id`, ascending. */
  ghost predicate AttachedList(nodes: Forest, id: NodeId, list: seq<NodeId>) {
    Ascending(list) && forall x :: x in list <==> x in nodes && BelongsTo(nodes[x], id)
  }

  ghost predicate MovePatch(nodes: Forest, children: Index, id: NodeId, patch: TreePatch) {
    && patch.inserted == [] && patch.tombstoned == []
    && patch.updated != [] && patch.updated[0] == id && AttachedList(nodes, id, patch.updated[1..])
    && patch.resolutionChanged == [id] + Preorder(nodes, children, id)
  }

  /** The preview and the move cannot report different patches. */
  lemma MovePatchUnique(nodes: Forest, children: Index, id: NodeId, a: TreePatch, b: TreePatch)
    requires MovePatch(nodes, children, id, a) && MovePatch(nodes, children, id, b)
    ensures a == b
  {
    assert Elements(a.updated[1..]) == Elements(b.updated[1..]);
    AscendingUnique(a.updated[1..], b.updated[1..]);
    assert a.updated == [id] + a.updated[1..] && b.updated == [id] + b.updated[1..];
  }

  ghost predicate DeletePatch(nodes: Forest, id: NodeId, patch: TreePatch) {
    && patch.inserted == [] && patch.resolutionChanged == []
    && Distinct(patch.tombstoned)
    && (forall x :: x in patch.tombstoned <==> x in Doomed(nodes, id) && nodes[x].deletedAt.None?)
    && Ascending(patch.updated)
    && (forall x :: x in patch.updated <==> x in Referrers(nodes, Doomed(nodes, id)))
  }

  /** The patch of a deletion names the nodes it marked and the survivors it changed. */
  ghost predicate ChangesNamed(before: Forest, after: Forest, id: NodeId, patch: TreePatch) {
    && after.Keys == before.Keys
    && (forall x :: x in patch.tombstoned <==> x in before && before[x].deletedAt.None? && after[x].deletedAt.Some?)
    && (forall x :: x in patch.updated <==> x in before && !Goes(before, id, x) && after[x] != before[x])
  }

  lemma {:induction false} DeletionNamed(nodes: Forest, id: NodeId, now: int, patch: TreePatch)
    requires Keyed(nodes) && DeletePatch(nodes, id, patch)
    ensures ChangesNamed(nodes, SoftDeleted(nodes, id, now), id, patch)
  {
    hide Doomed, SoftDeleted, HoldsLive, Goes, Buried, References;
    var after := SoftDeleted(nodes, id, now);
    DeletionKeepsPlaces(nodes, id, now);
    DoomedInside(nodes, id);
    forall x | x in nodes
      ensures x in Doomed(nodes, id) <==> Goes(nodes, id, x)
      ensures x in Doomed(nodes, id) ==> after[x].deletedAt.Some?
      ensures x !in Doomed(nodes, id) ==> after[x].deletedAt == nodes[x].deletedAt && (x in Referrers(nodes, Doomed(nodes, id)) <==> after[x] != nodes[x])
    {
      GoesIsDoomed(nodes, id, x);
      NamesKeys(nodes, id);
      BuriedDeleted(nodes[x], Names(nodes, Doomed(nodes, id)), now);
      if x !in Doomed(nodes, id) {
        DeleteIsClosed(nodes, id, now, x);
      }
    }
  }

  /** What an accepted update reports, given the index it leaves. */
  ghost function UpdateReport(nodes: Forest, n: Node, children: Index): Outcome
    requires n.id in nodes
  {
    if !InheritanceDiffers(nodes[n.id], n) then Ok(TreePatch([], [n.id], [], [n.id]))
    else if OnLoop(Parents(nodes), n.id) then Err(CorruptTree)
    else Ok(TreePatch([], [n.id], [], [n.id] + Preorder(Updated(nodes, n), children, n.id)))
  }

  /** A move with only some of the attached credentials carried along yet. */
  ghost function PartlyMoved(nodes: Forest, id: NodeId, parent: Option<NodeId>, sortOrder: int, done: set<NodeId>): Forest {
    map x | x in nodes ::
      var first := if x == id then Relocated(nodes[x], parent, sortOrder) else nodes[x];
      if x in done then Relocated(first, parent, sortOrder) else first
  }

  lemma PartlyMovedAll(nodes: Forest, id: NodeId, parent: Option<NodeId>, sortOrder: int, list: seq<NodeId>)
    requires Keyed(nodes) && AttachedList(nodes, id, list)
    ensures PartlyMoved(nodes, id, parent, sortOrder, Elements(list)) == Moved(nodes, id, parent, sortOrder)
  {
  }

  lemma PartlyMovedStep(nodes: Forest, id: NodeId, parent: Option<NodeId>, sortOrder: int, done: set<NodeId>, x: NodeId)
    requires x in nodes && x !in done
    ensures PartlyMoved(nodes, id, parent, sortOrder, done).Keys == nodes.Keys
    ensures PartlyMoved(nodes, id, parent, sortOrder, done + {x})
            == PartlyMoved(nodes, id, parent, sortOrder, done)[x := Relocated(PartlyMoved(nodes, id, parent, sortOrder, done)[x], parent, sortOrder)]
  {
  }

  lemma Refuted(input: seq<Node>, e: CoreError)
    requires LoadFault(input, e)
    ensures !(DistinctIds(input) && Legal(ForestOf(input)))
  {
    hide LoadFault, Legal;
    if DistinctIds(input) {
      LoadFaultRefutes(input, e);
    }
  }

  /** When every parent exists, a walk can only fail on a cycle, and its length is the depth. */
  lemma {:induction false} WalkVerdict(nodes: Forest, id: NodeId)
    requires Keyed(nodes) && Contained(nodes) && id in nodes
    ensures AncestorsOf(nodes, id).Err? ==>
              AncestorsOf(nodes, id).error == CorruptTree && Cyclic(Parents(nodes), nodes[id].parentId)
    ensures AncestorsOf(nodes, id).Ok? ==>
              Rooted(Parents(nodes), Some(id)) && Depth(nodes, id) == |AncestorsOf(nodes, id).value| + 1
    ensures AncestorsOf(nodes, id).Ok? && Depth(nodes, id) <= MAX_TREE_DEPTH ==> Placed(nodes, id)
  {
    hide AncestorsOf, Cyclic, Rooted, Depth;
    forall x | x in nodes && nodes[x].parentId.Some? ensures nodes[x].parentId.value in nodes {
      assert HeldByFolder(nodes, x);
    }
    StoredWalk(nodes, id);
    if AncestorsOf(nodes, id).Ok? {
      AncestorsDepth(nodes, id);
    }
  }

  function IdOf(n: Node): NodeId { n.id }

  /** A walk that succeeds has gone along the node's whole lineage, in any map whatever. */
  lemma {:induction false} AncestorIds(nodes: Forest, id: NodeId)
    requires Keyed(nodes) && AncestorsOf(nodes, id).Ok?
    ensures id in nodes && Anchor(nodes, id)
    ensures [id] + MapSeq(AncestorsOf(nodes, id).value, IdOf) == Lineage(Parents(nodes), Some(id))
    ensures Depth(nodes, id) == |AncestorsOf(nodes, id).value| + 1
  {
    hide Lineage, Rooted, Climb;
    var par := Parents(nodes);
    WalkExact(par, id);
    var path := AncestorWalk(par, id).path;
    LineageIs(par, par[id], path);
    LineageStep(par, id);
    assert forall i :: 0 <= i < |path| ==> path[i] in path && nodes[path[i]].id == path[i];
    assert MapSeq(NodesAt(nodes, path), IdOf) == path;
  }

  /** Sorting again when, and only when, the sort order changed keeps the index. */
  lemma {:induction false} UpdateKeepsIndex(nodes: Forest, n: Node, children: Index)
    requires Indexed(nodes, children) && UpdateError(nodes, n).None?
    ensures n.parentId in children && forall x :: x in children[n.parentId] ==> x in Updated(nodes, n)
    ensures nodes[n.id].sortOrder == n.sortOrder ==> Indexed(Updated(nodes, n), children)
    ensures Indexed(Updated(nodes, n), children[n.parentId := SortIds(Updated(nodes, n), children[n.parentId])])
  {
    hide Indexed, SortIds, ValidateNode;
    ResortIndexed(nodes, Updated(nodes, n), children, n.id);
    if nodes[n.id].sortOrder == n.sortOrder {
      IndexedCongruent(nodes, Updated(nodes, n), children);
    }
  }

  lemma MoveStarts(nodes: Forest, id: NodeId, parent: Option<NodeId>, sortOrder: int)
    requires MoveError(nodes, id, parent).None?
    ensures id in nodes
    ensures nodes[id := Relocated(nodes[id], parent, sortOrder)] == PartlyMoved(nodes, id, parent, sortOrder, {})
  {
  }

  lemma AttachedAfterMove(before: Forest, nodes: Forest, id: NodeId, parent: Option<NodeId>, sortOrder: int, list: seq<NodeId>)
    requires id in before && nodes == before[id := Relocated(before[id], parent, sortOrder)] && AttachedList(nodes, id, list)
    ensures AttachedList(before, id, list) && Elements(list[..0]) == {}
  {
  }

  lemma {:induction false} MoveContinues(nodes: Forest, id: NodeId, parent: Option<NodeId>, sortOrder: int, list: seq<NodeId>, i: nat)
    requires AttachedList(nodes, id, list) && i < |list|
    ensures list[i] in nodes
    ensures var done := PartlyMoved(nodes, id, parent, sortOrder, Elements(list[..i]));
            && done.Keys == nodes.Keys
            && PartlyMoved(nodes, id, parent, sortOrder, Elements(list[..i + 1]))
               == done[list[i] := Relocated(done[list[i]], parent, sortOrder)]
  {
    hide PartlyMoved;
    assert list[i] in list && list[i] !in list[..i];
    assert list[..i + 1] == list[..i] + [list[i]];
    assert Elements(list[..i + 1]) == Elements(list[..i]) + {list[i]};
    PartlyMovedStep(nodes, id, parent, sortOrder, Elements(list[..i]), list[i]);
  }

  // The steps of a deletion.

  lemma {:induction false} SubtreeMembers(nodes: Forest, children: Index, id: NodeId)
    requires Indexed(nodes, children) && id in nodes && !OnLoop(Parents(nodes), id)
    ensures Distinct([id] + Preorder(nodes, children, id))
    ensures forall x :: x in [id] + Preorder(nodes, children, id) <==> x in nodes && Below(Parents(nodes), id, x)
  {
    hide Indexed, Preorder, OnLoop;
    WalkFinds(nodes, children, id);
    assert Segment(Parents(nodes), Some(id), [], Some(id));
  }

  /** `extra` lists the credentials outside `owners` that belong to a member of it, the ones in `todo` not yet looked at. */
  ghost predicate OwnedOutside(nodes: Forest, owners: set<NodeId>, todo: set<NodeId>, extra: seq<NodeId>) {
    Distinct(extra)
    && forall x :: x in extra <==>
         x in nodes && x !in todo && x !in owners && AttachedTo(nodes[x]).Some? && AttachedTo(nodes[x]).value in owners
  }

  lemma OwnedByNone(nodes: Forest, owners: set<NodeId>)
    ensures OwnedOutside(nodes, owners, nodes.Keys, [])
  {
  }

  lemma OwnedNext(nodes: Forest, owners: set<NodeId>, todo: set<NodeId>, extra: seq<NodeId>, x: NodeId)
    requires OwnedOutside(nodes, owners, todo, extra) && x in todo && x in nodes
    ensures OwnedOutside(nodes, owners, todo - {x},
              if AttachedTo(nodes[x]).Some? && AttachedTo(nodes[x]).value in owners && x !in owners then extra + [x] else extra)
  {
  }

  lemma {:induction false} DoomedListed(nodes: Forest, id: NodeId, subtree: seq<NodeId>, extra: seq<NodeId>)
    requires id in nodes && Distinct(subtree) && forall x :: x in subtree <==> x in nodes && Below(Parents(nodes), id, x)
    requires OwnedOutside(nodes, Elements(subtree), {}, extra)
    ensures Distinct(subtree + extra) && Elements(subtree + extra) == Doomed(nodes, id)
  {
    hide Below;
    DistinctAppend(subtree, extra);
    forall x ensures x in Elements(subtree + extra) <==> x in Doomed(nodes, id) {
      if x in nodes && AttachedTo(nodes[x]).Some? {
        BelowMember(nodes, id, AttachedTo(nodes[x]).value);
      }
    }
  }

  lemma BelowMember(nodes: Forest, id: NodeId, x: NodeId)
    requires id in nodes
    ensures Below(Parents(nodes), id, x) ==> x in nodes
  {
  }

  /** The forest with the nodes in `done` buried. */
  ghost function PartlyBuried(nodes: Forest, names: map<NodeId, string>, now: int, done: set<NodeId>): Forest {
    map x | x in nodes :: if x in done then Buried(nodes[x], names, now) else nodes[x]
  }

  lemma BuriedKeys(nodes: Forest, names: map<NodeId, string>, now: int, done: set<NodeId>)
    ensures PartlyBuried(nodes, names, now, done).Keys == nodes.Keys
  {
  }

  lemma BuryNone(nodes: Forest, names: map<NodeId, string>, now: int)
    ensures PartlyBuried(nodes, names, now, {}) == nodes
  {
  }

  lemma NoElements<T>()
    ensures Elements<T>([]) == {}
  {
  }

  lemma ListedNames(doomed: seq<NodeId>, names: map<NodeId, string>)
    requires Elements(doomed) == names.Keys
    ensures forall x :: x in doomed <==> x in names
  {
    assert forall x :: x in doomed <==> x in Elements(doomed);
  }

  lemma BuryOne(nodes: Forest, names: map<NodeId, string>, now: int, done: set<NodeId>, x: NodeId)
    requires x in nodes && x !in done
    ensures var partly := PartlyBuried(nodes, names, now, done);
            && partly.Keys == nodes.Keys && partly[x] == nodes[x]
            && PartlyBuried(nodes, names, now, done + {x}) == partly[x := Buried(nodes[x], names, now)]
  {
  }

  lemma {:induction false} BuryNext(nodes: Forest, names: map<NodeId, string>, now: int, doomed: seq<NodeId>, i: nat)
    requires Keyed(nodes) && Distinct(doomed) && Elements(doomed) == names.Keys <= nodes.Keys && i < |doomed|
    ensures var x, partly := doomed[i], PartlyBuried(nodes, names, now, Elements(doomed[..i]));
            && x in names && x in nodes && partly.Keys == nodes.Keys && partly[x] == nodes[x]
            && PartlyBuried(nodes, names, now, Elements(doomed[..i + 1]))
               == (if nodes[x].deletedAt.None? then partly[x := Touch(nodes[x].(deletedAt := Some(now)), now)] else partly)
  {
    hide PartlyBuried;
    var x := doomed[i];
    assert x in Elements(doomed);
    assert x !in doomed[..i] && doomed[..i + 1] == doomed[..i] + [x];
    assert Elements(doomed[..i + 1]) == Elements(doomed[..i]) + {x};
    BuryOne(nodes, names, now, Elements(doomed[..i]), x);
  }

  lemma {:induction false} BuryOther(nodes: Forest, names: map<NodeId, string>, now: int, others: set<NodeId>, x: NodeId)
    requires Keyed(nodes) && others <= nodes.Keys - names.Keys && x in others
    ensures var partly := PartlyBuried(nodes, names, now, nodes.Keys - others);
            && partly.Keys == nodes.Keys && partly[x] == nodes[x]
            && (TombstoneReferences(nodes[x], names) != nodes[x] <==> HoldsLive(nodes[x], names.Keys))
            && PartlyBuried(nodes, names, now, nodes.Keys - (others - {x}))
               == (if TombstoneReferences(nodes[x], names) != nodes[x]
                   then partly[x := Touch(TombstoneReferences(nodes[x], names), now)] else partly)
  {
    hide PartlyBuried, HoldsLive, TombstoneReferences;
    BuryOne(nodes, names, now, nodes.Keys - others, x);
    assert nodes.Keys - (others - {x}) == nodes.Keys - others + {x};
    TombstoneChanges(nodes[x], names);
  }

  /** `found` lists the survivors holding a live reference to a deleted node, the ones in `others` not yet looked at. */
  ghost predicate ListsReferrers(nodes: Forest, names: map<NodeId, string>, others: set<NodeId>, found: seq<NodeId>) {
    Distinct(found)
    && forall x :: x in found <==> x in nodes && x !in names && x !in others && HoldsLive(nodes[x], names.Keys)
  }

  lemma ReferredByNone(nodes: Forest, names: map<NodeId, string>)
    ensures ListsReferrers(nodes, names, nodes.Keys - names.Keys, [])
  {
    hide HoldsLive;
  }

  lemma ReferredNext(nodes: Forest, names: map<NodeId, string>, others: set<NodeId>, found: seq<NodeId>, x: NodeId)
    requires ListsReferrers(nodes, names, others, found) && x in others && x in nodes && x !in names
    ensures ListsReferrers(nodes, names, others - {x}, if HoldsLive(nodes[x], names.Keys) then found + [x] else found)
  {
    hide HoldsLive;
  }

  lemma ReferrersListed(nodes: Forest, names: map<NodeId, string>, found: seq<NodeId>)
    requires ListsReferrers(nodes, names, {}, found)
    ensures Ascending(SortAscending(found))
    ensures forall x :: x in SortAscending(found) <==> x in nodes && x !in names && HoldsLive(nodes[x], names.Keys)
  {
    hide HoldsLive;
    SortAscendingCorrect(found);
  }

  lemma DeletionComplete(nodes: Forest, id: NodeId, now: int)
    ensures PartlyBuried(nodes, Names(nodes, Doomed(nodes, id)), now, nodes.Keys) == SoftDeleted(nodes, id, now)
  {
    hide Buried, Doomed, Names;
  }

  lemma {:induction false} DeletionKeepsIndex(nodes: Forest, id: NodeId, now: int, children: Index)
    requires Indexed(nodes, children)
    ensures Indexed(SoftDeleted(nodes, id, now), children)
  {
    hide Indexed, Buried, SoftDeleted, Doomed, Names;
    var after := SoftDeleted(nodes, id, now);
    DeletionKeepsPlaces(nodes, id, now);
    forall x | x in nodes ensures after[x].parentId == nodes[x].parentId && after[x].sortOrder == nodes[x].sortOrder {
      BuriedPlace(nodes[x], Names(nodes, Doomed(nodes, id)), now);
    }
    IndexedCongruent(nodes, after, children);
  }

  lemma StoredParts(nodes: Forest)
    requires Stored(nodes)
    ensures Keyed(nodes) && AllValid(nodes) && Homed(nodes)
  {
  }

  lemma {:induction false} InsertKeeps(nodes: Forest, n: Node)
    requires Stored(nodes) && InsertError(nodes, n).None?
    ensures Stored(nodes[n.id := n])
    ensures Sound(nodes) ==> Sound(nodes[n.id := n])
    ensures Legal(nodes) ==> Legal(nodes[n.id := n])
  {
    hide Legal, Sound, Stored, InsertError;
    InsertKeepsStored(nodes, n);
    if Sound(nodes) {
      InsertKeepsSound(nodes, n);
    }
    if Legal(nodes) {
      InsertExact(nodes, n);
    }
  }

  lemma {:induction false} UpdateKeeps(nodes: Forest, n: Node)
    requires Stored(nodes) && UpdateError(nodes, n).None?
    ensures Stored(Updated(nodes, n)) && Parents(Updated(nodes, n)) == Parents(nodes)
    ensures Sound(nodes) ==> Sound(Updated(nodes, n))
    ensures Legal(nodes) ==> (Legal(Updated(nodes, n)) <==> n.kind.Folder? || !HasChildren(nodes, n.id))
  {
    hide Legal, Sound, Stored, Updated, HasChildren, ValidateNode;
    UpdateKeepsStored(nodes, n);
    if Sound(nodes) {
      UpdateExact(nodes, n);
    }
    if Legal(nodes) {
      LegalIsSound(nodes);
    }
  }

  /** In a sound tree no node is on a loop, so an accepted update also reports. */
  lemma {:induction false} SoundUpdateReports(nodes: Forest, n: Node)
    requires n.id in nodes
    ensures Sound(nodes) ==> !OnLoop(Parents(nodes), n.id)
  {
    hide OnLoop, Rooted, AllValid;
    if Sound(nodes) {
      assert Placed(nodes, n.id);
      RootedIsNotOnLoop(Parents(nodes), n.id);
    }
  }

  lemma {:induction false} DeleteKeeps(nodes: Forest, id: NodeId, now: int)
    requires Stored(nodes)
    ensures Stored(SoftDeleted(nodes, id, now))
    ensures Sound(nodes) ==> Sound(SoftDeleted(nodes, id, now))
    ensures Legal(nodes) ==> Legal(SoftDeleted(nodes, id, now))
  {
    hide Legal, SoftDeleted, AllValid, Grounded;
    DeleteKeepsStored(nodes, id, now);
    DeleteKeepsSound(nodes, id, now);
    if Legal(nodes) {
      DeleteKeepsLegal(nodes, id, now);
    }
  }

  class Tree {
    var nodes: Forest
    var children: Index

    /** What every operation keeps, whatever came before it. */
    ghost predicate Consistent()
      reads this
    {
      Stored(nodes) && Indexed(nodes, children)
    }

    /** What every operation keeps as long as no update takes a folder away from its children. */
    ghost predicate Valid()
      reads this
    {
      Legal(nodes) && Indexed(nodes, children)
    }

    constructor ()
      ensures Valid() && Consistent() && nodes == map[] && children == map[]
    {
      nodes, children := map[], map[];
    }

    /** `Tree::from_nodes`: accepts exactly the inputs that are legal trees, and says why not otherwise. */
    static method FromNodes(input: seq<Node>) returns (r: Result<Tree, CoreError>)
      ensures r.Ok? <==> DistinctIds(input) && Legal(ForestOf(input))
      ensures r.Ok? ==> fresh(r.value) && r.value.Valid() && r.value.Consistent() && r.value.nodes == ForestOf(input)
      ensures r.Err? ==> LoadFault(input, r.error)
    {
      hide Keyed, AllValid, Contained, Grounded, Grouped, Indexed, ForestOf, Cyclic, Rooted, Depth;
      var loaded := LoadNodes(input);
      if loaded.Err? {
        Refuted(input, loaded.error);
        return Err(loaded.error);
      }
      var nodes := loaded.value;
      var children, fault := GroupByParent(nodes);
      if fault.Some? {
        Refuted(input, fault.value);
        return Err(fault.value);
      }
      children := SortGroups(nodes, children);
      var tree := new Tree();
      tree.nodes, tree.children := nodes, children;
      fault := tree.CheckDepths();
      if fault.Some? {
        Refuted(input, fault.value);
        return Err(fault.value);
      }
      SoundIsStored(nodes);
      return Ok(tree);
    }

    /** Every walk to the root must end, and within the depth limit. */
    method CheckDepths() returns (fault: Option<CoreError>)
      requires Keyed(nodes) && Contained(nodes)
      ensures fault.None? ==> Grounded(nodes)
      ensures fault.Some? ==>
                || (fault.value.CorruptTree? && exists x :: x in nodes && Cyclic(Parents(nodes), nodes[x].parentId))
                || (fault.value.DepthExceeded? && fault.value.depth > MAX_TREE_DEPTH
                    && exists x :: x in nodes && Rooted(Parents(nodes), Some(x)) && Depth(nodes, x) == fault.value.depth)
    {
      hide Contained, Placed, Rooted, Climb, Lineage, AncestorsOf, Cyclic, Depth;
      var todo := nodes.Keys;
      while todo != {}
        invariant todo <= nodes.Keys
        invariant forall x {:trigger Placed(nodes, x)} :: x in nodes && x !in todo ==> Placed(nodes, x)
        decreases |todo|
      {
        var id :| id in todo;
        todo := todo - {id};
        var above := Ancestors(id);
        WalkVerdict(nodes, id);
        if above.Err? {
          return Some(above.error);
        }
        var depth := |above.value| + 1;
        if depth > MAX_TREE_DEPTH {
          return Some(DepthExceeded(depth));
        }
      }
      return None;
    }

    // Navigation.

    method Ancestors(id: NodeId) returns (r: Result<seq<Node>, CoreError>)
      ensures r == AncestorsOf(nodes, id)
    {
      if id !in nodes {
        return Err(NodeNotFound(id));
      }
      ghost var par := Parents(nodes);
      var ids: seq<NodeId>, out: seq<Node>, cursor := [], [], nodes[id].parentId;
      var limit := |nodes|;
      while cursor.Some?
        invariant |ids| <= limit && (forall x :: x in ids ==> x in nodes) && out == NodesAt(nodes, ids)
        invariant AncestorWalk(par, id) ==
                  match Climb(par, cursor, limit - |ids|)
                  case Reached(rest) => Reached(ids + rest)
                  case failed => failed
        decreases limit - |ids|, cursor.Some?
      {
        if |out| >= limit {
          return Err(CorruptTree);
        }
        var parentId := cursor.value;
        if parentId !in nodes {
          return Err(ParentNotFound(parentId));
        }
        assert forall rest: seq<NodeId> :: ids + ([parentId] + rest) == ids + [parentId] + rest;
        ids, out, cursor := ids + [parentId], out + [nodes[parentId]], nodes[parentId].parentId;
      }
      assert ids + [] == ids;
      return Ok(out);
    }

    method PathToRoot(id: NodeId) returns (r: Result<seq<NodeId>, CoreError>)
      requires Keyed(nodes)
      ensures AncestorsOf(nodes, id).Err? ==> r == Err(AncestorsOf(nodes, id).error)
      ensures AncestorsOf(nodes, id).Ok? ==> id in nodes && Anchor(nodes, id) && r == Ok(Lineage(Parents(nodes), Some(id)))
    {
      hide Lineage, Rooted, AncestorsOf;
      var above := Ancestors(id);
      if above.Err? {
        return Err(above.error);
      }
      AncestorIds(nodes, id);
      return Ok([id] + MapSeq(above.value, IdOf));
    }

    method DepthOf(id: NodeId) returns (r: Result<nat, CoreError>)
      requires Keyed(nodes)
      ensures AncestorsOf(nodes, id).Err? ==> r == Err(AncestorsOf(nodes, id).error)
      ensures AncestorsOf(nodes, id).Ok? ==> id in nodes && Anchor(nodes, id) && r == Ok(Depth(nodes, id))
    {
      hide Lineage, Rooted, AncestorsOf;
      var above := Ancestors(id);
      if above.Err? {
        return Err(above.error);
      }
      AncestorIds(nodes, id);
      return Ok(|above.value| + 1);
    }

    method IsAncestorOf(ancestor: NodeId, id: NodeId) returns (r: Result<bool, CoreError>)
      requires Keyed(nodes)
      ensures AncestorsOf(nodes, id).Err? ==> r == Err(AncestorsOf(nodes, id).error)
      ensures AncestorsOf(nodes, id).Ok? ==> r == Ok(ancestor != id && Under(Parents(nodes), ancestor, id))
    {
      hide Lineage, Rooted, AncestorsOf;
      var path := PathToRoot(id);
      if path.Err? {
        return Err(path.error);
      }
      LineageStep(Parents(nodes), id);
      LineageChain(Parents(nodes), Some(id));
      return Ok(ancestor in path.value[1..]);
    }

    method Descendants(id: NodeId) returns (r: Result<seq<NodeId>, CoreError>)
      requires Indexed(nodes, children)
      ensures r == if id !in nodes then Err(NodeNotFound(id))
                   else if OnLoop(Parents(nodes), id) then Err(CorruptTree)
                   else Ok(Preorder(nodes, children, id))
    {
      hide Traversing, Accounted, Indexed, Preorder, OnLoop, Kids, Elements;
      if id !in nodes {
        return Err(NodeNotFound(id));
      }
      NoElements<NodeId>();
      ghost var free, all := !OnLoop(Parents(nodes), id), Preorder(nodes, children, id);
      if free {
        WalkReady(nodes, children, id);
      }
      AccountedFirst(children, id);
      KidsExact(nodes, children, Some(id));
      var out, seen := [], {};
      var stack := Kids(children, Some(id));
      while stack != []
        invariant free ==> Traversing(children, out, stack, |nodes|, all)
        invariant Accounted(children, id, out, stack)
        invariant seen == Elements(out) && seen <= nodes.Keys && forall x :: x in stack ==> x in nodes
        decreases |nodes.Keys - seen|
      {
        var current := stack[0];
        assert current in stack;
        OneMore(nodes.Keys, out, current);
        if free {
          TraversalStep(children, out, stack, |nodes|, all);
        }
        if current in seen {
          return Err(CorruptTree);
        }
        AccountedNext(children, id, out, stack);
        KidsExact(nodes, children, Some(current));
        seen, out := seen + {current}, out + [current];
        stack := Kids(children, Some(current)) + stack[1..];
      }
      FinishedIsFree(nodes, children, id, out);
      TraversalDone(children, out, |nodes|, all);
      return Ok(out);
    }

    method Subtree(id: NodeId) returns (r: Result<seq<NodeId>, CoreError>)
      requires Indexed(nodes, children)
      ensures r == if id !in nodes then Err(NodeNotFound(id))
                   else if OnLoop(Parents(nodes), id) then Err(CorruptTree)
                   else Ok([id] + Preorder(nodes, children, id))
    {
      var below := Descendants(id);
      if below.Err? {
        return Err(below.error);
      }
      return Ok([id] + below.value);
    }

    method AttachedCredentials(id: NodeId) returns (list: seq<NodeId>)
      ensures AttachedList(nodes, id, list)
    {
      var found: seq<NodeId>, todo := [], nodes.Keys;
      while todo != {}
        invariant todo <= nodes.Keys && Distinct(found)
        invariant forall x :: x in found <==> x in nodes && x !in todo && BelongsTo(nodes[x], id)
        decreases |todo|
      {
        var x :| x in todo;
        todo := todo - {x};
        if BelongsTo(nodes[x], id) {
          found := found + [x];
        }
      }
      SortAscendingCorrect(found);
      return SortAscending(found);
    }

    /** The number of levels below and including `id`, counted level by level. */
    method SubtreeHeight(id: NodeId) returns (r: Result<nat, CoreError>)
      requires Indexed(nodes, children) && id in nodes
      ensures OnLoop(Parents(nodes), id) ==> r == Err(CorruptTree)
      ensures !OnLoop(Parents(nodes), id) ==> r.Ok? && IsHeight(Cut(nodes, id), id, r.value)
    {
      hide OnLoop, Cut, IsHeight, Indexed, Sweeping, Swept, Elements;
      var height, level, seen := 1, [id], {id};
      ghost var free := !OnLoop(Parents(nodes), id);
      SweepOpens(nodes, children, id);
      while true
        invariant height >= 1 && level != [] && {id} <= seen <= nodes.Keys
        invariant free ==> Sweeping(nodes, id, height - 1, level, 0, [], seen)
        invariant Swept(children, id, seen - Elements(level), seen)
        decreases |nodes.Keys - seen|
      {
        var next, more, ok := NextLevel(id, level, seen, height - 1);
        if !ok {
          return Err(CorruptTree);
        }
        if free {
          SweepLevel(nodes, id, height - 1, level, next, more);
        }
        if next == [] {
          NoElements<NodeId>();
          SweptIsFree(nodes, children, id, seen);
          return Ok(height);
        }
        Outgrown(nodes.Keys, seen, more, next);
        height, level, seen := height + 1, next, more;
      }
    }

    /** The children of a level, refused when one of them has been seen before. */
    method NextLevel(id: NodeId, level: seq<NodeId>, seen: set<NodeId>, ghost k: nat) returns (next: seq<NodeId>, more: set<NodeId>, ok: bool)
      requires Indexed(nodes, children) && id in nodes && {id} <= seen <= nodes.Keys
      requires !OnLoop(Parents(nodes), id) ==> Sweeping(nodes, id, k, level, 0, [], seen)
      requires Swept(children, id, seen - Elements(level), seen)
      ensures !OnLoop(Parents(nodes), id) ==> ok && Sweeping(nodes, id, k, level, |level|, next, more)
      ensures ok ==> Swept(children, id, seen, more) && more == seen + Elements(next) <= nodes.Keys && seen !! Elements(next)
    {
      hide OnLoop, Indexed, Sweeping, Swept, Elements, Distinct, Kids;
      next, more := [], seen;
      ghost var free := !OnLoop(Parents(nodes), id);
      LevelOpens(children, id, level, seen);
      for i := 0 to |level|
        invariant free ==> Sweeping(nodes, id, k, level, i, next, more)
        invariant Swept(children, id, (seen - Elements(level)) + Elements(level[..i]), more)
        invariant more == seen + Elements(next) <= nodes.Keys && seen !! Elements(next)
      {
        var kids := Kids(children, Some(level[i]));
        if free {
          SweepNext(nodes, children, id, k, level, i, next, more);
        }
        ok := Unseen(kids, more);
        if !ok {
          return;
        }
        SweptNext(nodes, children, id, level, i, seen, next, more);
        next, more := next + kids, more + Elements(kids);
      }
      LevelCloses(children, id, level, seen, more);
      ok := true;
    }

    /** Each of these is met for the first time. */
    static method Unseen(kids: seq<NodeId>, seen: set<NodeId>) returns (ok: bool)
      ensures ok <==> Distinct(kids) && forall c :: c in kids ==> c !in seen
    {
      var met := seen;
      for i := 0 to |kids|
        invariant met == seen + Elements(kids[..i]) && Distinct(kids[..i]) && forall c :: c in kids[..i] ==> c !in seen
      {
        assert kids[..i + 1] == kids[..i] + [kids[i]];
        if kids[i] in met {
          return false;
        }
        met := met + {kids[i]};
      }
      assert kids[..|kids|] == kids;
      return true;
    }

    // The index.

    method SortSiblings(parent: Option<NodeId>)
      requires parent in children ==> forall x :: x in children[parent] ==> x in nodes
      modifies this`children
      ensures children == if parent in old(children) then old(children)[parent := SortIds(nodes, old(children)[parent])] else old(children)
    {
      if parent in children {
        children := children[parent := SortIds(nodes, children[parent])];
      }
    }

    method Link(parent: Option<NodeId>, id: NodeId)
      requires id in nodes && nodes[id].parentId == parent && Indexed(nodes - {id}, children)
      modifies this`children
      ensures Indexed(nodes, children)
    {
      hide Indexed, SortIds;
      LinkIndexed(nodes, children, id);
      children := children[parent := Kids(children, parent) + [id]];
      SortSiblings(parent);
      assert children == Linked(nodes, old(children), parent, id);
    }

    method Unlink(parent: Option<NodeId>, id: NodeId)
      requires id in nodes && nodes[id].parentId == parent && Indexed(nodes, children)
      modifies this`children
      ensures Indexed(nodes - {id}, children)
    {
      hide Indexed, Without;
      UnlinkIndexed(nodes, children, id);
      if parent in children {
        var siblings := Without(children[parent], id);
        if siblings == [] {
          children := children - {parent};
        } else {
          children := children[parent := siblings];
        }
      }
      assert children == Unlinked(old(children), parent, id);
    }

    // Mutation.

    method Insert(n: Node) returns (r: Outcome)
      requires Consistent()
      modifies this
      ensures Consistent()
      ensures old(Sound(nodes)) ==> Sound(nodes)
      ensures old(Valid()) ==> Valid()
      ensures InsertError(old(nodes), n).Some? ==>
                r == Err(InsertError(old(nodes), n).value) && nodes == old(nodes) && children == old(children)
      ensures InsertError(old(nodes), n).None? ==>
                r == Ok(TreePatch([n.id], [], [], [])) && nodes == old(nodes)[n.id := n]
    {
      hide Legal, Sound, AllValid, Homed, Indexed, ValidateNode, Depth, AncestorsOf;
      var verdict := ValidateNode(n);
      if verdict.Some? {
        return Err(Invalid(verdict.value));
      }
      if n.id in nodes {
        return Err(DuplicateNodeId(n.id));
      }
      if n.parentId.Some? {
        var parentId := n.parentId.value;
        if parentId !in nodes {
          return Err(ParentNotFound(parentId));
        }
        if !nodes[parentId].kind.Folder? {
          return Err(NotAContainer(parentId));
        }
        var above := DepthOf(parentId);
        if above.Err? {
          return Err(above.error);
        }
        AncestorIds(nodes, parentId);
        var depth := above.value + 1;
        if depth > MAX_TREE_DEPTH {
          return Err(DepthExceeded(depth));
        }
      }
      InsertKeeps(nodes, n);
      nodes := nodes[n.id := n];
      assert nodes - {n.id} == old(nodes);
      Link(n.parentId, n.id);
      return Ok(TreePatch([n.id], [], [], []));
    }

    /** An accepted edit is stored even when the listing of what it affects then fails. */
    method Update(n: Node) returns (r: Outcome)
      requires Consistent()
      modifies this
      ensures Consistent()
      ensures old(Sound(nodes)) ==> Sound(nodes) && (r.Err? ==> nodes == old(nodes) && children == old(children))
      ensures UpdateError(old(nodes), n).Some? ==>
                r == Err(UpdateError(old(nodes), n).value) && nodes == old(nodes) && children == old(children)
      ensures UpdateError(old(nodes), n).None? ==>
                && nodes == Updated(old(nodes), n) && Stores(old(nodes), nodes, n)
                && (old(Valid()) ==> (Valid() <==> n.kind.Folder? || !HasChildren(old(nodes), n.id)))
                && r == UpdateReport(old(nodes), n, children)
    {
      hide Legal, Stored, Stores, Sound, Indexed, ValidateNode, Preorder, InheritanceDiffers, HasChildren, SortIds, OnLoop;
      var verdict := ValidateNode(n);
      if verdict.Some? {
        return Err(Invalid(verdict.value));
      }
      if n.id !in nodes {
        return Err(NodeNotFound(n.id));
      }
      var existing := nodes[n.id];
      if existing.parentId != n.parentId {
        return Err(ParentChanged(n.id));
      }
      var inheritanceChanged := InheritanceDiffers(existing, n);
      var orderChanged := existing.sortOrder != n.sortOrder;
      UpdateKeeps(nodes, n);
      UpdateStores(nodes, n);
      SoundUpdateReports(nodes, n);
      UpdateKeepsIndex(nodes, n, children);
      nodes := nodes[n.id := Edited(existing, n)];
      if orderChanged {
        SortSiblings(n.parentId);
      }
      var changed := [n.id];
      if inheritanceChanged {
        var subtree := Subtree(n.id);
        if subtree.Err? {
          return Err(subtree.error);
        }
        changed := subtree.value;
      }
      return Ok(TreePatch([], [n.id], [], changed));
    }

    method PreviewMove(id: NodeId, parent: Option<NodeId>) returns (r: Outcome)
      requires Consistent()
      ensures MoveError(nodes, id, parent).Some? ==> r == Err(MoveError(nodes, id, parent).value)
      ensures MoveError(nodes, id, parent).None? ==> r.Ok? && MovePatch(nodes, children, id, r.value)
    {
      hide AllValid, Homed, Indexed, Lineage, Rooted, Climb, Preorder, IsHeight, Height, AncestorsOf, OnLoop, Cut;
      if id !in nodes {
        return Err(NodeNotFound(id));
      }
      var parentDepth := 0;
      RootLineage(Parents(nodes));
      if parent.Some? {
        var parentId := parent.value;
        if parentId == id {
          return Err(Cycle(id, parentId));
        }
        if parentId !in nodes {
          return Err(ParentNotFound(parentId));
        }
        var path := PathToRoot(parentId);
        if path.Err? {
          return Err(path.error);
        }
        if id in path.value {
          return Err(Cycle(id, parentId));
        }
        if !nodes[parentId].kind.Folder? {
          return Err(NotAContainer(parentId));
        }
        var depthOfParent := DepthOf(parentId);
        parentDepth := depthOfParent.value;
      }
      var height := SubtreeHeight(id);
      if height.Err? {
        return Err(height.error);
      }
      HeightUnique(Cut(nodes, id), id, height.value);
      var depth := parentDepth + height.value;
      if depth > MAX_TREE_DEPTH {
        return Err(DepthExceeded(depth));
      }
      var attached := AttachedCredentials(id);
      var subtree := Subtree(id);
      assert ([id] + attached)[1..] == attached;
      return Ok(TreePatch([], [id] + attached, [], subtree.value));
    }

    /** The three steps that put one node in its new place. */
    method Reparent(id: NodeId, parent: Option<NodeId>, sortOrder: int)
      requires id in nodes && Indexed(nodes, children)
      modifies this
      ensures nodes == old(nodes)[id := Relocated(old(nodes)[id], parent, sortOrder)] && Indexed(nodes, children)
    {
      hide Indexed;
      Unlink(nodes[id].parentId, id);
      nodes := nodes[id := Relocated(nodes[id], parent, sortOrder)];
      assert nodes - {id} == old(nodes) - {id};
      Link(parent, id);
    }

    method MoveNode(id: NodeId, parent: Option<NodeId>, sortOrder: int) returns (r: Outcome)
      requires Consistent()
      modifies this
      ensures Consistent()
      ensures old(Valid()) ==> Valid()
      ensures MoveError(old(nodes), id, parent).Some? ==>
                r == Err(MoveError(old(nodes), id, parent).value) && nodes == old(nodes) && children == old(children)
      ensures MoveError(old(nodes), id, parent).None? ==>
                && nodes == Moved(old(nodes), id, parent, sortOrder) && Reseats(old(nodes), nodes, id, parent, sortOrder)
                && r.Ok? && MovePatch(old(nodes), old(children), id, r.value)
                && (old(Sound(nodes)) ==> (Sound(nodes) <==> ClearWay(old(nodes), id, parent) && PassengersFit(old(nodes), id, parent)))
    {
      hide Legal, Sound, Stored, Reseats, Keyed, Indexed, MoveError, ClearWay, PassengersFit, MovePatch, Moved, PartlyMoved, Relocated, AttachedList, Elements;
      StoredParts(nodes);
      var patch := PreviewMove(id, parent);
      if patch.Err? {
        return patch;
      }
      ghost var before := nodes;
      MoveStarts(before, id, parent, sortOrder);
      Reparent(id, parent, sortOrder);
      var attached := AttachedCredentials(id);
      AttachedAfterMove(before, nodes, id, parent, sortOrder, attached);
      for i := 0 to |attached|
        invariant nodes == PartlyMoved(before, id, parent, sortOrder, Elements(attached[..i]))
        invariant Indexed(nodes, children)
      {
        MoveContinues(before, id, parent, sortOrder, attached, i);
        Reparent(attached[i], parent, sortOrder);
      }
      assert attached[..|attached|] == attached;
      PartlyMovedAll(before, id, parent, sortOrder, attached);
      MoveKeepsStored(before, id, parent, sortOrder);
      MovedReseats(before, id, parent, sortOrder);
      if Sound(before) {
        MoveKeepsSound(before, id, parent, sortOrder);
      }
      if Legal(before) {
        MoveKeepsLegal(before, id, parent, sortOrder);
      }
      return patch;
    }

    /** The subtree, then the credentials attached to it from outside, in no particular order. */
    method ListDoomed(id: NodeId, subtree: seq<NodeId>) returns (doomed: seq<NodeId>)
      requires Indexed(nodes, children) && id in nodes && !OnLoop(Parents(nodes), id) && subtree == [id] + Preorder(nodes, children, id)
      ensures Distinct(doomed) && Elements(doomed) == Doomed(nodes, id) && subtree <= doomed
    {
      hide Indexed, Preorder, Doomed, Below, OnLoop, OwnedOutside, Distinct, Elements;
      SubtreeMembers(nodes, children, id);
      var owners := Elements(subtree);
      var extra: seq<NodeId>, todo := [], nodes.Keys;
      OwnedByNone(nodes, owners);
      while todo != {}
        invariant todo <= nodes.Keys && OwnedOutside(nodes, owners, todo, extra)
        decreases |todo|
      {
        var x :| x in todo;
        OwnedNext(nodes, owners, todo, extra, x);
        todo := todo - {x};
        if AttachedTo(nodes[x]).Some? && AttachedTo(nodes[x]).value in owners && x !in owners {
          extra := extra + [x];
        }
      }
      doomed := subtree + extra;
      DoomedListed(nodes, id, subtree, extra);
    }

    method MarkDeleted(doomed: seq<NodeId>, names: map<NodeId, string>, now: int) returns (tombstoned: seq<NodeId>)
      requires Keyed(nodes) && Distinct(doomed) && Elements(doomed) == names.Keys <= nodes.Keys
      modifies this`nodes
      ensures nodes == PartlyBuried(old(nodes), names, now, names.Keys)
      ensures Distinct(tombstoned) && forall x :: x in tombstoned <==> x in names && old(nodes)[x].deletedAt.None?
    {
      hide PartlyBuried, Buried, Elements;
      ghost var before := nodes;
      tombstoned := [];
      BuryNone(before, names, now);
      NoElements<NodeId>();
      for i := 0 to |doomed|
        invariant nodes == PartlyBuried(before, names, now, Elements(doomed[..i]))
        invariant Distinct(tombstoned)
        invariant forall x :: x in tombstoned <==> x in doomed[..i] && x in before && before[x].deletedAt.None?
      {
        var x := doomed[i];
        BuryNext(before, names, now, doomed, i);
        assert x !in doomed[..i] && doomed[..i + 1] == doomed[..i] + [x];
        if nodes[x].deletedAt.None? {
          nodes := nodes[x := Touch(nodes[x].(deletedAt := Some(now)), now)];
          tombstoned := tombstoned + [x];
        }
      }
      assert doomed[..|doomed|] == doomed;
      ListedNames(doomed, names);
    }

    method TombstoneOthers(ghost before: Forest, names: map<NodeId, string>, now: int) returns (updated: seq<NodeId>)
      requires Keyed(before) && names.Keys <= before.Keys && nodes == PartlyBuried(before, names, now, names.Keys)
      modifies this`nodes
      ensures nodes == PartlyBuried(before, names, now, before.Keys)
      ensures Ascending(updated)
      ensures forall x :: x in updated <==> x in before && x !in names && HoldsLive(before[x], names.Keys)
    {
      hide PartlyBuried, Buried, HoldsLive, TombstoneReferences, ListsReferrers;
      BuriedKeys(before, names, now, names.Keys);
      var others, found: seq<NodeId> := nodes.Keys - names.Keys, [];
      assert before.Keys - others == names.Keys;
      ReferredByNone(before, names);
      while others != {}
        invariant others <= before.Keys - names.Keys
        invariant nodes == PartlyBuried(before, names, now, before.Keys - others)
        invariant ListsReferrers(before, names, others, found)
        decreases |others|
      {
        var x :| x in others;
        ReferredNext(before, names, others, found, x);
        BuryOther(before, names, now, others, x);
        others := others - {x};
        var rewritten := TombstoneReferences(nodes[x], names);
        if rewritten != nodes[x] {
          nodes := nodes[x := Touch(rewritten, now)];
          found := found + [x];
        }
      }
      assert before.Keys - {} == before.Keys;
      ReferrersListed(before, names, found);
      updated := SortAscending(found);
    }

    method SoftDelete(id: NodeId, now: int) returns (r: Outcome)
      requires Consistent()
      modifies this`nodes
      ensures Consistent()
      ensures old(Sound(nodes)) ==> Sound(nodes)
      ensures old(Valid()) ==> Valid()
      ensures DeleteError(old(nodes), id).Some? ==> r == Err(DeleteError(old(nodes), id).value) && nodes == old(nodes)
      ensures DeleteError(old(nodes), id).None? ==>
                && nodes == SoftDeleted(old(nodes), id, now) && Buries(old(nodes), nodes, id, now)
                && r.Ok? && DeletePatch(old(nodes), id, r.value) && ChangesNamed(old(nodes), nodes, id, r.value)
    {
      hide Legal, Indexed, Buries, ChangesNamed, Doomed, PartlyBuried, SoftDeleted, HoldsLive, Preorder, AllValid, Grounded, Homed, OnLoop;
      var subtree := Subtree(id);
      if subtree.Err? {
        return Err(subtree.error);
      }
      ghost var before := nodes;
      var doomed := ListDoomed(id, subtree.value);
      var names := Names(nodes, Elements(doomed));
      NamesKeys(before, id);
      var tombstoned := MarkDeleted(doomed, names, now);
      var updated := TombstoneOthers(before, names, now);
      DeletionComplete(before, id, now);
      DeletionKeepsIndex(before, id, now, children);
      DeleteKeeps(before, id, now);
      DeletionBuries(before, id, now);
      DeletionNamed(before, id, now, TreePatch([], updated, tombstoned, []));
      return Ok(TreePatch([], updated, tombstoned, []));
    }
  }
}
