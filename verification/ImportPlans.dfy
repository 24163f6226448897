/** What a conflict plan guarantees (crates/remoter-import/src/conflicts.rs:107-228). */
module ImportPlans {
  import opened Base
  import opened Inheritance
  import opened Nodes
  import opened Validation
  import opened Lineages
  import opened Forests
  import opened SiblingIndex
  import opened Trees
  import opened Renaming
  import opened ParentOrder
  import opened Conflicts

  /**
   What `resolve` asks of its input: distinct ids, the top level parented at the
   destination, every other parent an earlier imported folder, and every owner that comes
   along an earlier node.
   */
  ghost predicate Orderly(nodes: seq<Node>, destination: Option<NodeId>) {
    && DistinctIds(nodes) && (destination.Some? ==> destination.value !in IdSet(nodes))
    && (forall i :: 0 <= i < |nodes| ==> nodes[i].parentId == destination || ComesAfter(nodes, i, nodes[i].parentId, true))
    && (forall i :: 0 <= i < |nodes| && OwnedInside(nodes, nodes[i]) ==> ComesAfter(nodes, i, AttachedTo(nodes[i]), false))
  }

  /** The id names an earlier node of the list, and a folder if it has to be one. */
  ghost predicate ComesAfter(nodes: seq<Node>, i: nat, id: Option<NodeId>, folder: bool)
    requires i <= |nodes|
  {
    exists j :: 0 <= j < i && id == Some(nodes[j].id)
                && (folder ==> nodes[j].kind.Folder?)
  }

  predicate OwnedInside(nodes: seq<Node>, n: Node) {
    AttachedTo(n).Some? && AttachedTo(n).value in IdSet(nodes)
  }

  function Lookup(m: IdMap, id: NodeId): Option<NodeId> {
    if id in m then Some(m[id]) else None
  }

  // Matching as a fixed point: the order of the candidates no longer matters.

  lemma CandidateIdsAre(nodes: seq<Node>, destination: Option<NodeId>)
    ensures CandidateIds(CandidatesOf(nodes, destination)) == IdSet(nodes)
  {
    var candidates := CandidatesOf(nodes, destination);
    forall n | n in nodes ensures n.id in CandidateIds(candidates) {
      var i :| 0 <= i < |nodes| && nodes[i] == n;
      assert candidates[i] in candidates;
    }
    forall c | c in candidates ensures c.id in IdSet(nodes) {
      var i :| 0 <= i < |nodes| && candidates[i] == c;
      assert nodes[i] in nodes;
    }
  }

  lemma {:induction false} MatchKeys(candidates: seq<Candidate>, k: nat, vault: Forest, children: Index, destination: Option<NodeId>)
    requires k <= |candidates|
    ensures forall x :: x in MatchUpTo(candidates, k, vault, children, destination) ==> exists i :: 0 <= i < k && candidates[i].id == x
  {
    hide MatchOf;
    if k > 0 {
      MatchKeys(candidates, k - 1, vault, children, destination);
    }
  }

  /** Later candidates do not disturb an earlier one's match. */
  lemma {:induction false} MatchStable(candidates: seq<Candidate>, i: nat, j: nat, k: nat, vault: Forest, children: Index, destination: Option<NodeId>)
    requires i < j <= k <= |candidates|
    requires forall a, b :: 0 <= a < b < |candidates| ==> candidates[a].id != candidates[b].id
    ensures Lookup(MatchUpTo(candidates, k, vault, children, destination), candidates[i].id)
            == Lookup(MatchUpTo(candidates, j, vault, children, destination), candidates[i].id)
    decreases k
  {
    hide MatchOf;
    if j < k {
      MatchStable(candidates, i, j, k - 1, vault, children, destination);
      assert candidates[k - 1].id != candidates[i].id;
    }
  }

  lemma {:induction false} MatchAt(candidates: seq<Candidate>, i: nat, vault: Forest, children: Index, destination: Option<NodeId>)
    requires i < |candidates|
    requires forall a, b :: 0 <= a < b < |candidates| ==> candidates[a].id != candidates[b].id
    ensures Lookup(MatchUpTo(candidates, i + 1, vault, children, destination), candidates[i].id)
            == MatchOf(candidates[i], CandidateIds(candidates), MatchUpTo(candidates, i, vault, children, destination), vault, children, destination)
  {
    hide MatchOf;
    MatchKeys(candidates, i, vault, children, destination);
  }

  /** Only the entries of a candidate's own parent and owner matter to its match. */
  lemma MatchDepends(c: Candidate, ids: set<NodeId>, a: IdMap, b: IdMap, vault: Forest, children: Index, destination: Option<NodeId>)
    requires c.parentId.Some? && c.parentId.value in ids ==> Lookup(a, c.parentId.value) == Lookup(b, c.parentId.value)
    requires c.attachedTo.Some? && c.attachedTo.value in ids ==> Lookup(a, c.attachedTo.value) == Lookup(b, c.attachedTo.value)
    ensures MatchOf(c, ids, a, vault, children, destination) == MatchOf(c, ids, b, vault, children, destination)
  {
    hide FirstAttached, Sibling;
  }

  ghost predicate MatchedExactly(nodes: seq<Node>, matched: IdMap, vault: Forest, children: Index, destination: Option<NodeId>) {
    && matched.Keys <= IdSet(nodes)
    && forall i :: 0 <= i < |nodes| ==>
         Lookup(matched, nodes[i].id)
         == MatchOf(CandidateOf(nodes[i], destination), IdSet(nodes), matched, vault, children, destination)
  }

  lemma {:induction false} MatchingIsExact(nodes: seq<Node>, vault: Forest, children: Index, destination: Option<NodeId>)
    requires Orderly(nodes, destination)
    ensures MatchedExactly(nodes, Matching(nodes, vault, children, destination), vault, children, destination)
  {
    hide MatchOf, MatchUpTo, IdSet, ComesAfter, OwnedInside;
    var candidates := CandidatesOf(nodes, destination);
    MatchKeys(candidates, |nodes|, vault, children, destination);
    forall x | x in Matching(nodes, vault, children, destination) ensures x in IdSet(nodes) {
      var i :| 0 <= i < |nodes| && candidates[i].id == x;
      MemberId(nodes, i);
    }
    forall i | 0 <= i < |nodes|
      ensures Lookup(Matching(nodes, vault, children, destination), nodes[i].id)
              == MatchOf(CandidateOf(nodes[i], destination), IdSet(nodes), Matching(nodes, vault, children, destination), vault, children, destination)
    {
      MatchIsExactAt(nodes, i, vault, children, destination);
    }
  }

  lemma MemberId(nodes: seq<Node>, i: nat)
    requires i < |nodes|
    ensures nodes[i].id in IdSet(nodes)
  {
    assert nodes[i] in nodes;
  }

  lemma {:induction false} MatchIsExactAt(nodes: seq<Node>, i: nat, vault: Forest, children: Index, destination: Option<NodeId>)
    requires Orderly(nodes, destination) && i < |nodes|
    ensures Lookup(Matching(nodes, vault, children, destination), nodes[i].id)
            == MatchOf(CandidateOf(nodes[i], destination), IdSet(nodes), Matching(nodes, vault, children, destination), vault, children, destination)
  {
    hide MatchOf, MatchUpTo, IdSet, ComesAfter, OwnedInside, Lookup;
    var candidates := CandidatesOf(nodes, destination);
    var now, end := MatchUpTo(candidates, i, vault, children, destination), Matching(nodes, vault, children, destination);
    CandidateIdsAre(nodes, destination);
    MatchAt(candidates, i, vault, children, destination);
    MatchStable(candidates, i, i + 1, |nodes|, vault, children, destination);
    if nodes[i].parentId != destination {
      EarlierIsSettled(nodes, i, nodes[i].parentId, true, vault, children, destination);
    }
    assert OwnedInside(nodes, nodes[i]) <==> AttachedTo(nodes[i]).Some? && AttachedTo(nodes[i]).value in IdSet(nodes) by {
      InsideMeans(nodes, nodes[i]);
    }
    if OwnedInside(nodes, nodes[i]) {
      assert ComesAfter(nodes, i, AttachedTo(nodes[i]), false);
      EarlierIsSettled(nodes, i, AttachedTo(nodes[i]), false, vault, children, destination);
    }
    MatchDepends(candidates[i], IdSet(nodes), now, end, vault, children, destination);
  }

  lemma InsideMeans(nodes: seq<Node>, n: Node)
    ensures OwnedInside(nodes, n) <==> AttachedTo(n).Some? && AttachedTo(n).value in IdSet(nodes)
  {
  }

  lemma {:induction false} EarlierIsSettled(nodes: seq<Node>, i: nat, id: Option<NodeId>, folder: bool, vault: Forest, children: Index, destination: Option<NodeId>)
    requires DistinctIds(nodes) && i < |nodes| && ComesAfter(nodes, i, id, folder)
    ensures id.Some? && Lookup(MatchUpTo(CandidatesOf(nodes, destination), i, vault, children, destination), id.value)
                        == Lookup(Matching(nodes, vault, children, destination), id.value)
  {
    hide MatchUpTo, Lookup;
    var j :| 0 <= j < i && id == Some(nodes[j].id);
    MatchStable(CandidatesOf(nodes, destination), j, i, |nodes|, vault, children, destination);
  }

  // What a match says.

  /** Where an imported node lands, given what its parent matched. */
  ghost function PlaceOf(n: Node, matched: IdMap, destination: Option<NodeId>): Option<NodeId> {
    if n.parentId == destination || n.parentId.None? then destination
    else if n.parentId.value in matched then Some(matched[n.parentId.value]) else n.parentId
  }

  lemma {:induction false} MatchedAlike(nodes: seq<Node>, i: nat, matched: IdMap, vault: Forest, children: Index, destination: Option<NodeId>)
    requires Orderly(nodes, destination) && MatchedExactly(nodes, matched, vault, children, destination)
    requires Indexed(vault, children) && i < |nodes| && nodes[i].id in matched && !OwnedInside(nodes, nodes[i])
    ensures var n, e := nodes[i], matched[nodes[i].id];
            && e in vault && Alike(vault[e], Label(n.kind), n.name) && vault[e].parentId == PlaceOf(n, matched, destination)
            && (n.parentId != destination ==> n.parentId.Some? && n.parentId.value in matched)
  {
    hide IdSet, Indexed, FirstAlike, FirstAttached, Alike, OwnedInside;
    ParentIsInside(nodes, i, destination);
    KidsExact(vault, children, PlaceOf(nodes[i], matched, destination));
    SiblingMatch(nodes, i, matched, vault, children, destination);
    SiblingFound(vault, Kids(children, PlaceOf(nodes[i], matched, destination)), Label(nodes[i].kind), nodes[i].name);
  }

  lemma SiblingFound(vault: Forest, ids: seq<NodeId>, kind: string, name: string)
    ensures var r := FirstAlike(vault, ids, kind, name);
            && (r.Some? ==> r.value in ids && r.value in vault && Alike(vault[r.value], kind, name))
            && (r.None? ==> forall x :: x in ids && x in vault ==> !Alike(vault[x], kind, name))
  {
  }

  lemma {:induction false} ParentIsInside(nodes: seq<Node>, i: nat, destination: Option<NodeId>)
    requires Orderly(nodes, destination) && i < |nodes|
    ensures nodes[i].parentId != destination ==> nodes[i].parentId.Some? && nodes[i].parentId.value in IdSet(nodes)
    ensures nodes[i].parentId == destination && destination.Some? ==> destination.value !in IdSet(nodes)
  {
    if nodes[i].parentId != destination {
      var j :| 0 <= j < i && nodes[i].parentId == Some(nodes[j].id);
      assert nodes[j] in nodes;
    }
  }

  /** A node that is nobody's credential matches its first like sibling, once its parent has matched. */
  lemma {:induction false} SiblingMatch(nodes: seq<Node>, i: nat, matched: IdMap, vault: Forest, children: Index, destination: Option<NodeId>)
    requires Orderly(nodes, destination) && MatchedExactly(nodes, matched, vault, children, destination)
    requires i < |nodes| && !OwnedInside(nodes, nodes[i])
    ensures var n := nodes[i];
            Lookup(matched, n.id) ==
            if n.parentId != destination && (n.parentId.None? || n.parentId.value !in matched) then None
            else FirstAlike(vault, Kids(children, PlaceOf(n, matched, destination)), Label(n.kind), n.name)
  {
    hide IdSet, FirstAlike, FirstAttached, Orderly;
    ParentIsInside(nodes, i, destination);
  }

  /** A credential whose owner came along matches the first credential of what its owner matched. */
  lemma {:induction false} OwnedMatch(nodes: seq<Node>, i: nat, matched: IdMap, vault: Forest, children: Index, destination: Option<NodeId>)
    requires Orderly(nodes, destination) && MatchedExactly(nodes, matched, vault, children, destination)
    requires i < |nodes| && OwnedInside(nodes, nodes[i])
    requires nodes[i].parentId == destination || (nodes[i].parentId.Some? && nodes[i].parentId.value in matched)
    ensures var owner := AttachedTo(nodes[i]).value;
            Lookup(matched, nodes[i].id) == if owner in matched then FirstAttached(vault, matched[owner]) else None
  {
    hide IdSet, FirstAlike, FirstAttached, Orderly;
    ParentIsInside(nodes, i, destination);
  }

  /** A match always names a node of the vault. */
  lemma {:induction false} MatchedInVault(nodes: seq<Node>, matched: IdMap, vault: Forest, children: Index, destination: Option<NodeId>)
    requires MatchedExactly(nodes, matched, vault, children, destination)
    ensures forall x :: x in matched ==> matched[x] in vault
  {
    hide FirstAlike;
    forall x | x in matched ensures matched[x] in vault {
      var n :| n in nodes && n.id == x;
      var i :| 0 <= i < |nodes| && nodes[i] == n;
      assert Lookup(matched, nodes[i].id) == Some(matched[x]);
      var c := CandidateOf(nodes[i], destination);
      var inside := c.parentId.Some? && c.parentId.value in IdSet(nodes);
      if inside ==> c.parentId.value in matched {
        var place := if inside then Some(matched[c.parentId.value]) else destination;
        SiblingFound(vault, Kids(children, place), c.kind, c.name);
      }
    }
  }

  // Nothing dangles.

  /** A node rewritten by the plan mentions none of the ids the plan replaced. */
  ghost predicate Avoids(n: Node, gone: set<NodeId>) {
    && n.id !in gone
    && (n.parentId.Some? ==> n.parentId.value !in gone)
    && (forall ref :: ref in References(n) ==> ref.id !in gone)
    && (AttachedTo(n).Some? ==> AttachedTo(n).value !in gone)
  }

  lemma {:induction false} RemappedAvoids(n: Node, m: IdMap)
    requires m.Keys !! m.Values
    ensures Avoids(RemapNode(n, m), m.Keys)
  {
    hide References, MapKind;
    assert forall x :: Renamed(x, m) !in m.Keys by {
      assert forall x :: x in m ==> m[x] in m.Values;
    }
    RemappedReferences(n, m);
    RemappedAttachment(n, m);
  }

  lemma {:induction false} PlanIdsApart(nodes: seq<Node>, matched: IdMap, vault: Forest, policy: ConflictPolicy)
    requires DistinctIds(nodes) && IdSet(nodes) !! vault.Keys
    ensures var plan := Plan(nodes, matched, vault, policy);
            plan.ids.Keys <= IdSet(nodes) && plan.ids.Values <= vault.Keys && plan.ids.Keys !! plan.ids.Values
  {
    hide IdSet, Plan, DistinctIds;
    PlanMembers(nodes, matched, vault, policy);
    PlanConserves(nodes, matched, vault, policy);
  }

  /**
   Everything the plan sends to the vault points at what is there: no id of a merged,
   skipped or replaced import node is left, in any column or reference.
   */
  lemma {:induction false} NothingDangles(nodes: seq<Node>, matched: IdMap, vault: Forest, policy: ConflictPolicy)
    requires DistinctIds(nodes) && IdSet(nodes) !! vault.Keys
    ensures var r := Remapped(Plan(nodes, matched, vault, policy));
            && (forall n :: n in r.inserts ==> Avoids(n, r.ids.Keys))
            && (forall n :: n in r.updates ==> Avoids(n, r.ids.Keys))
  {
    hide IdSet, Plan, DistinctIds, RemapNode, Avoids;
    var plan := Plan(nodes, matched, vault, policy);
    PlanIdsApart(nodes, matched, vault, policy);
    forall n | n in Remapped(plan).inserts || n in Remapped(plan).updates ensures Avoids(n, plan.ids.Keys) {
      if n in Remapped(plan).inserts {
        var i :| 0 <= i < |plan.inserts| && n == RemapNode(plan.inserts[i], plan.ids);
        RemappedAvoids(plan.inserts[i], plan.ids);
      } else {
        var i :| 0 <= i < |plan.updates| && n == RemapNode(plan.updates[i], plan.ids);
        RemappedAvoids(plan.updates[i], plan.ids);
      }
    }
  }

  // Placement.

  /** The parent of an insert, before renaming: the destination, a merged folder, or an earlier insert. */
  ghost predicate ParentSettled(nodes: seq<Node>, matched: IdMap, vault: Forest, policy: ConflictPolicy, destination: Option<NodeId>, n: Node, earlier: seq<Node>) {
    || n.parentId == destination
    || (n.parentId.Some? && exists p :: p in nodes && p.id == n.parentId.value && FateOf(p, matched, vault, policy).Merged?)
    || (n.parentId.Some? && ParentAmong(earlier, n.parentId.value))
  }

  lemma {:induction false} InsertsInOrder(nodes: seq<Node>, k: nat, matched: IdMap, vault: Forest, policy: ConflictPolicy, destination: Option<NodeId>)
    requires Orderly(nodes, destination) && k <= |nodes|
    ensures var inserts := Plan(nodes[..k], matched, vault, policy).inserts;
            forall i :: 0 <= i < |inserts| ==> ParentSettled(nodes, matched, vault, policy, destination, inserts[i], inserts[..i])
    decreases k
  {
    hide ParentSettled, FateOf, Orderly;
    if k > 0 {
      InsertsInOrder(nodes, k - 1, matched, vault, policy, destination);
      var before, n := Plan(nodes[..k - 1], matched, vault, policy).inserts, nodes[k - 1];
      assert nodes[..k][..k - 1] == nodes[..k - 1];
      LastIsSettled(nodes, k - 1, matched, vault, policy, destination);
      var inserts := Plan(nodes[..k], matched, vault, policy).inserts;
      assert inserts == before || inserts == before + [n];
      forall i | 0 <= i < |inserts| ensures ParentSettled(nodes, matched, vault, policy, destination, inserts[i], inserts[..i]) {
        assert i < |before| ==> inserts[..i] == before[..i];
        assert i == |before| ==> inserts[..i] == before;
      }
    }
  }

  lemma {:induction false} LastIsSettled(nodes: seq<Node>, k: nat, matched: IdMap, vault: Forest, policy: ConflictPolicy, destination: Option<NodeId>)
    requires Orderly(nodes, destination) && k < |nodes|
    ensures ParentSettled(nodes, matched, vault, policy, destination, nodes[k], Plan(nodes[..k], matched, vault, policy).inserts)
  {
    hide Plan;
    var inserts := Plan(nodes[..k], matched, vault, policy).inserts;
    if nodes[k].parentId != destination {
      var j :| 0 <= j < k && nodes[k].parentId == Some(nodes[j].id) && nodes[j].kind.Folder?;
      PlanMembers(nodes[..k], matched, vault, policy);
      assert nodes[..k][j] == nodes[j] && nodes[j] in nodes;
      if FateOf(nodes[j], matched, vault, policy).Inserted? {
        assert nodes[j] in inserts;
        var i :| 0 <= i < |inserts| && inserts[i] == nodes[j];
      }
    }
  }

  /** A merged folder merges into a folder. */
  lemma {:induction false} MergedIntoFolder(nodes: seq<Node>, matched: IdMap, vault: Forest, children: Index, destination: Option<NodeId>, policy: ConflictPolicy, p: Node)
    requires Orderly(nodes, destination) && MatchedExactly(nodes, matched, vault, children, destination) && Indexed(vault, children)
    requires p in nodes && FateOf(p, matched, vault, policy).Merged?
    ensures p.id in matched && matched[p.id] in vault && vault[matched[p.id]].kind.Folder?
  {
    hide Orderly, MatchedExactly, Indexed;
    var i :| 0 <= i < |nodes| && nodes[i] == p;
    MatchedAlike(nodes, i, matched, vault, children, destination);
  }

  /** Every insert hangs from the destination, from a folder of the vault, or from an earlier insert. */
  lemma {:induction false} InsertsArePlaced(nodes: seq<Node>, matched: IdMap, vault: Forest, children: Index, destination: Option<NodeId>, policy: ConflictPolicy, i: nat)
    requires Orderly(nodes, destination) && MatchedExactly(nodes, matched, vault, children, destination) && Indexed(vault, children)
    requires IdSet(nodes) !! vault.Keys && i < |Plan(nodes, matched, vault, policy).inserts|
    ensures var inserts := Remapped(Plan(nodes, matched, vault, policy)).inserts;
            var n := inserts[i];
            || n.parentId == destination
            || (n.parentId.Some? && n.parentId.value in vault && vault[n.parentId.value].kind.Folder?)
            || (n.parentId.Some? && ParentAmong(inserts[..i], n.parentId.value))
  {
    hide MatchedExactly, Indexed, Plan, FateOf, IdSet;
    var plan := Plan(nodes, matched, vault, policy);
    var raw, inserts := plan.inserts[i], Remapped(plan).inserts;
    assert nodes[..|nodes|] == nodes;
    InsertsInOrder(nodes, |nodes|, matched, vault, policy, destination);
    PlanMembers(nodes, matched, vault, policy);
    PlanConserves(nodes, matched, vault, policy);
    RemappedPlace(raw, plan.ids);
    if raw.parentId == destination {
    } else if p :| p in nodes && raw.parentId == Some(p.id) && FateOf(p, matched, vault, policy).Merged? {
      MergedIntoFolder(nodes, matched, vault, children, destination, policy, p);
    } else {
      var j :| 0 <= j < i && raw.parentId == Some(plan.inserts[..i][j].id);
      InsertKeepsId(nodes, matched, vault, policy, j);
      assert inserts[..i][j] == RemapNode(plan.inserts[j], plan.ids);
    }
  }

  lemma {:induction false} InsertKeepsId(nodes: seq<Node>, matched: IdMap, vault: Forest, policy: ConflictPolicy, j: nat)
    requires DistinctIds(nodes) && j < |Plan(nodes, matched, vault, policy).inserts|
    ensures var plan := Plan(nodes, matched, vault, policy);
            && plan.inserts[j].id !in plan.ids
            && Remapped(plan).inserts[j].id == plan.inserts[j].id
  {
    hide Plan, DistinctIds, IdSet;
    var plan := Plan(nodes, matched, vault, policy);
    PlanConserves(nodes, matched, vault, policy);
    MemberId(plan.inserts, j);
    RemappedPlace(plan.inserts[j], plan.ids);
  }

  /** Every update keeps its node's place, so the tree can only refuse it for its values. */
  lemma {:induction false} UpdatesAreAccepted(nodes: seq<Node>, matched: IdMap, vault: Forest, policy: ConflictPolicy, u: Node)
    requires DistinctIds(nodes) && IdSet(nodes) !! vault.Keys && Legal(vault)
    requires u in Remapped(Plan(nodes, matched, vault, policy)).updates
    ensures u.id in vault && vault[u.id].parentId == u.parentId
    ensures UpdateError(vault, u).Some? ==> UpdateError(vault, u).value.Invalid?
  {
    hide Plan, IdSet, DistinctIds, FateOf, RemapNode, ValidateNode;
    var plan := Plan(nodes, matched, vault, policy);
    PlanIdsApart(nodes, matched, vault, policy);
    PlanMembers(nodes, matched, vault, policy);
    var i :| 0 <= i < |plan.updates| && u == RemapNode(plan.updates[i], plan.ids);
    var raw := plan.updates[i];
    assert raw in plan.updates;
    var n :| n in nodes && FateOf(n, matched, vault, policy).Replaces? && n.id in matched && matched[n.id] in vault && raw == Adopted(n, vault[matched[n.id]]);
    var existing := vault[matched[n.id]];
    assert HeldByFolder(vault, matched[n.id]);
    RemappedPlace(raw, plan.ids);
  }

  // The conflicts reported.

  /** The nodes that match, in order, each with the node it matches. */
  ghost function Clashes(nodes: seq<Node>, matched: IdMap): seq<Conflict> {
    if nodes == [] then []
    else
      var n := nodes[|nodes| - 1];
      Clashes(nodes[..|nodes| - 1], matched) + if n.id in matched then [Conflict(n.name, Label(n.kind), matched[n.id])] else []
  }

  lemma ConflictsSnoc(candidates: seq<Candidate>, before: seq<(nat, NodeId)>, i: nat, x: NodeId)
    requires (forall j :: 0 <= j < |before| ==> before[j].0 < |candidates|) && i < |candidates|
    ensures ConflictsOf(candidates, before + [(i, x)]) == ConflictsOf(candidates, before) + [Conflict(candidates[i].name, candidates[i].kind, x)]
  {
  }

  lemma CollisionsStep(candidates: seq<Candidate>, k: nat, vault: Forest, children: Index, destination: Option<NodeId>)
    requires 0 < k <= |candidates|
    ensures var before := Collisions(candidates, k - 1, vault, children, destination);
            var existing := MatchOf(candidates[k - 1], CandidateIds(candidates), MatchUpTo(candidates, k - 1, vault, children, destination), vault, children, destination);
            Collisions(candidates, k, vault, children, destination) == if existing.Some? then before + [(k - 1, existing.value)] else before
  {
    hide MatchOf, MatchUpTo;
  }

  lemma {:induction false} ClashesUpTo(nodes: seq<Node>, k: nat, vault: Forest, children: Index, destination: Option<NodeId>)
    requires DistinctIds(nodes) && k <= |nodes|
    ensures var candidates := CandidatesOf(nodes, destination);
            var collided := Collisions(candidates, k, vault, children, destination);
            && (forall i :: 0 <= i < |collided| ==> collided[i].0 < |candidates|)
            && ConflictsOf(candidates, collided) == Clashes(nodes[..k], Matching(nodes, vault, children, destination))
  {
    hide MatchOf, MatchUpTo, CandidateIds, Collisions, Matching, ConflictsOf, DistinctIds;
    var candidates := CandidatesOf(nodes, destination);
    CollisionsInRange(candidates, k, vault, children, destination);
    if k == 0 {
      NoClashes(candidates, vault, children, destination);
      assert nodes[..0] == [];
    } else {
      ClashesUpTo(nodes, k - 1, vault, children, destination);
      assert nodes[..k][..k - 1] == nodes[..k - 1];
      MatchedAtLast(nodes, k - 1, vault, children, destination);
      CollisionsStep(candidates, k, vault, children, destination);
      var existing := Lookup(Matching(nodes, vault, children, destination), nodes[k - 1].id);
      if existing.Some? {
        CollisionsInRange(candidates, k - 1, vault, children, destination);
        ConflictsSnoc(candidates, Collisions(candidates, k - 1, vault, children, destination), k - 1, existing.value);
      }
    }
  }

  lemma NoClashes(candidates: seq<Candidate>, vault: Forest, children: Index, destination: Option<NodeId>)
    ensures Collisions(candidates, 0, vault, children, destination) == [] && ConflictsOf(candidates, []) == []
  {
  }

  lemma {:induction false} MatchedAtLast(nodes: seq<Node>, i: nat, vault: Forest, children: Index, destination: Option<NodeId>)
    requires DistinctIds(nodes) && i < |nodes|
    ensures var candidates := CandidatesOf(nodes, destination);
            Lookup(Matching(nodes, vault, children, destination), nodes[i].id)
            == MatchOf(candidates[i], CandidateIds(candidates), MatchUpTo(candidates, i, vault, children, destination), vault, children, destination)
  {
    hide MatchOf, CandidateIds;
    var candidates := CandidatesOf(nodes, destination);
    MatchStable(candidates, i, i + 1, |nodes|, vault, children, destination);
    MatchKeys(candidates, i, vault, children, destination);
  }

  /** Every match is reported, in the order of the import, with the name and label of the node and what it matches. */
  lemma {:induction false} ConflictsListed(nodes: seq<Node>, vault: Forest, children: Index, destination: Option<NodeId>)
    requires DistinctIds(nodes)
    ensures var candidates := CandidatesOf(nodes, destination);
            var collided := Collisions(candidates, |nodes|, vault, children, destination);
            && (forall i :: 0 <= i < |collided| ==> collided[i].0 < |candidates|)
            && ConflictsOf(candidates, collided) == Clashes(nodes, Matching(nodes, vault, children, destination))
  {
    hide MatchUpTo, Collisions, Clashes;
    ClashesUpTo(nodes, |nodes|, vault, children, destination);
    assert nodes[..|nodes|] == nodes;
  }
}
