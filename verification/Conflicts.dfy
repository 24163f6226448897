/** Matching imported nodes with vault nodes and planning inserts, updates and skips (crates/remoter-import/src/conflicts.rs). */
module Conflicts {
  import opened Base
  import opened Inheritance
  import opened Nodes
  import opened Validation
  import opened Forests
  import opened SiblingIndex
  import opened Trees
  import opened Renaming
  import opened ParentOrder

  datatype ConflictPolicy = KeepBoth | Skip | Replace

  /** The columns of an imported node that matching reads. */
  datatype Candidate = Candidate(id: NodeId, parentId: Option<NodeId>, kind: string, name: string, attachedTo: Option<NodeId>)

  datatype Conflict = Conflict(name: string, kind: string, existing: NodeId)

  datatype ImportPlan = ImportPlan(
    inserts: seq<Node>,
    updates: seq<Node>,
    ids: IdMap,
    skipped: set<NodeId>,
    merged: nat,
    conflicts: seq<Conflict>)

  /** A parent that is the destination counts as none. */
  function CandidateOf(n: Node, destination: Option<NodeId>): Candidate {
    Candidate(n.id, if n.parentId == destination then None else n.parentId, Label(n.kind), n.name, AttachedTo(n))
  }

  function CandidatesOf(nodes: seq<Node>, destination: Option<NodeId>): (r: seq<Candidate>)
    ensures |r| == |nodes| && forall i :: 0 <= i < |nodes| ==> r[i] == CandidateOf(nodes[i], destination)
  {
    MapSeq(nodes, n => CandidateOf(n, destination))
  }

  function CandidateIds(candidates: seq<Candidate>): set<NodeId> {
    set c | c in candidates :: c.id
  }

  // Matching.

  /** A live node of this kind and name. */
  predicate Alike(n: Node, kind: string, name: string) {
    n.deletedAt.None? && Label(n.kind) == kind && n.name == name
  }

  function FirstAlike(vault: Forest, ids: seq<NodeId>, kind: string, name: string): (r: Option<NodeId>)
    ensures r.Some? ==> r.value in ids && r.value in vault && Alike(vault[r.value], kind, name)
    ensures r.None? ==> forall x :: x in ids && x in vault ==> !Alike(vault[x], kind, name)
  {
    if ids == [] then None
    else if ids[0] in vault && Alike(vault[ids[0]], kind, name) then Some(ids[0])
    else FirstAlike(vault, ids[1..], kind, name)
  }

  /** The first of the undeleted children, in display order, that has the same label and name. */
  function Sibling(vault: Forest, children: Index, parent: Option<NodeId>, kind: string, name: string): Option<NodeId> {
    FirstAlike(vault, Kids(children, parent), kind, name)
  }

  /** The first in id order of the credentials attached to `owner`. */
  ghost function FirstAttached(vault: Forest, owner: NodeId): Option<NodeId> {
    if x :| x in vault && BelongsTo(vault[x], owner) && (forall y :: y in vault && BelongsTo(vault[y], owner) ==> x <= y)
    then Some(x) else None
  }

  lemma {:induction false} FirstAttachedIs(vault: Forest, owner: NodeId, list: seq<NodeId>)
    requires AttachedList(vault, owner, list)
    ensures FirstAttached(vault, owner) == if list == [] then None else Some(list[0])
  {
    if list != [] {
      assert list[0] in list;
    }
  }

  /** The vault node a candidate collides with, given what earlier candidates collided with. */
  ghost function MatchOf(c: Candidate, ids: set<NodeId>, matched: IdMap, vault: Forest, children: Index, destination: Option<NodeId>): Option<NodeId> {
    var inside := c.parentId.Some? && c.parentId.value in ids;
    if inside && c.parentId.value !in matched then None
    else if c.attachedTo.Some? && c.attachedTo.value in ids then
      if c.attachedTo.value in matched then FirstAttached(vault, matched[c.attachedTo.value]) else None
    else Sibling(vault, children, if inside then Some(matched[c.parentId.value]) else destination, c.kind, c.name)
  }

  /** The collisions among the first `k` candidates. */
  ghost function MatchUpTo(candidates: seq<Candidate>, k: nat, vault: Forest, children: Index, destination: Option<NodeId>): IdMap
    requires k <= |candidates|
  {
    if k == 0 then map[]
    else
      var before := MatchUpTo(candidates, k - 1, vault, children, destination);
      var existing := MatchOf(candidates[k - 1], CandidateIds(candidates), before, vault, children, destination);
      if existing.Some? then before[candidates[k - 1].id := existing.value] else before
  }

  ghost function Collisions(candidates: seq<Candidate>, k: nat, vault: Forest, children: Index, destination: Option<NodeId>): seq<(nat, NodeId)>
    requires k <= |candidates|
  {
    if k == 0 then []
    else
      var before := MatchUpTo(candidates, k - 1, vault, children, destination);
      var existing := MatchOf(candidates[k - 1], CandidateIds(candidates), before, vault, children, destination);
      Collisions(candidates, k - 1, vault, children, destination)
      + if existing.Some? then [(k - 1, existing.value)] else []
  }

  method Matches(candidates: seq<Candidate>, tree: Tree, destination: Option<NodeId>) returns (out: seq<(nat, NodeId)>, matched: IdMap)
    ensures matched == MatchUpTo(candidates, |candidates|, tree.nodes, tree.children, destination)
    ensures out == Collisions(candidates, |candidates|, tree.nodes, tree.children, destination)
  {
    hide FirstAlike, FirstAttached, Legal, Indexed, AttachedList;
    var ids := CandidateIds(candidates);
    out, matched := [], map[];
    for index := 0 to |candidates|
      invariant matched == MatchUpTo(candidates, index, tree.nodes, tree.children, destination)
      invariant out == Collisions(candidates, index, tree.nodes, tree.children, destination)
    {
      var candidate := candidates[index];
      var place, existing := destination, None;
      var orphan := false;
      if candidate.parentId.Some? && candidate.parentId.value in ids {
        if candidate.parentId.value in matched {
          place := Some(matched[candidate.parentId.value]);
        } else {
          orphan := true;
        }
      }
      if !orphan {
        if candidate.attachedTo.Some? && candidate.attachedTo.value in ids {
          if candidate.attachedTo.value in matched {
            var attached := tree.AttachedCredentials(matched[candidate.attachedTo.value]);
            FirstAttachedIs(tree.nodes, matched[candidate.attachedTo.value], attached);
            existing := if attached == [] then None else Some(attached[0]);
          }
        } else {
          existing := Sibling(tree.nodes, tree.children, place, candidate.kind, candidate.name);
        }
        if existing.Some? {
          matched := matched[candidate.id := existing.value];
          out := out + [(index, existing.value)];
        }
      }
    }
  }

  // The plan.

  datatype Fate = Inserted | Merged(into: NodeId) | Skipped(because: NodeId) | Replaces(target: NodeId)

  /** What the policy does with one imported node. */
  function FateOf(n: Node, matched: IdMap, vault: Forest, policy: ConflictPolicy): Fate {
    if n.id !in matched || matched[n.id] !in vault || policy.KeepBoth? then Inserted
    else if n.kind.Folder? then Merged(matched[n.id])
    else if policy.Skip? then Skipped(matched[n.id])
    else Replaces(matched[n.id])
  }

  /** The imported properties under the existing node's identity and place. */
  function Adopted(n: Node, existing: Node): Node {
    n.(id := existing.id, parentId := existing.parentId, sortOrder := existing.sortOrder,
       createdAt := existing.createdAt, revision := existing.revision)
  }

  /** The plan with one more node decided. */
  function Extended(plan: ImportPlan, n: Node, fate: Fate, vault: Forest): ImportPlan
    requires fate.Replaces? ==> fate.target in vault
  {
    match fate
    case Inserted => plan.(inserts := plan.inserts + [n])
    case Merged(into) => plan.(ids := plan.ids[n.id := into], merged := plan.merged + 1)
    case Skipped(existing) => plan.(ids := plan.ids[n.id := existing], skipped := plan.skipped + {n.id})
    case Replaces(target) => plan.(ids := plan.ids[n.id := target], updates := plan.updates + [Adopted(n, vault[target])])
  }

  function Plan(nodes: seq<Node>, matched: IdMap, vault: Forest, policy: ConflictPolicy): ImportPlan {
    if nodes == [] then ImportPlan([], [], map[], {}, 0, [])
    else
      var n := nodes[|nodes| - 1];
      Extended(Plan(nodes[..|nodes| - 1], matched, vault, policy), n, FateOf(n, matched, vault, policy), vault)
  }

  function Remapped(plan: ImportPlan): ImportPlan {
    plan.(inserts := RemapAll(plan.inserts, plan.ids), updates := RemapAll(plan.updates, plan.ids))
  }

  function ConflictsOf(candidates: seq<Candidate>, collided: seq<(nat, NodeId)>): seq<Conflict>
    requires forall i :: 0 <= i < |collided| ==> collided[i].0 < |candidates|
  {
    seq(|collided|, i requires 0 <= i < |collided| =>
      Conflict(candidates[collided[i].0].name, candidates[collided[i].0].kind, collided[i].1))
  }

  lemma {:induction false} CollisionsInRange(candidates: seq<Candidate>, k: nat, vault: Forest, children: Index, destination: Option<NodeId>)
    requires k <= |candidates|
    ensures forall i :: 0 <= i < |Collisions(candidates, k, vault, children, destination)| ==>
              Collisions(candidates, k, vault, children, destination)[i].0 < k
  {
    if k > 0 {
      CollisionsInRange(candidates, k - 1, vault, children, destination);
    }
  }

  ghost function Matching(nodes: seq<Node>, vault: Forest, children: Index, destination: Option<NodeId>): IdMap {
    MatchUpTo(CandidatesOf(nodes, destination), |nodes|, vault, children, destination)
  }

  // What the plan comes to, policy by policy.

  /** The imported ids that meet a node of the vault under a policy that looks. */
  function Meeting(matched: IdMap, vault: Forest, policy: ConflictPolicy): set<NodeId> {
    if policy.KeepBoth? then {} else set id | id in matched && matched[id] in vault
  }

  function Apart(nodes: seq<Node>, meeting: set<NodeId>): seq<Node> {
    if nodes == [] then []
    else Apart(nodes[..|nodes| - 1], meeting) + if nodes[|nodes| - 1].id in meeting then [] else [nodes[|nodes| - 1]]
  }

  /** Those that meet a node and are folders, or those that are not. */
  function Met(nodes: seq<Node>, meeting: set<NodeId>, folders: bool): seq<Node> {
    if nodes == [] then []
    else
      var n := nodes[|nodes| - 1];
      Met(nodes[..|nodes| - 1], meeting, folders) + if n.id in meeting && n.kind.Folder? == folders then [n] else []
  }

  /** A node's imported properties, references and owner following `ids`, under the identity and in the place of `existing`. */
  ghost predicate Takes(n: Node, existing: Node, ids: IdMap, u: Node) {
    && u == n.(id := u.id, parentId := u.parentId, kind := u.kind, sortOrder := existing.sortOrder,
               createdAt := existing.createdAt, revision := existing.revision)
    && u.id == (if existing.id in ids then ids[existing.id] else existing.id)
    && (existing.parentId.None? ==> u.parentId.None?)
    && (existing.parentId.Some? ==> u.parentId == Some(if existing.parentId.value in ids then ids[existing.parentId.value] else existing.parentId.value))
    && Tracks(n, ids, u)
  }

  /** The same kind, with every reference and owner that `ids` knows replaced. */
  ghost predicate Tracks(n: Node, ids: IdMap, u: Node) {
    && SameScalars(n, u) && |References(u)| == |References(n)|
    && (forall i :: 0 <= i < |References(n)| ==>
          var was, got := References(n)[i], References(u)[i];
          && got.id == (if was.id in ids then ids[was.id] else was.id)
          && (was.Live? <==> got.Live?) && (was.Deleted? ==> got.name == was.name))
    && (AttachedTo(n).None? ==> AttachedTo(u).None?)
    && (AttachedTo(n).Some? ==> AttachedTo(u) == Some(if AttachedTo(n).value in ids then ids[AttachedTo(n).value] else AttachedTo(n).value))
  }

  /** The ids given to vault nodes: those of the imported nodes that meet one. */
  ghost predicate NamesMet(nodes: seq<Node>, meeting: set<NodeId>, matched: IdMap, ids: IdMap) {
    && (forall id :: id in ids <==> id in meeting && exists n :: n in nodes && n.id == id)
    && forall id :: id in ids ==> id in matched && ids[id] == matched[id]
  }

  ghost predicate ListsIds(nodes: seq<Node>, ids: set<NodeId>) {
    forall id :: id in ids <==> exists n :: n in nodes && n.id == id
  }

  ghost predicate Inserts(rest: seq<Node>, ids: IdMap, inserts: seq<Node>) {
    |inserts| == |rest| && forall i :: 0 <= i < |rest| ==> Enters(rest[i], ids, inserts[i])
  }

  /** A node as it is, with its id, its parent and what it refers to and belongs to following `ids`. */
  ghost predicate Enters(n: Node, ids: IdMap, u: Node) {
    && u == n.(id := u.id, parentId := u.parentId, kind := u.kind)
    && u.id == (if n.id in ids then ids[n.id] else n.id)
    && (n.parentId.None? ==> u.parentId.None?)
    && (n.parentId.Some? ==> u.parentId == Some(if n.parentId.value in ids then ids[n.parentId.value] else n.parentId.value))
    && Tracks(n, ids, u)
  }

  ghost predicate TakesOver(others: seq<Node>, matched: IdMap, vault: Forest, ids: IdMap, updates: seq<Node>) {
    |updates| == |others| && forall i :: 0 <= i < |others| ==>
      others[i].id in matched && matched[others[i].id] in vault && Takes(others[i], vault[matched[others[i].id]], ids, updates[i])
  }

  /**
   Nodes that meet nothing are inserted, in order, with what they refer to renamed. The others give their id to
   what they meet: folders merge, and the rest are skipped, or replace it under "replace".
   */
  ghost predicate Settlement(nodes: seq<Node>, matched: IdMap, vault: Forest, policy: ConflictPolicy, r: ImportPlan) {
    var meeting := Meeting(matched, vault, policy);
    var others := Met(nodes, meeting, false);
    && NamesMet(nodes, meeting, matched, r.ids)
    && Inserts(Apart(nodes, meeting), r.ids, r.inserts)
    && r.merged == |Met(nodes, meeting, true)|
    && (if policy.Skip? then ListsIds(others, r.skipped) else r.skipped == {})
    && (if policy.Replace? then TakesOver(others, matched, vault, r.ids, r.updates) else r.updates == [])
  }

  lemma {:induction false} RemappedTracks(n: Node, m: IdMap)
    ensures Tracks(n, m, RemapNode(n, m))
  {
    hide References, MapKind;
    RemappedScalars(n, m);
    RemappedReferences(n, m);
    RemappedAttachment(n, m);
  }

  lemma {:induction false} RemappedEnters(n: Node, m: IdMap)
    ensures Enters(n, m, RemapNode(n, m))
  {
    hide References, MapKind, Tracks;
    RemappedTracks(n, m);
  }

  ghost predicate Assumes(n: Node, existing: Node, u: Node) {
    u == n.(id := existing.id, parentId := existing.parentId, sortOrder := existing.sortOrder, createdAt := existing.createdAt, revision := existing.revision)
  }

  ghost predicate AllAssume(others: seq<Node>, matched: IdMap, vault: Forest, updates: seq<Node>) {
    |updates| == |others| && forall i :: 0 <= i < |others| ==>
      others[i].id in matched && matched[others[i].id] in vault && Assumes(others[i], vault[matched[others[i].id]], updates[i])
  }

  /** The plan before its ids are rewritten. */
  ghost predicate Drafted(nodes: seq<Node>, matched: IdMap, vault: Forest, policy: ConflictPolicy, plan: ImportPlan) {
    var meeting := Meeting(matched, vault, policy);
    var others := Met(nodes, meeting, false);
    && NamesMet(nodes, meeting, matched, plan.ids)
    && plan.inserts == Apart(nodes, meeting)
    && plan.merged == |Met(nodes, meeting, true)|
    && (if policy.Skip? then ListsIds(others, plan.skipped) else plan.skipped == {})
    && (if policy.Replace? then AllAssume(others, matched, vault, plan.updates) else plan.updates == [])
  }

  lemma {:induction false} PlanDrafted(nodes: seq<Node>, matched: IdMap, vault: Forest, policy: ConflictPolicy)
    ensures Drafted(nodes, matched, vault, policy, Plan(nodes, matched, vault, policy))
  {
    hide Drafted;
    if nodes == [] {
      NothingDrafted(matched, vault, policy);
    } else {
      var rest, n := nodes[..|nodes| - 1], nodes[|nodes| - 1];
      PlanDrafted(rest, matched, vault, policy);
      OneDrafted(nodes, matched, vault, policy, Plan(rest, matched, vault, policy));
    }
  }

  lemma NothingDrafted(matched: IdMap, vault: Forest, policy: ConflictPolicy)
    ensures Drafted([], matched, vault, policy, ImportPlan([], [], map[], {}, 0, []))
  {
  }

  lemma NamesGrow(nodes: seq<Node>, meeting: set<NodeId>, matched: IdMap, ids: IdMap)
    requires nodes != [] && NamesMet(nodes[..|nodes| - 1], meeting, matched, ids) && meeting <= matched.Keys
    ensures var id := nodes[|nodes| - 1].id;
            NamesMet(nodes, meeting, matched, if id in meeting then ids[id := matched[id]] else ids)
  {
    assert nodes == nodes[..|nodes| - 1] + [nodes[|nodes| - 1]];
  }

  lemma ListGrows(nodes: seq<Node>, ids: set<NodeId>, n: Node)
    requires ListsIds(nodes, ids)
    ensures ListsIds(nodes + [n], ids + {n.id})
  {
  }

  lemma AssumeGrows(others: seq<Node>, matched: IdMap, vault: Forest, updates: seq<Node>, n: Node)
    requires AllAssume(others, matched, vault, updates) && n.id in matched && matched[n.id] in vault
    ensures AllAssume(others + [n], matched, vault, updates + [Adopted(n, vault[matched[n.id]])])
  {
  }

  lemma MetGrows(nodes: seq<Node>, meeting: set<NodeId>)
    requires nodes != []
    ensures var rest, n := nodes[..|nodes| - 1], nodes[|nodes| - 1];
            && Apart(nodes, meeting) == (if n.id in meeting then Apart(rest, meeting) else Apart(rest, meeting) + [n])
            && Met(nodes, meeting, true)
               == (if n.id in meeting && n.kind.Folder? then Met(rest, meeting, true) + [n] else Met(rest, meeting, true))
            && Met(nodes, meeting, false)
               == (if n.id in meeting && !n.kind.Folder? then Met(rest, meeting, false) + [n] else Met(rest, meeting, false))
  {
  }

  lemma {:induction false} OneDrafted(nodes: seq<Node>, matched: IdMap, vault: Forest, policy: ConflictPolicy, plan: ImportPlan)
    requires nodes != [] && Drafted(nodes[..|nodes| - 1], matched, vault, policy, plan)
    ensures var n := nodes[|nodes| - 1];
            Drafted(nodes, matched, vault, policy, Extended(plan, n, FateOf(n, matched, vault, policy), vault))
  {
    hide NamesMet, ListsIds, AllAssume, Apart, Met, Adopted;
    var rest, n := nodes[..|nodes| - 1], nodes[|nodes| - 1];
    var meeting := Meeting(matched, vault, policy);
    NamesGrow(nodes, meeting, matched, plan.ids);
    MetGrows(nodes, meeting);
    if n.id in meeting && !n.kind.Folder? {
      if policy.Skip? {
        ListGrows(Met(rest, meeting, false), plan.skipped, n);
      } else {
        AssumeGrows(Met(rest, meeting, false), matched, vault, plan.updates, n);
      }
    }
  }

  lemma {:induction false} DraftSettles(nodes: seq<Node>, matched: IdMap, vault: Forest, policy: ConflictPolicy, plan: ImportPlan)
    requires Drafted(nodes, matched, vault, policy, plan)
    ensures Settlement(nodes, matched, vault, policy, Remapped(plan))
  {
    hide RemapNode, Enters, Takes, Apart, Met, NamesMet, ListsIds;
    var meeting := Meeting(matched, vault, policy);
    var others, rest := Met(nodes, meeting, false), Apart(nodes, meeting);
    forall i | 0 <= i < |rest| ensures Enters(rest[i], plan.ids, RemapNode(rest[i], plan.ids)) {
      RemappedEnters(rest[i], plan.ids);
    }
    if policy.Replace? {
      forall i | 0 <= i < |others|
        ensures others[i].id in matched && matched[others[i].id] in vault
                && Takes(others[i], vault[matched[others[i].id]], plan.ids, RemapNode(plan.updates[i], plan.ids))
      {
        AssumedTakes(others[i], vault[matched[others[i].id]], plan.updates[i], plan.ids);
      }
    }
  }

  lemma {:induction false} AssumedTakes(n: Node, existing: Node, u: Node, ids: IdMap)
    requires Assumes(n, existing, u)
    ensures Takes(n, existing, ids, RemapNode(u, ids))
  {
    hide References, MapKind;
    RemappedTracks(u, ids);
    assert u.kind == n.kind;
    SameKindReferences(u, n);
  }

  /** The settlement does not read the conflicts. */
  lemma SettlementOfPlan(nodes: seq<Node>, matched: IdMap, vault: Forest, policy: ConflictPolicy, plan: ImportPlan, r: ImportPlan)
    requires Settlement(nodes, matched, vault, policy, plan) && r == plan.(conflicts := r.conflicts)
    ensures Settlement(nodes, matched, vault, policy, r)
  {
    hide Inserts, TakesOver, NamesMet, ListsIds, Apart, Met;
  }

  /** With "keep both" there is nothing to settle. */
  lemma {:induction false} BothKept(nodes: seq<Node>, matched: IdMap, vault: Forest, plan: ImportPlan)
    requires Drafted(nodes, matched, vault, KeepBoth, plan)
    ensures var r := Remapped(plan);
            r.inserts == nodes && r.updates == [] && r.ids == map[] && r.skipped == {} && r.merged == 0
  {
    hide RemapNode, Apart, Met, AllAssume, ListsIds;
    NoneMet(nodes);
    assert plan.ids == map[];
    forall i | 0 <= i < |nodes| ensures RemapNode(nodes[i], map[]) == nodes[i] {
      RemapByNothing(nodes[i]);
    }
    assert Remapped(plan).inserts == nodes;
  }

  lemma {:induction false} NoneMet(nodes: seq<Node>)
    ensures Apart(nodes, {}) == nodes && Met(nodes, {}, true) == [] && Met(nodes, {}, false) == []
  {
    if nodes != [] {
      NoneMet(nodes[..|nodes| - 1]);
    }
  }

  lemma {:induction false} RemapByNothing(n: Node)
    ensures RemapNode(n, map[]) == n
  {
    hide MapKind;
    MapReferencesFixed(n, RetargetBy(map[]));
    assert MapReferences(n, RetargetBy(map[])) == n;
  }

  /** `conflicts::resolve`, in any tree: the plan, and every collision with the name, label and vault node it is about. */
  method ResolveConflicts(nodes: seq<Node>, tree: Tree, destination: Option<NodeId>, policy: ConflictPolicy) returns (r: ImportPlan)
    ensures var candidates := CandidatesOf(nodes, destination);
            var collided := Collisions(candidates, |nodes|, tree.nodes, tree.children, destination);
            && (forall i :: 0 <= i < |collided| ==> collided[i].0 < |candidates|)
            && r == Remapped(Plan(nodes, Matching(nodes, tree.nodes, tree.children, destination), tree.nodes, policy))
                    .(conflicts := ConflictsOf(candidates, collided))
    ensures Settlement(nodes, Matching(nodes, tree.nodes, tree.children, destination), tree.nodes, policy, r)
    ensures policy.KeepBoth? ==> r.inserts == nodes && r.updates == [] && r.ids == map[] && r.skipped == {} && r.merged == 0
  {
    hide MatchUpTo, Collisions, Legal, Indexed, RemapNode, Settlement, Drafted;
    var candidates := CandidatesOf(nodes, destination);
    var collided, byImport := Matches(candidates, tree, destination);
    CollisionsInRange(candidates, |candidates|, tree.nodes, tree.children, destination);
    var plan := ImportPlan([], [], map[], {}, 0, []);
    for i := 0 to |nodes|
      invariant plan == Plan(nodes[..i], byImport, tree.nodes, policy)
    {
      var n := nodes[i];
      assert nodes[..i + 1][..i] == nodes[..i];
      plan := Extended(plan, n, FateOf(n, byImport, tree.nodes, policy), tree.nodes);
    }
    assert nodes[..|nodes|] == nodes;
    PlanDrafted(nodes, byImport, tree.nodes, policy);
    DraftSettles(nodes, byImport, tree.nodes, policy, plan);
    r := Remapped(plan).(conflicts := ConflictsOf(candidates, collided));
    SettlementOfPlan(nodes, byImport, tree.nodes, policy, Remapped(plan), r);
    if policy.KeepBoth? {
      BothKept(nodes, byImport, tree.nodes, plan);
    }
  }

  // Conservation.

  /** `total` nodes with these ids are accounted for by the plan, each in exactly one way. */
  ghost predicate Conserved(total: nat, ids: set<NodeId>, plan: ImportPlan) {
    && total == |plan.inserts| + |plan.updates| + |plan.skipped| + plan.merged
    && Parted(plan.ids.Keys, IdSet(plan.inserts), ids)
    && plan.skipped <= plan.ids.Keys
  }

  ghost predicate Parted(a: set<NodeId>, b: set<NodeId>, all: set<NodeId>) {
    a + b == all && a !! b
  }

  lemma PartedGrows(a: set<NodeId>, b: set<NodeId>, all: set<NodeId>, x: NodeId)
    requires Parted(a, b, all) && x !in all
    ensures x !in a && Parted(a + {x}, b, all + {x}) && Parted(a, b + {x}, all + {x})
  {
  }

  lemma {:induction false} ExtendConserves(total: nat, ids: set<NodeId>, plan: ImportPlan, n: Node, fate: Fate, vault: Forest)
    requires Conserved(total, ids, plan) && n.id !in ids && (fate.Replaces? ==> fate.target in vault)
    ensures Conserved(total + 1, ids + {n.id}, Extended(plan, n, fate, vault))
  {
    hide IdSet, Adopted, Parted, Conserved;
    match fate
    case Inserted => InsertConserves(total, ids, plan, n);
    case Merged(into) => KeyConserves(total, ids, plan, plan.(ids := plan.ids[n.id := into], merged := plan.merged + 1), n.id);
    case Skipped(existing) => SkipConserves(total, ids, plan, n.id, existing);
    case Replaces(target) =>
      KeyConserves(total, ids, plan, plan.(ids := plan.ids[n.id := target], updates := plan.updates + [Adopted(n, vault[target])]), n.id);
  }

  lemma InsertConserves(total: nat, ids: set<NodeId>, plan: ImportPlan, n: Node)
    requires Conserved(total, ids, plan) && n.id !in ids
    ensures Conserved(total + 1, ids + {n.id}, plan.(inserts := plan.inserts + [n]))
  {
    hide IdSet, Parted;
    PartedGrows(plan.ids.Keys, IdSet(plan.inserts), ids, n.id);
    IdAdded(plan.inserts, n);
  }

  /** The node's id is mapped, and one of the counts goes up. */
  lemma KeyConserves(total: nat, ids: set<NodeId>, plan: ImportPlan, after: ImportPlan, x: NodeId)
    requires Conserved(total, ids, plan) && x !in ids
    requires after.ids.Keys == plan.ids.Keys + {x} && after.inserts == plan.inserts && after.skipped == plan.skipped
    requires |after.updates| + after.merged == |plan.updates| + plan.merged + 1
    ensures Conserved(total + 1, ids + {x}, after)
  {
    hide IdSet, Parted;
    PartedGrows(plan.ids.Keys, IdSet(plan.inserts), ids, x);
  }

  lemma SkipConserves(total: nat, ids: set<NodeId>, plan: ImportPlan, x: NodeId, existing: NodeId)
    requires Conserved(total, ids, plan) && x !in ids
    ensures Conserved(total + 1, ids + {x}, plan.(ids := plan.ids[x := existing], skipped := plan.skipped + {x}))
  {
    hide IdSet, Parted;
    PartedGrows(plan.ids.Keys, IdSet(plan.inserts), ids, x);
    assert x !in plan.skipped;
    assert plan.ids[x := existing].Keys == plan.ids.Keys + {x};
  }

  /** Every imported node is inserted, updates one in the vault, is skipped or merges: none is lost or counted twice. */
  lemma {:induction false} PlanConserves(nodes: seq<Node>, matched: IdMap, vault: Forest, policy: ConflictPolicy)
    requires DistinctIds(nodes)
    ensures Conserved(|nodes|, IdSet(nodes), Plan(nodes, matched, vault, policy))
  {
    hide IdSet, DistinctIds, Conserved, Extended;
    if nodes == [] {
      NothingConserved();
    } else {
      var rest, n := nodes[..|nodes| - 1], nodes[|nodes| - 1];
      LastIsNew(nodes);
      PlanConserves(rest, matched, vault, policy);
      assert nodes == rest + [n];
      IdAdded(rest, n);
      ExtendConserves(|rest|, IdSet(rest), Plan(rest, matched, vault, policy), n, FateOf(n, matched, vault, policy), vault);
    }
  }

  lemma NothingConserved()
    ensures IdSet([]) == {} && Conserved(0, IdSet([]), ImportPlan([], [], map[], {}, 0, []))
  {
  }

  lemma IdAdded(nodes: seq<Node>, n: Node)
    ensures IdSet(nodes + [n]) == IdSet(nodes) + {n.id}
  {
    IdSetGrows(nodes, [n]);
    assert IdSet([n]) == {n.id};
  }

  lemma LastIsNew(nodes: seq<Node>)
    requires nodes != [] && DistinctIds(nodes)
    ensures nodes[|nodes| - 1].id !in IdSet(nodes[..|nodes| - 1]) && DistinctIds(nodes[..|nodes| - 1])
  {
    var rest := nodes[..|nodes| - 1];
    forall m | m in rest ensures m.id != nodes[|nodes| - 1].id {
      var i :| 0 <= i < |rest| && rest[i] == m;
      assert nodes[i] == m;
    }
  }

  /** Where each part of the plan comes from. */
  lemma {:induction false} PlanMembers(nodes: seq<Node>, matched: IdMap, vault: Forest, policy: ConflictPolicy)
    ensures var plan := Plan(nodes, matched, vault, policy);
            && (forall n :: n in plan.inserts <==> n in nodes && FateOf(n, matched, vault, policy).Inserted?)
            && (forall u :: u in plan.updates ==> exists n :: n in nodes && FateOf(n, matched, vault, policy).Replaces?
                                                   && matched[n.id] in vault && u == Adopted(n, vault[matched[n.id]]))
            && (forall id :: id in plan.ids ==> id in matched && plan.ids[id] == matched[id] && plan.ids[id] in vault)
            && (forall n :: n in nodes && !FateOf(n, matched, vault, policy).Inserted? ==> n.id in plan.ids)
  {
    hide Adopted;
    if nodes != [] {
      var rest, n := nodes[..|nodes| - 1], nodes[|nodes| - 1];
      PlanMembers(rest, matched, vault, policy);
      assert nodes == rest + [n];
    }
  }
}
