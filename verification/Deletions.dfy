/** Soft deletion and the tombstoning of references (crates/remoter-core/src/tree.rs:523-590, 1259-1314). */
module Deletions {
  import opened Base
  import opened Inheritance
  import opened Nodes
  import opened Validation
  import opened Lineages
  import opened Forests
  import opened Loops
  import opened Resolution
  import opened Transport

  /** The subtree of `id`, and every credential attached to a member of it. */
  ghost function Doomed(nodes: Forest, id: NodeId): set<NodeId> {
    set x | x in nodes && (Below(Parents(nodes), id, x) || OwnerBelow(nodes, id, x))
  }

  ghost predicate OwnerBelow(nodes: Forest, id: NodeId, x: NodeId)
    requires x in nodes
  {
    AttachedTo(nodes[x]).Some? && Below(Parents(nodes), id, AttachedTo(nodes[x]).value)
  }

  function Names(nodes: Forest, ids: set<NodeId>): map<NodeId, string> {
    map x | x in ids && x in nodes :: nodes[x].name
  }

  /** A live reference to a deleted node becomes a tombstone with that node's name. */
  function Tombstone(ref: NodeRef, names: map<NodeId, string>): NodeRef {
    if ref.Live? && ref.id in names then Deleted(ref.id, names[ref.id]) else ref
  }

  function Tombstoning(names: map<NodeId, string>): Rewrite {
    ref => Tombstone(ref, names)
  }

  /** `tombstone_refs`, without the flag: a node changes exactly when this differs from it. */
  function TombstoneReferences(n: Node, names: map<NodeId, string>): Node {
    MapReferences(n, Tombstoning(names))
  }

  predicate HoldsLive(n: Node, ids: set<NodeId>) {
    exists ref :: ref in References(n) && ref.Live? && ref.id in ids
  }

  /** One node after the deletion of `names`. */
  function Buried(n: Node, names: map<NodeId, string>, now: int): Node {
    if n.id in names then
      if n.deletedAt.None? then Touch(n.(deletedAt := Some(now)), now) else n
    else if TombstoneReferences(n, names) != n then Touch(TombstoneReferences(n, names), now)
    else n
  }

  ghost function SoftDeleted(nodes: Forest, id: NodeId, now: int): Forest {
    map x | x in nodes :: Buried(nodes[x], Names(nodes, Doomed(nodes, id)), now)
  }

  ghost function DeleteError(nodes: Forest, id: NodeId): Option<CoreError> {
    if id !in nodes then Some(NodeNotFound(id)) else if OnLoop(Parents(nodes), id) then Some(CorruptTree) else None
  }

  /** In a grounded tree that is the subtree by parent chains. */
  lemma {:induction false} DoomedGrounded(nodes: Forest, id: NodeId, x: NodeId)
    requires Grounded(nodes) && id in nodes && x in nodes
    ensures x in Doomed(nodes, id) <==>
            || Under(Parents(nodes), id, x)
            || (AttachedTo(nodes[x]).Some? && Under(Parents(nodes), id, AttachedTo(nodes[x]).value))
  {
    hide Lineage, Rooted, Climb;
    var par := Parents(nodes);
    assert Placed(nodes, x);
    BelowIsUnder(par, id, x);
    var owner := AttachedTo(nodes[x]);
    if owner.Some? && owner.value in nodes {
      assert Placed(nodes, owner.value);
      BelowIsUnder(par, id, owner.value);
    } else if owner.Some? {
      NotBelow(par, id, owner.value);
    }
  }

  lemma NotBelow(par: ParentMap, id: NodeId, x: NodeId)
    requires x !in par && id in par
    ensures !Below(par, id, x) && !Under(par, id, x)
  {
  }

  lemma NamesKeys(nodes: Forest, id: NodeId)
    ensures Names(nodes, Doomed(nodes, id)).Keys == Doomed(nodes, id)
  {
  }

  /** The change flag is honest: something changed exactly when a live reference pointed into the deleted set. */
  lemma {:induction false} TombstoneChanges(n: Node, names: map<NodeId, string>)
    ensures TombstoneReferences(n, names) != n <==> HoldsLive(n, names.Keys)
    ensures !HoldsLive(TombstoneReferences(n, names), names.Keys)
    ensures References(TombstoneReferences(n, names)) == MapSeq(References(n), Tombstoning(names))
  {
    hide References, MapReferences;
    MapReferencesFixed(n, Tombstoning(names));
    ReferencesMapped(n, Tombstoning(names));
  }

  lemma TombstonedKind(n: Node, names: map<NodeId, string>, now: int)
    ensures Label(Buried(n, names, now).kind) == Label(n.kind)
    ensures n.kind.Credential? ==> Buried(n, names, now).kind == n.kind
    ensures AttachedTo(Buried(n, names, now)) == AttachedTo(n)
    ensures Buried(n, names, now).kind.Folder? <==> n.kind.Folder?
  {
  }

  lemma BuriedShape(n: Node, names: map<NodeId, string>, now: int)
    ensures SameScalars(n, Buried(n, names, now))
  {
    hide SameScalars, MapKind;
    SameScalarsSelf(n);
    MapKeepsShape(n, Tombstoning(names));
    var m := Buried(n, names, now);
    if m.kind == n.kind {
      SameScalarsOfKind(n, n, m);
    } else {
      SameScalarsOfKind(n, TombstoneReferences(n, names), m);
    }
  }

  lemma BuriedPlace(n: Node, names: map<NodeId, string>, now: int)
    ensures Buried(n, names, now).id == n.id && Buried(n, names, now).parentId == n.parentId
    ensures Buried(n, names, now).sortOrder == n.sortOrder && Buried(n, names, now).name == n.name
  {
  }

  lemma {:induction false} BuriedValid(n: Node, names: map<NodeId, string>, now: int)
    requires ValidateNode(n).None?
    ensures ValidateNode(Buried(n, names, now)).None?
  {
    hide MapReferences, ValidateKind, References;
    MappedNodeValid(n, Tombstoning(names));
    var m := Buried(n, names, now);
    assert m.kind == n.kind || m.kind == TombstoneReferences(n, names).kind;
    TouchedValid(n, now);
    TouchedValid(n.(deletedAt := Some(now)), now);
    TouchedValid(TombstoneReferences(n, names), now);
    DeletedValid(n, now);
  }

  lemma TouchedValid(n: Node, now: int)
    ensures ValidateNode(Touch(n, now)) == ValidateNode(n)
  {
    hide ValidateNode;
    SameVerdict(Touch(n, now), n);
  }

  lemma DeletedValid(n: Node, now: int)
    ensures ValidateNode(n.(deletedAt := Some(now))) == ValidateNode(n)
  {
    hide ValidateNode;
    SameVerdict(n.(deletedAt := Some(now)), n);
  }

  lemma {:induction false} DeletionKeepsPlaces(nodes: Forest, id: NodeId, now: int)
    ensures SoftDeleted(nodes, id, now).Keys == nodes.Keys
    ensures Parents(SoftDeleted(nodes, id, now)) == Parents(nodes)
    ensures forall x :: x in nodes ==>
              SoftDeleted(nodes, id, now)[x] == Buried(nodes[x], Names(nodes, Doomed(nodes, id)), now)
  {
    hide Buried, Doomed;
    var after := SoftDeleted(nodes, id, now);
    forall x | x in nodes ensures after[x].parentId == nodes[x].parentId {
      BuriedPlace(nodes[x], Names(nodes, Doomed(nodes, id)), now);
    }
    assert Parents(after) == Parents(nodes);
  }

  /** Deleting keeps every node valid under its own id, and every place. */
  lemma {:induction false} DeleteKeepsSound(nodes: Forest, id: NodeId, now: int)
    requires Keyed(nodes) && AllValid(nodes)
    ensures Keyed(SoftDeleted(nodes, id, now)) && AllValid(SoftDeleted(nodes, id, now))
    ensures Parents(SoftDeleted(nodes, id, now)) == Parents(nodes)
    ensures Grounded(nodes) ==> Grounded(SoftDeleted(nodes, id, now))
  {
    hide Lineage, Rooted, Climb, Doomed, Buried, ValidateNode, SoftDeleted;
    var after, names := SoftDeleted(nodes, id, now), Names(nodes, Doomed(nodes, id));
    DeletionKeepsPlaces(nodes, id, now);
    forall x | x in after ensures after[x].id == x && ValidateNode(after[x]).None? {
      BuriedPlace(nodes[x], names, now);
      BuriedValid(nodes[x], names, now);
    }
    forall x | x in after && Grounded(nodes) ensures Placed(after, x) {
      assert Placed(nodes, x);
    }
  }

  lemma {:induction false} DeleteKeepsStored(nodes: Forest, id: NodeId, now: int)
    requires Stored(nodes)
    ensures Stored(SoftDeleted(nodes, id, now))
  {
    hide AllValid, SoftDeleted, Grounded;
    var after := SoftDeleted(nodes, id, now);
    DeleteKeepsSound(nodes, id, now);
    assert forall x :: x in after ==> Parents(after)[x] == after[x].parentId && Parents(nodes)[x] == nodes[x].parentId;
  }

  /** Deleting keeps the tree legal. */
  lemma {:induction false} DeleteKeepsLegal(nodes: Forest, id: NodeId, now: int)
    requires Legal(nodes)
    ensures Legal(SoftDeleted(nodes, id, now))
  {
    hide Grounded, AllValid, Doomed, Buried, SoftDeleted;
    var after, names := SoftDeleted(nodes, id, now), Names(nodes, Doomed(nodes, id));
    DeleteKeepsSound(nodes, id, now);
    DeletionKeepsPlaces(nodes, id, now);
    forall x | x in after ensures HeldByFolder(after, x) {
      assert HeldByFolder(nodes, x);
      BuriedPlace(nodes[x], names, now);
      if nodes[x].parentId.Some? {
        TombstonedKind(nodes[nodes[x].parentId.value], names, now);
      }
    }
  }

  /** Going up from `x`, or from what `x` is attached to, passes `id`. */
  ghost predicate Goes(nodes: Forest, id: NodeId, x: NodeId)
    requires x in nodes
  {
    || Below(Parents(nodes), id, x)
    || (nodes[x].kind.Credential? && nodes[x].kind.props.attachedTo.Some? && Below(Parents(nodes), id, nodes[x].kind.props.attachedTo.value))
  }

  /** The reference of a survivor afterwards: a live one to a deleted node is a tombstone that keeps its name. */
  ghost predicate Mourns(before: Forest, id: NodeId, was: NodeRef, got: NodeRef) {
    if was.Live? && was.id in before && Goes(before, id, was.id) then got == Deleted(was.id, before[was.id].name) else got == was
  }

  ghost predicate Rewrites(before: Forest, id: NodeId, was: Node, got: Node) {
    && SameScalars(was, got) && |References(got)| == |References(was)|
    && forall i :: 0 <= i < |References(was)| ==> Mourns(before, id, References(was)[i], References(got)[i])
  }

  /**
   What a deletion stores. Of the nodes that go, those not yet deleted are marked with the time and a later
   revision, and nothing else about them changes. A survivor that refers to one of them gets the tombstones,
   the time and a later revision; the others stay as they are.
   */
  ghost predicate Buries(before: Forest, after: Forest, id: NodeId, now: int) {
    after.Keys == before.Keys && forall x {:trigger after[x]} :: x in before ==>
      var was, got := before[x], after[x];
      if Goes(before, id, x) then
        if was.deletedAt.Some? then got == was
        else got == was.(deletedAt := Some(now), updatedAt := now, revision := got.revision) && Later(was.revision, got.revision, 1)
      else
        && Rewrites(before, id, was, got)
        && (if References(got) == References(was) then got == was
            else got == was.(kind := got.kind, updatedAt := now, revision := got.revision) && Later(was.revision, got.revision, 1))
  }

  lemma {:induction false} DeletionBuries(nodes: Forest, id: NodeId, now: int)
    requires Keyed(nodes)
    ensures Buries(nodes, SoftDeleted(nodes, id, now), id, now)
  {
    hide Doomed, SoftDeleted, Buried, Below, References, Rewrites;
    var after, names := SoftDeleted(nodes, id, now), Names(nodes, Doomed(nodes, id));
    DeletionKeepsPlaces(nodes, id, now);
    forall x | x in nodes
      ensures var was, got := nodes[x], after[x];
              if Goes(nodes, id, x) then
                if was.deletedAt.Some? then got == was
                else got == was.(deletedAt := Some(now), updatedAt := now, revision := got.revision) && Later(was.revision, got.revision, 1)
              else
                && Rewrites(nodes, id, was, got)
                && (if References(got) == References(was) then got == was
                    else got == was.(kind := got.kind, updatedAt := now, revision := got.revision) && Later(was.revision, got.revision, 1))
    {
      GoesIsDoomed(nodes, id, x);
      NamesKeys(nodes, id);
      if Goes(nodes, id, x) {
        BuriedGoes(nodes[x], names, now);
      } else {
        SurvivorRewritten(nodes, id, now, x);
      }
    }
  }

  lemma DoomedInside(nodes: Forest, id: NodeId)
    ensures Doomed(nodes, id) <= nodes.Keys
  {
  }

  lemma GoesIsDoomed(nodes: Forest, id: NodeId, x: NodeId)
    requires x in nodes
    ensures x in Doomed(nodes, id) <==> Goes(nodes, id, x)
  {
    hide Below;
  }

  lemma BuriedGoes(n: Node, names: map<NodeId, string>, now: int)
    requires n.id in names
    ensures var got := Buried(n, names, now);
            if n.deletedAt.Some? then got == n
            else got == n.(deletedAt := Some(now), updatedAt := now, revision := got.revision) && Later(n.revision, got.revision, 1)
  {
  }

  lemma {:induction false} SurvivorRewritten(nodes: Forest, id: NodeId, now: int, x: NodeId)
    requires Keyed(nodes) && x in nodes && x !in Doomed(nodes, id)
    ensures var was, got := nodes[x], Buried(nodes[x], Names(nodes, Doomed(nodes, id)), now);
            && Rewrites(nodes, id, was, got)
            && (if References(got) == References(was) then got == was
                else got == was.(kind := got.kind, updatedAt := now, revision := got.revision) && Later(was.revision, got.revision, 1))
  {
    hide Doomed, References, MapKind, Goes;
    var names := Names(nodes, Doomed(nodes, id));
    var was, told := nodes[x], TombstoneReferences(nodes[x], names);
    NamesKeys(nodes, id);
    TombstoneChanges(was, names);
    TouchKeepsReferences(told, now);
    BuriedShape(was, names, now);
    ReferencesFixed(was, names);
    forall i | 0 <= i < |References(was)| ensures Mourns(nodes, id, References(was)[i], References(told)[i]) {
      var ref := References(was)[i];
      if ref.id in nodes {
        GoesIsDoomed(nodes, id, ref.id);
      }
    }
  }

  lemma {:induction false} ReferencesFixed(n: Node, names: map<NodeId, string>)
    ensures References(TombstoneReferences(n, names)) == References(n) ==> TombstoneReferences(n, names) == n
  {
    hide References, MapReferences;
    TombstoneChanges(n, names);
    MapReferencesFixed(n, Tombstoning(names));
    if References(TombstoneReferences(n, names)) == References(n) {
      forall ref | ref in References(n) ensures Tombstoning(names)(ref) == ref {
        var i :| 0 <= i < |References(n)| && References(n)[i] == ref;
        assert MapSeq(References(n), Tombstoning(names))[i] == Tombstoning(names)(ref);
      }
    }
  }

  /** The survivors `soft_delete` rewrites, and so reports as updated. */
  function Referrers(nodes: Forest, doomed: set<NodeId>): set<NodeId> {
    set x | x in nodes && x !in doomed && HoldsLive(nodes[x], doomed)
  }

  /**
   Deletion is closed: no survivor is left with a live reference to a deleted node, every
   other reference is untouched, and exactly the referrers change.
   */
  lemma {:induction false} DeleteIsClosed(nodes: Forest, id: NodeId, now: int, x: NodeId)
    requires Keyed(nodes) && x in nodes && x !in Doomed(nodes, id)
    ensures SoftDeleted(nodes, id, now).Keys == nodes.Keys
    ensures var after := SoftDeleted(nodes, id, now)[x];
            && !HoldsLive(after, Doomed(nodes, id))
            && References(after) == MapSeq(References(nodes[x]), Tombstoning(Names(nodes, Doomed(nodes, id))))
            && (x in Referrers(nodes, Doomed(nodes, id)) <==> after != nodes[x])
            && after.deletedAt == nodes[x].deletedAt
  {
    hide Doomed, References, MapKind;
    NamesKeys(nodes, id);
    TombstoneChanges(nodes[x], Names(nodes, Doomed(nodes, id)));
    TouchKeepsReferences(TombstoneReferences(nodes[x], Names(nodes, Doomed(nodes, id))), now);
  }

  lemma TouchKeepsReferences(n: Node, now: int)
    ensures References(Touch(n, now)) == References(n)
  {
  }

  lemma {:induction false} DoomedStable(nodes: Forest, id: NodeId, now: int)
    ensures Doomed(SoftDeleted(nodes, id, now), id) == Doomed(nodes, id)
    ensures Names(SoftDeleted(nodes, id, now), Doomed(nodes, id)) == Names(nodes, Doomed(nodes, id))
  {
    hide Below, Buried, SoftDeleted;
    var after, names := SoftDeleted(nodes, id, now), Names(nodes, Doomed(nodes, id));
    DeletionKeepsPlaces(nodes, id, now);
    forall x | x in nodes ensures AttachedTo(after[x]) == AttachedTo(nodes[x]) && after[x].name == nodes[x].name {
      TombstonedKind(nodes[x], names, now);
      BuriedPlace(nodes[x], names, now);
    }
  }

  lemma {:induction false} BuriedTwice(n: Node, names: map<NodeId, string>, now: int, later: int)
    ensures Buried(Buried(n, names, now), names, later) == Buried(n, names, now)
  {
    hide References, MapKind;
    TombstoneChanges(n, names);
    TouchKeepsReferences(TombstoneReferences(n, names), now);
    TombstoneChanges(Touch(TombstoneReferences(n, names), now), names);
  }

  /** Deleting again, at any later time, changes nothing, tombstones nothing and updates nobody. */
  lemma {:induction false} DeleteIsIdempotent(nodes: Forest, id: NodeId, now: int, later: int)
    requires Keyed(nodes)
    ensures var after := SoftDeleted(nodes, id, now);
            && SoftDeleted(after, id, later) == after
            && (forall x :: x in Doomed(after, id) ==> after[x].deletedAt.Some?)
            && Referrers(after, Doomed(after, id)) == {}
  {
    hide Doomed, Buried, SoftDeleted;
    var after, names := SoftDeleted(nodes, id, now), Names(nodes, Doomed(nodes, id));
    DeletionKeepsPlaces(nodes, id, now);
    DeletionKeepsPlaces(after, id, later);
    DoomedStable(nodes, id, now);
    NamesKeys(nodes, id);
    forall x | x in nodes
      ensures SoftDeleted(after, id, later)[x] == after[x]
      ensures x in Doomed(nodes, id) ==> after[x].deletedAt.Some?
      ensures x !in Doomed(nodes, id) ==> !HoldsLive(after[x], Doomed(nodes, id))
    {
      BuriedTwice(nodes[x], names, now, later);
      BuriedDeleted(nodes[x], names, now);
      if x !in Doomed(nodes, id) {
        DeleteIsClosed(nodes, id, now, x);
      }
    }
    assert SoftDeleted(after, id, later) == after;
  }

  lemma BuriedDeleted(n: Node, names: map<NodeId, string>, now: int)
    ensures n.id in names ==> Buried(n, names, now).deletedAt.Some?
  {
  }

  /** Nothing above a survivor is deleted; where an update has left a credential with children, nothing but credentials. */
  lemma {:induction false} AncestorsSurvive(nodes: Forest, id: NodeId, x: NodeId)
    requires Sound(nodes) && id in nodes && x in nodes && x !in Doomed(nodes, id)
    ensures forall y :: y in Lineage(Parents(nodes), Some(x)) ==> y in nodes && (y in Doomed(nodes, id) ==> nodes[y].kind.Credential?)
    ensures Legal(nodes) ==> forall y :: y in Lineage(Parents(nodes), Some(x)) ==> y !in Doomed(nodes, id)
  {
    hide Lineage, Rooted, Climb, Below, AllValid;
    var par := Parents(nodes);
    DepthStep(nodes, x);
    LineageChain(par, Some(x));
    BelowIsUnder(par, id, x);
    forall y | y in Lineage(par, Some(x))
      ensures y in Doomed(nodes, id) ==> nodes[y].kind.Credential?
      ensures Legal(nodes) ==> y !in Doomed(nodes, id)
    {
      DepthStep(nodes, y);
      BelowIsUnder(par, id, y);
      if Under(par, id, y) {
        UnderTransitive(par, id, y, x);
      }
      if y != x && Legal(nodes) {
        OnlyFoldersHold(nodes, y, x);
      }
    }
  }

  lemma BuriedMirrors(n: Node, names: map<NodeId, string>, now: int)
    requires n.id in names ==> n.kind.Credential?
    ensures Mirror(n, Buried(n, names, now), Same<NodeId>, Tombstoning(names))
  {
    var m := TombstoneReferences(n, names);
    assert FieldsOf(m) == if FieldsOf(n).Some? then Some(MapFields(FieldsOf(n).value, Tombstoning(names))) else None;
  }

  /** What a surviving connection resolves to afterwards. */
  function AfterDeletion(e: Effective, names: map<NodeId, string>): Effective {
    var lost := e.walked.credential.value.Some? && e.walked.credential.value.value.Live?
                && e.walked.credential.value.value.id in names;
    e.(walked := MapWalked(e.walked, Same<NodeId>, Tombstoning(names)),
       username := if lost then e.username.(value := None) else e.username,
       credentialAttached := if lost then false else e.credentialAttached)
  }

  /**
   Deletion never falls back silently: every surviving connection resolves each field from
   the same node as before, with its references to deleted nodes turned into tombstones in
   place. A lost credential stays the resolved one, named, and yields no username.
   */
  lemma {:induction false} NoSilentFallback(nodes: Forest, id: NodeId, now: int, x: NodeId)
    requires Sound(nodes) && id in nodes
    requires x in nodes && nodes[x].kind.Connection? && x !in Doomed(nodes, id)
    ensures EffectiveConnection(nodes, x).Ok?
    ensures EffectiveConnection(SoftDeleted(nodes, id, now), x)
            == Ok(AfterDeletion(EffectiveConnection(nodes, x).value, Names(nodes, Doomed(nodes, id))))
  {
    hide Lineage, Rooted, Climb, AllValid, Doomed, Buried, SoftDeleted, WalkedOf, MapWalked, EffectiveConnection, Mirror;
    var after, names := SoftDeleted(nodes, id, now), Names(nodes, Doomed(nodes, id));
    DeleteKeepsSound(nodes, id, now);
    DeletionKeepsPlaces(nodes, id, now);
    EffectiveAlongLineage(nodes, x);
    EffectiveAlongLineage(after, x);
    PathsMirror(nodes, id, now, x);
    var a, b := PathNodes(nodes, x), PathNodes(after, x);
    NamesKeys(nodes, id);
    SurvivingConnection(nodes[x], names, now);
    WalkedMirrors(nodes[x].kind.protocol, a, b, Same<NodeId>, Tombstoning(names));
    CredentialsAfter(nodes, id, now, x, WalkedOf(nodes[x].kind.protocol, a[0], a[1..]));
  }

  /** The references a resolved connection holds: its credential, and the hops of its route with theirs. */
  function ResolvedReferences(w: Walked): seq<NodeRef> {
    (if w.credential.value.Some? then [w.credential.value.value] else []) + HopReferences(w.gateway.value)
  }

  /**
   The deletion's patch reports no change of resolution; that is true of a surviving connection exactly
   when nothing it resolves to is a live reference to a deleted node.
   */
  lemma {:induction false} DeleteIsHonest(nodes: Forest, id: NodeId, now: int, x: NodeId)
    requires Sound(nodes) && id in nodes
    requires x in nodes && nodes[x].kind.Connection? && x !in Doomed(nodes, id)
    ensures EffectiveConnection(nodes, x).Ok?
    ensures EffectiveConnection(SoftDeleted(nodes, id, now), x) == EffectiveConnection(nodes, x) <==>
            !exists ref :: ref in ResolvedReferences(EffectiveConnection(nodes, x).value.walked) && ref.Live? && ref.id in Doomed(nodes, id)
  {
    hide Doomed, SoftDeleted, EffectiveConnection, MapHops, HopReferences, MapWalked, Sound;
    NoSilentFallback(nodes, id, now, x);
    NamesKeys(nodes, id);
    TombstonesKeep(EffectiveConnection(nodes, x).value, Names(nodes, Doomed(nodes, id)));
  }

  lemma {:induction false} TombstonesKeep(e: Effective, names: map<NodeId, string>)
    ensures AfterDeletion(e, names) == e <==> !exists ref :: ref in ResolvedReferences(e.walked) && ref.Live? && ref.id in names
  {
    hide MapHops, HopReferences, MapWalked;
    var w := e.walked;
    MapWalkedReferences(w, Tombstoning(names));
    HopsFixedExactly(w.gateway.value, Tombstoning(names));
    if w.credential.value.Some? {
      assert w.credential.value.value in ResolvedReferences(w);
    }
    forall ref ensures Tombstoning(names)(ref) == ref <==> !(ref.Live? && ref.id in names) {
    }
  }

  lemma SurvivingConnection(n: Node, names: map<NodeId, string>, now: int)
    requires n.id !in names && n.kind.Connection?
    ensures var m := Buried(n, names, now);
            m.kind.Connection? && m.kind.protocol == n.kind.protocol && m.kind.host == n.kind.host
            && m.name == n.name && m.id == n.id
  {
  }

  lemma {:induction false} PathsMirror(nodes: Forest, id: NodeId, now: int, x: NodeId)
    requires Sound(nodes) && id in nodes && x in nodes && x !in Doomed(nodes, id)
    ensures forall y :: y in Lineage(Parents(nodes), Some(x)) ==> y in nodes
    ensures SoftDeleted(nodes, id, now).Keys == nodes.Keys
    ensures Parents(SoftDeleted(nodes, id, now)) == Parents(nodes)
    ensures Mirrors(PathNodes(nodes, x), PathNodes(SoftDeleted(nodes, id, now), x),
                    Same<NodeId>, Tombstoning(Names(nodes, Doomed(nodes, id))))
  {
    hide Lineage, Rooted, Climb, Doomed, Buried, SoftDeleted, Mirror;
    var after, names := SoftDeleted(nodes, id, now), Names(nodes, Doomed(nodes, id));
    DeletionKeepsPlaces(nodes, id, now);
    AncestorsSurvive(nodes, id, x);
    NamesKeys(nodes, id);
    var a, b := PathNodes(nodes, x), PathNodes(after, x);
    forall i {:trigger a[i]} {:trigger b[i]} | 0 <= i < |a| ensures Mirror(a[i], b[i], Same<NodeId>, Tombstoning(names)) {
      var y := Lineage(Parents(nodes), Some(x))[i];
      assert y in Lineage(Parents(nodes), Some(x));
      BuriedMirrors(nodes[y], names, now);
    }
  }

  lemma {:induction false} CredentialsAfter(nodes: Forest, id: NodeId, now: int, x: NodeId, w: Walked)
    requires Keyed(nodes)
    ensures var after, names := SoftDeleted(nodes, id, now), Names(nodes, Doomed(nodes, id));
            var w' := MapWalked(w, Same<NodeId>, Tombstoning(names));
            var lost := w.credential.value.Some? && w.credential.value.value.Live? && w.credential.value.value.id in names;
            && Username(after, w'.credential)
               == (if lost then Username(nodes, w.credential).(value := None) else Username(nodes, w.credential))
            && Attached(after, w'.credential, x) == (!lost && Attached(nodes, w.credential, x))
  {
    hide Doomed, Buried, SoftDeleted;
    var after, names := SoftDeleted(nodes, id, now), Names(nodes, Doomed(nodes, id));
    DeletionKeepsPlaces(nodes, id, now);
    var ref := w.credential.value;
    if ref.Some? && ref.value.id in nodes {
      TombstonedKind(nodes[ref.value.id], names, now);
    }
  }
}
