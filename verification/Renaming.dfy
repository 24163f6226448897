/** Renaming ids throughout a set of nodes (crates/remoter-core/src/tree.rs:1173-1204, crates/remoter-core/src/node.rs:253-261). */
module Renaming {
  import opened Base
  import opened Inheritance
  import opened Nodes
  import opened Validation
  import opened Lineages
  import opened Forests
  import opened Resolution
  import opened Transport

  type IdMap = map<NodeId, NodeId>

  function Renamed(id: NodeId, m: IdMap): NodeId {
    if id in m then m[id] else id
  }

  function RenameBy(m: IdMap): Rename {
    id => Renamed(id, m)
  }

  /** `NodeRef::retarget`: a tombstone keeps its name. */
  function Retargeted(ref: NodeRef, m: IdMap): NodeRef {
    match ref
    case Live(id) => Live(Renamed(id, m))
    case Deleted(id, name) => Deleted(Renamed(id, m), name)
  }

  function RetargetBy(m: IdMap): Rewrite {
    ref => Retargeted(ref, m)
  }

  /** One node with every id the map names rewritten. */
  function RemapNode(n: Node, m: IdMap): Node {
    n.(id := Renamed(n.id, m),
       parentId := MapOption(n.parentId, RenameBy(m)),
       kind := if n.kind.Credential?
               then Credential(n.kind.props.(attachedTo := MapOption(n.kind.props.attachedTo, RenameBy(m))))
               else MapKind(n.kind, RetargetBy(m)))
  }

  function RemapAll(nodes: seq<Node>, m: IdMap): (r: seq<Node>)
    ensures |r| == |nodes| && forall i :: 0 <= i < |nodes| ==> r[i] == RemapNode(nodes[i], m)
  {
    MapSeq(nodes, n => RemapNode(n, m))
  }

  /** `remap`, in place. */
  method Remap(nodes: array<Node>, m: IdMap)
    modifies nodes
    ensures nodes[..] == RemapAll(old(nodes[..]), m)
  {
    for i := 0 to nodes.Length
      invariant forall j :: 0 <= j < i ==> nodes[j] == RemapNode(old(nodes[j]), m)
      invariant forall j :: i <= j < nodes.Length ==> nodes[j] == old(nodes[j])
    {
      nodes[i] := RemapNode(nodes[i], m);
    }
  }

  lemma RemappedReferences(n: Node, m: IdMap)
    ensures References(RemapNode(n, m)) == MapSeq(References(n), RetargetBy(m))
  {
    hide MapFields, FieldReferences, HopReferences;
    ReferencesMapped(n, RetargetBy(m));
  }

  lemma SameKindReferences(a: Node, b: Node)
    ensures a.kind == b.kind ==> References(a) == References(b)
  {
  }

  lemma RemappedScalars(n: Node, m: IdMap)
    ensures SameScalars(n, RemapNode(n, m))
  {
  }

  lemma RemappedAttachment(n: Node, m: IdMap)
    ensures AttachedTo(RemapNode(n, m)) == MapOption(AttachedTo(n), RenameBy(m))
  {
  }

  ghost predicate Injective(m: IdMap) {
    forall a, b :: a in m && b in m && m[a] == m[b] ==> a == b
  }

  /** An id outside the map that a node mentions is not one of the new ids. */
  ghost predicate FreshFor(m: IdMap, n: Node) {
    && (forall ref :: ref in References(n) && ref.id !in m ==> ref.id !in m.Values)
    && (AttachedTo(n).Some? && AttachedTo(n).value !in m ==> AttachedTo(n).value !in m.Values)
  }

  /** `after` holds exactly the nodes of `nodes` under their new ids. */
  ghost predicate RenamedTo(nodes: Forest, after: Forest, m: IdMap) {
    && m.Keys == nodes.Keys && Injective(m) && after.Keys == m.Values
    && (forall id :: id in nodes ==> FreshFor(m, nodes[id]))
    && forall id {:trigger m[id]} :: id in nodes ==> m[id] in after && after[m[id]] == RemapNode(nodes[id], m)
  }

  lemma RenamedInjective(m: IdMap, a: NodeId, b: NodeId)
    requires Injective(m) && (a in m || a !in m.Values) && (b in m || b !in m.Values)
    ensures Renamed(a, m) == Renamed(b, m) <==> a == b
  {
    assert a in m ==> m[a] in m.Values;
    assert b in m ==> m[b] in m.Values;
  }

  lemma {:induction false} RemappedValid(n: Node, m: IdMap)
    requires ValidateNode(n).None? && Injective(m) && FreshFor(m, n)
    ensures ValidateNode(RemapNode(n, m)).None?
  {
    hide References, MapKind, ValidateFields, ValidateSecret;
    forall a, b | a in References(n) && b in References(n) && Retargeted(a, m).id == Retargeted(b, m).id ensures a.id == b.id {
      RenamedInjective(m, a.id, b.id);
    }
    MappedNodeValid(n, RetargetBy(m));
    RemappedColumns(n, m);
  }

  lemma RemappedColumns(n: Node, m: IdMap)
    ensures ValidateColumns(RemapNode(n, m)) == ValidateColumns(n)
    ensures !n.kind.Credential? ==> RemapNode(n, m).kind == MapReferences(n, RetargetBy(m)).kind
    ensures ValidateColumns(MapReferences(n, RetargetBy(m))) == ValidateColumns(n)
  {
    hide MapKind;
  }

  /** Two parent maps that are the same up to renaming, with every parent inside. */
  ghost predicate LinksRenamed(par: ParentMap, after: ParentMap, m: IdMap) {
    && m.Keys == par.Keys && Injective(m) && after.Keys == m.Values
    && (forall x :: x in par && par[x].Some? ==> par[x].value in par)
    && forall x {:trigger m[x]} :: x in par ==> m[x] in after && after[m[x]] == MapOption(par[x], RenameBy(m))
  }

  /** Paths are renamed node by node. */
  lemma {:induction false} SegmentRenamed(par: ParentMap, after: ParentMap, m: IdMap, from: Option<NodeId>, p: seq<NodeId>, to: Option<NodeId>)
    requires LinksRenamed(par, after, m) && Segment(par, from, p, to)
    ensures Segment(after, MapOption(from, RenameBy(m)), MapSeq(p, RenameBy(m)), MapOption(to, RenameBy(m)))
    decreases |p|
  {
    hide LinksRenamed;
    if p != [] {
      SegmentRenamed(par, after, m, par[p[0]], p[1..], to);
      assert MapSeq(p, RenameBy(m))[1..] == MapSeq(p[1..], RenameBy(m));
      LinkRenamed(par, after, m, p[0]);
    }
  }

  lemma LinkRenamed(par: ParentMap, after: ParentMap, m: IdMap, x: NodeId)
    requires LinksRenamed(par, after, m) && x in par
    ensures x in m && Renamed(x, m) == m[x] && m[x] in after && after[m[x]] == MapOption(par[x], RenameBy(m))
  {
  }

  lemma {:induction false} LinksOfRenamed(nodes: Forest, after: Forest, m: IdMap)
    requires RenamedTo(nodes, after, m) && Contained(nodes)
    ensures LinksRenamed(Parents(nodes), Parents(after), m)
  {
    hide RemapNode, FreshFor;
    forall x | x in nodes
      ensures m[x] in after && after[m[x]].parentId == MapOption(nodes[x].parentId, RenameBy(m))
      ensures nodes[x].parentId.Some? ==> nodes[x].parentId.value in nodes
    {
      RemappedPlace(nodes[x], m);
      assert HeldByFolder(nodes, x);
    }
  }

  lemma RemappedPlace(n: Node, m: IdMap)
    ensures RemapNode(n, m).id == Renamed(n.id, m) && RemapNode(n, m).parentId == MapOption(n.parentId, RenameBy(m))
    ensures RemapNode(n, m).name == n.name && (RemapNode(n, m).kind.Folder? <==> n.kind.Folder?)
    ensures RemapNode(n, m).kind.Connection? <==> n.kind.Connection?
    ensures n.kind.Connection? ==>
              RemapNode(n, m).kind.protocol == n.kind.protocol && RemapNode(n, m).kind.host == n.kind.host
  {
  }

  lemma {:induction false} LineageRenamed(nodes: Forest, after: Forest, m: IdMap, x: NodeId)
    requires RenamedTo(nodes, after, m) && Legal(nodes) && x in nodes
    ensures Rooted(Parents(after), Some(m[x]))
    ensures Lineage(Parents(after), Some(m[x])) == MapSeq(Lineage(Parents(nodes), Some(x)), RenameBy(m))
  {
    hide Lineage, Rooted, Climb, RenamedTo, LinksRenamed;
    DepthStep(nodes, x);
    LineageChain(Parents(nodes), Some(x));
    LinksOfRenamed(nodes, after, m);
    SegmentRenamed(Parents(nodes), Parents(after), m, Some(x), Lineage(Parents(nodes), Some(x)), None);
    RenamedKey(nodes, after, m, x);
    LineageIs(Parents(after), Some(m[x]), MapSeq(Lineage(Parents(nodes), Some(x)), RenameBy(m)));
  }

  lemma RenamedKey(nodes: Forest, after: Forest, m: IdMap, x: NodeId)
    requires RenamedTo(nodes, after, m) && x in nodes
    ensures x in m && Renamed(x, m) == m[x] && m[x] in after && after[m[x]] == RemapNode(nodes[x], m)
  {
  }

  lemma RenamedFresh(nodes: Forest, after: Forest, m: IdMap)
    requires RenamedTo(nodes, after, m)
    ensures m.Keys == nodes.Keys && after.Keys == m.Values && Injective(m)
    ensures forall id {:trigger FreshFor(m, nodes[id])} :: id in nodes ==> FreshFor(m, nodes[id])
  {
  }

  /** A renamed tree is a legal tree: it can be built from the renamed nodes. */
  lemma {:induction false} RenamedLegal(nodes: Forest, after: Forest, m: IdMap)
    requires RenamedTo(nodes, after, m) && Legal(nodes)
    ensures Legal(after)
  {
    hide Lineage, Rooted, Climb, RemapNode, ValidateNode, FreshFor, HeldByFolder, Placed;
    forall y | y in after
      ensures after[y].id == y && ValidateNode(after[y]).None? && Placed(after, y) && HeldByFolder(after, y)
    {
      var x :| x in nodes && m[x] == y;
      RenamedKey(nodes, after, m, x);
      RemappedPlace(nodes[x], m);
      RemappedValid(nodes[x], m);
      RenamedPlaced(nodes, after, m, x);
      RenamedHeld(nodes, after, m, x);
    }
  }

  lemma {:induction false} RenamedPlaced(nodes: Forest, after: Forest, m: IdMap, x: NodeId)
    requires RenamedTo(nodes, after, m) && Legal(nodes) && x in nodes && x in m
    ensures Placed(after, m[x])
  {
    hide Lineage, Rooted, Climb, RemapNode, FreshFor, Contained, AllValid;
    LineageRenamed(nodes, after, m, x);
    assert Placed(nodes, x);
  }

  lemma RenamedHeld(nodes: Forest, after: Forest, m: IdMap, x: NodeId)
    requires RenamedTo(nodes, after, m) && x in nodes && m[x] in after && Contained(nodes)
    ensures HeldByFolder(after, m[x])
  {
    hide RemapNode;
    assert HeldByFolder(nodes, x);
    RemappedPlace(nodes[x], m);
    if nodes[x].parentId.Some? {
      RemappedPlace(nodes[nodes[x].parentId.value], m);
    }
  }

  lemma RemappedMirrors(n: Node, m: IdMap)
    ensures Mirror(n, RemapNode(n, m), RenameBy(m), RetargetBy(m))
  {
  }

  lemma {:induction false} RenamedPaths(nodes: Forest, after: Forest, m: IdMap, x: NodeId)
    requires RenamedTo(nodes, after, m) && Legal(nodes) && Legal(after) && x in nodes && m[x] in after
    ensures forall y :: y in Lineage(Parents(nodes), Some(x)) ==> y in nodes
    ensures forall y :: y in Lineage(Parents(after), Some(m[x])) ==> y in after
    ensures Mirrors(PathNodes(nodes, x), PathNodes(after, m[x]), RenameBy(m), RetargetBy(m))
  {
    hide Lineage, Rooted, Climb, RemapNode, RenamedTo, Mirror;
    RenamedKey(nodes, after, m, x);
    DepthStep(nodes, x);
    LineageChain(Parents(nodes), Some(x));
    DepthStep(after, m[x]);
    LineageChain(Parents(after), Some(m[x]));
    LineageRenamed(nodes, after, m, x);
    var a, b := PathNodes(nodes, x), PathNodes(after, m[x]);
    forall i {:trigger a[i]} {:trigger b[i]} | 0 <= i < |a| ensures Mirror(a[i], b[i], RenameBy(m), RetargetBy(m)) {
      var y := Lineage(Parents(nodes), Some(x))[i];
      assert y in Lineage(Parents(nodes), Some(x));
      RenamedKey(nodes, after, m, y);
      RemappedMirrors(nodes[y], m);
      assert b[i] == after[m[y]];
    }
  }

  /** The credential a path resolves to is one that a node of the path refers to. */
  lemma {:induction false} CredentialHeld(path: seq<Node>) returns (holder: Node)
    requires path != [] && Resolve(path[0], path[1..], CredentialField).value.Some?
    ensures holder in path && Resolve(path[0], path[1..], CredentialField).value.value in References(holder)
    decreases |path|
  {
    if FieldsOf(path[0]).Some? && FieldsOf(path[0]).value.credential.Explicit? {
      holder := path[0];
      assert References(holder) == FieldReferences(FieldsOf(holder).value);
    } else {
      assert path[1..] != [];
      holder := CredentialHeld(path[1..]);
    }
  }

  function RenamedConnection(e: Effective, m: IdMap): Effective {
    Effective(Renamed(e.node, m), e.name, e.protocol, e.host,
              MapWalked(e.walked, RenameBy(m), RetargetBy(m)), Relabel(e.username, RenameBy(m)), e.credentialAttached)
  }

  lemma {:induction false} AccountRenamed(nodes: Forest, after: Forest, m: IdMap, ref: NodeRef, x: NodeId)
    requires RenamedTo(nodes, after, m) && x in nodes && (ref.id in m || ref.id !in m.Values)
    ensures var props, props' := CredentialAt(nodes, Some(ref)), CredentialAt(after, Some(Retargeted(ref, m)));
            && (props.Some? <==> props'.Some?)
            && (props.Some? ==> props'.value.username == props.value.username)
            && (props.Some? ==> (props'.value.attachedTo == Some(m[x]) <==> props.value.attachedTo == Some(x)))
  {
    hide RenamedTo, Injective;
    RenamedKey(nodes, after, m, x);
    RenamedFresh(nodes, after, m);
    if ref.id in nodes {
      var n := nodes[ref.id];
      RenamedKey(nodes, after, m, ref.id);
      if n.kind.Credential? && n.kind.props.attachedTo.Some? {
        assert FreshFor(m, n);
        RenamedInjective(m, n.kind.props.attachedTo.value, x);
      }
    }
  }

  /**
   Renaming commutes with resolution: in the renamed tree every connection resolves to the
   renamed form of what it resolved to, through parents, credentials, hops and attachments.
   */
  lemma {:induction false} RenameCommutes(nodes: Forest, after: Forest, m: IdMap, x: NodeId)
    requires RenamedTo(nodes, after, m) && Legal(nodes) && x in nodes
    ensures m[x] in after && Legal(after)
    ensures EffectiveConnection(after, m[x]) ==
            match EffectiveConnection(nodes, x)
            case Ok(e) => Ok(RenamedConnection(e, m))
            case Err(_) => Err(NotAConnection(m[x]))
  {
    hide Lineage, Rooted, Climb, RemapNode, RenamedTo, WalkedOf, MapWalked, EffectiveConnection, CredentialAt;
    RenamedLegal(nodes, after, m);
    RenamedKey(nodes, after, m, x);
    RemappedPlace(nodes[x], m);
    if nodes[x].kind.Connection? {
      RenamedPaths(nodes, after, m, x);
      EffectiveAlongLineage(nodes, x);
      EffectiveAlongLineage(after, m[x]);
      var a, b := PathNodes(nodes, x), PathNodes(after, m[x]);
      WalkedMirrors(nodes[x].kind.protocol, a, b, RenameBy(m), RetargetBy(m));
      AccountsRenamed(nodes, after, m, x);
    } else {
      NotConnections(nodes, after, x, m[x]);
    }
  }

  lemma NotConnections(nodes: Forest, after: Forest, x: NodeId, y: NodeId)
    requires x in nodes && !nodes[x].kind.Connection? && y in after && !after[y].kind.Connection?
    ensures EffectiveConnection(nodes, x) == Err(NotAConnection(x))
    ensures EffectiveConnection(after, y) == Err(NotAConnection(y))
  {
  }

  lemma {:induction false} AccountsRenamed(nodes: Forest, after: Forest, m: IdMap, x: NodeId)
    requires RenamedTo(nodes, after, m) && Legal(nodes) && x in nodes && nodes[x].kind.Connection? && x in m
    requires forall y :: y in Lineage(Parents(nodes), Some(x)) ==> y in nodes
    requires Depth(nodes, x) > 0
    ensures var path := PathNodes(nodes, x);
            var w := WalkedOf(nodes[x].kind.protocol, path[0], path[1..]);
            var w' := MapWalked(w, RenameBy(m), RetargetBy(m));
            && Username(after, w'.credential) == Relabel(Username(nodes, w.credential), RenameBy(m))
            && Attached(after, w'.credential, m[x]) == Attached(nodes, w.credential, x)
  {
    hide Lineage, Rooted, Climb, RemapNode, CredentialAt, Resolve, RenamedTo, WalkedOf, MapWalked, References, Injective;
    RenamedFresh(nodes, after, m);
    var path := PathNodes(nodes, x);
    WalkedCredential(nodes[x].kind.protocol, path[0], path[1..], RenameBy(m), RetargetBy(m));
    var credential := Resolve(path[0], path[1..], CredentialField);
    if credential.value.Some? {
      var holder := CredentialHeld(path);
      var i :| 0 <= i < |path| && path[i] == holder;
      assert Lineage(Parents(nodes), Some(x))[i] in nodes;
      assert FreshFor(m, holder);
      AccountRenamed(nodes, after, m, credential.value.value, x);
    } else {
      NoCredential(nodes);
      NoCredential(after);
    }
  }

  lemma WalkedCredential(protocol: string, node: Node, ancestors: seq<Node>, r: Rename, tau: Rewrite)
    ensures var w := WalkedOf(protocol, node, ancestors);
            w.credential == Resolve(node, ancestors, CredentialField)
            && MapWalked(w, r, tau).credential == MapResolved(w.credential, r, tau)
  {
  }

  lemma NoCredential(nodes: Forest)
    ensures CredentialAt(nodes, None).None?
  {
  }

  /** Renaming neither makes nor breaks a path to the root. */
  lemma {:induction false} RootedRenamed(par: ParentMap, after: ParentMap, m: IdMap, x: NodeId)
    requires LinksRenamed(par, after, m) && x in par
    ensures m[x] in after && (Rooted(after, Some(m[x])) <==> Rooted(par, Some(x)))
  {
    hide Lineage, Rooted, Climb, Cyclic;
    assert m[x] in after;
    if Rooted(par, Some(x)) {
      LineageChain(par, Some(x));
      SegmentRenamed(par, after, m, Some(x), Lineage(par, Some(x)), None);
      LineageIs(after, Some(m[x]), MapSeq(Lineage(par, Some(x)), RenameBy(m)));
    } else {
      UnrootedIsCyclic(par, x);
      CyclicRenamed(par, after, m, par[x]);
      CyclicIsNotRooted(after, after[m[x]]);
      LineageStep(after, m[x]);
    }
  }

  lemma {:induction false} CyclicRenamed(par: ParentMap, after: ParentMap, m: IdMap, from: Option<NodeId>)
    requires LinksRenamed(par, after, m) && Cyclic(par, from)
    ensures Cyclic(after, MapOption(from, RenameBy(m)))
  {
    hide LinksRenamed;
    var tail, at, loop :| loop != [] && Segment(par, from, tail, at) && Segment(par, at, loop, at);
    SegmentRenamed(par, after, m, from, tail, at);
    SegmentRenamed(par, after, m, at, loop, at);
    assert MapSeq(loop, RenameBy(m)) != [];
  }
}
