/** Nodes and the properties they carry (crates/remoter-core/src/node.rs). */
module Nodes {
  import opened Base
  import opened Inheritance

  type Byte = b: nat | b < 0x100
  type Port = p: nat | p < 0x1_0000
  type U32 = n: nat | n < 0x1_0000_0000

  const MAX_REVISION: nat := 0xFFFF_FFFF_FFFF_FFFF

  /** A reference to another node, live or tombstoned. A credential reference is one of these. */
  datatype NodeRef = Live(id: NodeId) | Deleted(id: NodeId, name: string)

  /** A jump host and the credential for it, if it has its own; a route is a sequence of these. */
  datatype GatewayHop = GatewayHop(node: NodeRef, credential: Option<NodeRef>)

  datatype RecordingPolicy = NeverRecord | OnRequest | Always

  datatype ReconnectPolicy =
    | NeverReconnect
    | Retry(maxAttempts: U32, initialBackoffMs: U32, maxBackoffMs: U32)

  datatype GroupLayout = Tabs | SplitH | SplitV | Grid(rows: nat, cols: nat)

  datatype SecretKind =
    | Password(bytes: seq<Byte>)
    | PrivateKey(sealedKey: seq<Byte>, sealedPassphrase: Option<seq<Byte>>)
    | Agent(commentFilter: Option<string>)
    | External(provider: string, reference: string)
    | Certificate(sealedCert: seq<Byte>, certKey: seq<Byte>)

  /** The fields folders and connections both carry, one record here and two equal lists in the source. */
  datatype Inheritable = Inheritable(
    credential: Inherited<NodeRef>,
    gateway: Inherited<seq<GatewayHop>>,
    port: Inherited<Port>,
    connectTimeoutMs: Inherited<U32>,
    keepaliveSecs: Inherited<U32>,
    onConnect: Inherited<seq<string>>,
    onDisconnect: Inherited<seq<string>>,
    recording: Inherited<RecordingPolicy>,
    autoReconnect: Inherited<ReconnectPolicy>,
    settings: map<string, string>)

  const PLAIN := Inheritable(Inherit, Inherit, Inherit, Inherit, Inherit, Inherit, Inherit, Inherit, Inherit, map[])

  datatype CredentialProps = CredentialProps(
    attachedTo: Option<NodeId>,
    username: string,
    domain: Option<string>,
    secret: SecretKind,
    totp: Option<seq<Byte>>,
    expiresAt: Option<int>,
    allowedProtocols: seq<string>)

  datatype GroupProps = GroupProps(members: seq<NodeRef>, layout: GroupLayout, broadcast: bool)

  datatype NodeKind =
    | Folder(fields: Inheritable)
    | Connection(protocol: string, host: string, fields: Inheritable)
    | Credential(props: CredentialProps)
    | Group(group: GroupProps)
    | Separator

  datatype Node = Node(
    id: NodeId,
    parentId: Option<NodeId>,
    sortOrder: int,
    kind: NodeKind,
    name: string,
    description: string,
    tags: seq<string>,
    icon: Option<string>,
    colour: Option<string>,
    createdAt: int,
    updatedAt: int,
    revision: nat,
    customFields: map<string, string>,
    deletedAt: Option<int>)

  function Label(kind: NodeKind): string {
    match kind
    case Folder(_) => "folder"
    case Connection(_, _, _) => "connection"
    case Credential(_) => "credential"
    case Group(_) => "group"
    case Separator => "separator"
  }

  /** u64::saturating_add(1). */
  function Bump(revision: nat): nat {
    if revision < MAX_REVISION then revision + 1 else MAX_REVISION
  }

  /** `after` is `before` that many revisions later, as far as the counter goes. */
  ghost predicate Later(before: nat, after: nat, steps: nat) {
    after == if before + steps <= MAX_REVISION then before + steps else MAX_REVISION
  }

  function Touch(n: Node, now: int): Node {
    n.(revision := Bump(n.revision), updatedAt := now)
  }

  // The field accessors the resolver walks: None when the kind has no such field.

  function FieldsOf(n: Node): Option<Inheritable> {
    match n.kind
    case Folder(f) => Some(f)
    case Connection(_, _, f) => Some(f)
    case _ => None
  }

  function PortField(n: Node): Option<Inherited<Port>> {
    if FieldsOf(n).Some? then Some(FieldsOf(n).value.port) else None
  }

  function CredentialField(n: Node): Option<Inherited<NodeRef>> {
    if FieldsOf(n).Some? then Some(FieldsOf(n).value.credential) else None
  }

  function GatewayField(n: Node): Option<Inherited<seq<GatewayHop>>> {
    if FieldsOf(n).Some? then Some(FieldsOf(n).value.gateway) else None
  }

  function ConnectTimeoutField(n: Node): Option<Inherited<U32>> {
    if FieldsOf(n).Some? then Some(FieldsOf(n).value.connectTimeoutMs) else None
  }

  function KeepaliveField(n: Node): Option<Inherited<U32>> {
    if FieldsOf(n).Some? then Some(FieldsOf(n).value.keepaliveSecs) else None
  }

  function OnConnectField(n: Node): Option<Inherited<seq<string>>> {
    if FieldsOf(n).Some? then Some(FieldsOf(n).value.onConnect) else None
  }

  function OnDisconnectField(n: Node): Option<Inherited<seq<string>>> {
    if FieldsOf(n).Some? then Some(FieldsOf(n).value.onDisconnect) else None
  }

  function RecordingField(n: Node): Option<Inherited<RecordingPolicy>> {
    if FieldsOf(n).Some? then Some(FieldsOf(n).value.recording) else None
  }

  function AutoReconnectField(n: Node): Option<Inherited<ReconnectPolicy>> {
    if FieldsOf(n).Some? then Some(FieldsOf(n).value.autoReconnect) else None
  }

  function SettingsOf(n: Node): map<string, string> {
    if FieldsOf(n).Some? then FieldsOf(n).value.settings else map[]
  }

  function IconField(n: Node): Option<string> { n.icon }

  function ColourField(n: Node): Option<string> { n.colour }

  /** The test `update` uses to decide whether to report the whole subtree (node.rs:1247). */
  predicate InheritanceDiffers(a: Node, b: Node) {
    || FieldsOf(a) != FieldsOf(b)
    || a.icon != b.icon
    || a.colour != b.colour
  }

  function AttachedTo(n: Node): Option<NodeId> {
    if n.kind.Credential? then n.kind.props.attachedTo else None
  }

  predicate BelongsTo(n: Node, owner: NodeId) {
    AttachedTo(n) == Some(owner)
  }

  /** Every reference a node holds, in field order (node.rs:1173). */
  function References(n: Node): seq<NodeRef> {
    match n.kind
    case Group(g) => g.members
    case Folder(f) => FieldReferences(f)
    case Connection(_, _, f) => FieldReferences(f)
    case _ => []
  }

  function FieldReferences(f: Inheritable): seq<NodeRef> {
    (if f.credential.Explicit? then [f.credential.value] else []) +
    (if f.gateway.Explicit? then HopReferences(f.gateway.value) else [])
  }

  function HopReferences(hops: seq<GatewayHop>): seq<NodeRef> {
    if hops == [] then []
    else
      [hops[0].node]
      + (if hops[0].credential.Some? then [hops[0].credential.value] else [])
      + HopReferences(hops[1..])
  }

  // Rewriting every reference in place: the traversal `references_mut` drives.

  function MapHop(hop: GatewayHop, tau: NodeRef -> NodeRef): GatewayHop {
    GatewayHop(tau(hop.node), MapOption(hop.credential, tau))
  }

  function MapHops(hops: seq<GatewayHop>, tau: NodeRef -> NodeRef): seq<GatewayHop> {
    MapSeq(hops, hop => MapHop(hop, tau))
  }

  function RewriteHops(tau: NodeRef -> NodeRef): seq<GatewayHop> -> seq<GatewayHop> {
    hops => MapHops(hops, tau)
  }

  function MapFields(f: Inheritable, tau: NodeRef -> NodeRef): Inheritable {
    f.(credential := MapInherited(f.credential, tau),
       gateway := MapInherited(f.gateway, RewriteHops(tau)))
  }

  function MapKind(kind: NodeKind, tau: NodeRef -> NodeRef): NodeKind {
    match kind
    case Folder(f) => Folder(MapFields(f, tau))
    case Connection(p, h, f) => Connection(p, h, MapFields(f, tau))
    case Group(g) => Group(g.(members := MapSeq(g.members, tau)))
    case _ => kind
  }

  function MapReferences(n: Node, tau: NodeRef -> NodeRef): Node {
    n.(kind := MapKind(n.kind, tau))
  }

  ghost predicate SameState<T>(a: Inherited<T>, b: Inherited<T>) {
    (a.Inherit? <==> b.Inherit?) && (a.Default? <==> b.Default?)
  }

  /** The two agree on everything but what their references are, down to where there is one. */
  ghost predicate SameShape(f: Inheritable, g: Inheritable) {
    && g == f.(credential := g.credential, gateway := g.gateway)
    && SameState(f.credential, g.credential) && SameState(f.gateway, g.gateway)
    && (f.gateway.Explicit? ==>
          && |g.gateway.value| == |f.gateway.value|
          && forall i :: 0 <= i < |f.gateway.value| ==> (f.gateway.value[i].credential.Some? <==> g.gateway.value[i].credential.Some?))
  }

  /** The two agree on everything they carry besides the targets of references and owners. */
  ghost predicate SameScalars(a: Node, b: Node) {
    match a.kind
    case Folder(f) => b.kind.Folder? && SameShape(f, b.kind.fields)
    case Connection(p, h, f) => b.kind.Connection? && b.kind.protocol == p && b.kind.host == h && SameShape(f, b.kind.fields)
    case Credential(props) => b.kind.Credential? && b.kind.props == props.(attachedTo := b.kind.props.attachedTo)
    case Group(g) => b.kind.Group? && b.kind.group == g.(members := b.kind.group.members)
    case Separator => b.kind.Separator?
  }

  /** A rewrite of references changes nothing else. */
  lemma MapKeepsShape(n: Node, tau: NodeRef -> NodeRef)
    ensures SameScalars(n, MapReferences(n, tau))
  {
  }

  lemma SameScalarsOfKind(a: Node, b: Node, c: Node)
    requires SameScalars(a, b) && c.kind == b.kind
    ensures SameScalars(a, c)
  {
  }

  lemma SameScalarsSelf(n: Node)
    ensures SameScalars(n, n)
  {
  }

  /** The rewrite reaches exactly the references the node reports, in order. */
  lemma ReferencesMapped(n: Node, tau: NodeRef -> NodeRef)
    ensures References(MapReferences(n, tau)) == MapSeq(References(n), tau)
  {
    match n.kind
    case Folder(f) => FieldReferencesMapped(f, tau);
    case Connection(_, _, f) => FieldReferencesMapped(f, tau);
    case _ =>
  }

  lemma FieldReferencesMapped(f: Inheritable, tau: NodeRef -> NodeRef)
    ensures FieldReferences(MapFields(f, tau)) == MapSeq(FieldReferences(f), tau)
  {
    hide HopReferences, MapHops;
    if f.gateway.Explicit? {
      HopReferencesMapped(f.gateway.value, tau);
    }
  }

  lemma {:induction false} HopReferencesMapped(hops: seq<GatewayHop>, tau: NodeRef -> NodeRef)
    ensures HopReferences(MapHops(hops, tau)) == MapSeq(HopReferences(hops), tau)
  {
    if hops != [] {
      HopReferencesMapped(hops[1..], tau);
      assert MapHops(hops, tau)[1..] == MapHops(hops[1..], tau);
    }
  }

  /** A rewrite that leaves every held reference alone leaves the node alone, and conversely. */
  lemma MapReferencesFixed(n: Node, tau: NodeRef -> NodeRef)
    ensures MapReferences(n, tau) == n <==> (forall ref :: ref in References(n) ==> tau(ref) == ref)
  {
    ReferencesMapped(n, tau);
    if MapReferences(n, tau) == n {
      forall ref | ref in References(n) ensures tau(ref) == ref {
        var i :| 0 <= i < |References(n)| && References(n)[i] == ref;
        assert MapSeq(References(n), tau)[i] == References(n)[i];
      }
    }
    if forall ref :: ref in References(n) ==> tau(ref) == ref {
      if FieldsOf(n).Some? {
        var f := FieldsOf(n).value;
        if f.gateway.Explicit? {
          HopsFixed(f.gateway.value, tau);
        }
        assert f.credential.Explicit? ==> f.credential.value in References(n);
        assert MapFields(f, tau) == f;
      } else if n.kind.Group? {
        assert MapSeq(n.kind.group.members, tau) == n.kind.group.members;
      }
    }
  }

  lemma {:induction false} HopsFixedExactly(hops: seq<GatewayHop>, tau: NodeRef -> NodeRef)
    ensures MapHops(hops, tau) == hops <==> (forall ref :: ref in HopReferences(hops) ==> tau(ref) == ref)
  {
    hide HopReferences, MapHops;
    HopReferencesMapped(hops, tau);
    if MapHops(hops, tau) == hops {
      var refs := HopReferences(hops);
      forall ref | ref in refs ensures tau(ref) == ref {
        var i :| 0 <= i < |refs| && refs[i] == ref;
        assert MapSeq(refs, tau)[i] == refs[i];
      }
    } else if forall ref :: ref in HopReferences(hops) ==> tau(ref) == ref {
      HopsFixed(hops, tau);
    }
  }

  lemma {:induction false} HopsFixed(hops: seq<GatewayHop>, tau: NodeRef -> NodeRef)
    requires forall ref :: ref in HopReferences(hops) ==> tau(ref) == ref
    ensures MapHops(hops, tau) == hops
  {
    if hops != [] {
      HopsFixed(hops[1..], tau);
      assert hops[0].node in HopReferences(hops);
      assert hops[0].credential.Some? ==> hops[0].credential.value in HopReferences(hops);
      assert MapHop(hops[0], tau) == hops[0];
      assert MapHops(hops, tau) == [MapHop(hops[0], tau)] + MapHops(hops[1..], tau);
    }
  }
}
