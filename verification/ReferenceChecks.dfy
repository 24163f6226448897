/** The rules a node's references must meet, which need the whole tree (crates/remoter-core/src/tree.rs:913-1084). */
module ReferenceChecks {
  import opened Base
  import opened Inheritance
  import opened Nodes
  import opened Validation
  import opened Lineages
  import opened Forests
  import opened Resolution

  predicate Permits(props: CredentialProps, protocol: string) {
    props.allowedProtocols == [] || protocol in props.allowedProtocols
  }

  function CheckCredential(nodes: Forest, ref: NodeRef, protocol: Option<string>, referrer: NodeId): Verdict {
    if ref.Deleted? then None
    else if ref.id !in nodes then Some(CredentialUnknown(ref.id))
    else if !nodes[ref.id].kind.Credential? then Some(CredentialNotACredential(ref.id))
    else
      var props := nodes[ref.id].kind.props;
      if props.attachedTo.Some? && props.attachedTo.value != referrer then
        Some(CredentialAttachedElsewhere(ref.id, props.attachedTo.value))
      else if protocol.Some? && !Permits(props, protocol.value) then Some(CredentialPurpose(ref.id, protocol.value))
      else None
  }

  function CheckHop(nodes: Forest, hop: GatewayHop, owner: NodeId): Verdict {
    var id := hop.node.id;
    if id == owner then Some(GatewayCycle(id))
    else if hop.node.Deleted? then None
    else if id !in nodes then Some(GatewayHopUnknown(id))
    else if !nodes[id].kind.Connection? then Some(GatewayHopNotAConnection(id))
    else if hop.credential.Some? then CheckCredential(nodes, hop.credential.value, Some(nodes[id].kind.protocol), owner)
    else None
  }

  function CheckChain(nodes: Forest, hops: seq<GatewayHop>, owner: NodeId): Verdict {
    if hops == [] then None else Then(CheckHop(nodes, hops[0], owner), CheckChain(nodes, hops[1..], owner))
  }

  function CheckRoute(nodes: Forest, hops: seq<GatewayHop>, owner: NodeId): Verdict {
    Then(ValidateGateway(hops), CheckChain(nodes, hops, owner))
  }

  function CheckAttachment(nodes: Forest, id: NodeId, props: CredentialProps): Verdict {
    match props.attachedTo
    case None => None
    case Some(owner) =>
      if owner !in nodes then Some(CredentialAttachmentUnknown(id, owner))
      else Reject(!nodes[owner].kind.Connection?, CredentialAttachmentNotAConnection(id, owner))
  }

  function CheckMembers(nodes: Forest, members: seq<NodeRef>): Verdict {
    if members == [] then None
    else if members[0].Live? && members[0].id !in nodes then Some(GroupMemberUnknown(members[0].id))
    else CheckMembers(nodes, members[1..])
  }

  /** The references a node holds itself. */
  function CheckOwn(nodes: Forest, n: Node): Verdict {
    match n.kind
    case Folder(f) => CheckFields(nodes, f, n.id)
    case Connection(_, _, f) => CheckFields(nodes, f, n.id)
    case Credential(props) => CheckAttachment(nodes, n.id, props)
    case Group(g) => CheckMembers(nodes, g.members)
    case Separator => None
  }

  function CheckFields(nodes: Forest, f: Inheritable, id: NodeId): Verdict {
    Then(if f.credential.Explicit? then CheckCredential(nodes, f.credential.value, None, id) else None,
         if f.gateway.Explicit? then CheckRoute(nodes, f.gateway.value, id) else None)
  }

  /** What a connection ends up with after inheritance. */
  function CheckEffective(nodes: Forest, n: Node, protocol: string, ancestors: seq<Node>): Verdict {
    var credential, gateway := Resolve(n, ancestors, CredentialField).value, Resolve(n, ancestors, GatewayField).value;
    Then(if credential.Some? then CheckCredential(nodes, credential.value, Some(protocol), n.id) else None,
         if gateway.Some? then CheckRoute(nodes, gateway.value, n.id) else None)
  }

  /** `Tree::validate_references`. */
  function ValidateReferences(nodes: Forest, id: NodeId): Option<CoreError> {
    if id !in nodes then Some(NodeNotFound(id))
    else if CheckOwn(nodes, nodes[id]).Some? then Some(Invalid(CheckOwn(nodes, nodes[id]).value))
    else if !nodes[id].kind.Connection? then None
    else match AncestorsOf(nodes, id)
      case Err(e) => Some(e)
      case Ok(ancestors) =>
        var verdict := CheckEffective(nodes, nodes[id], nodes[id].kind.protocol, ancestors);
        if verdict.Some? then Some(Invalid(verdict.value)) else None
  }

  // What passing means.

  /** A reference anyone could hold: a confirmed deletion, or a credential of the tree that is not another's. */
  ghost predicate CredentialHeld(nodes: Forest, ref: NodeRef, referrer: NodeId) {
    ref.Live? ==>
      && ref.id in nodes && nodes[ref.id].kind.Credential?
      && (nodes[ref.id].kind.props.attachedTo.None? || nodes[ref.id].kind.props.attachedTo.value == referrer)
  }

  /** A reference the connection could use: none, or one that is held and, unless deleted, fits the protocol. */
  ghost predicate CredentialUsable(nodes: Forest, ref: Option<NodeRef>, protocol: string, referrer: NodeId) {
    ref.Some? ==>
      && CredentialHeld(nodes, ref.value, referrer)
      && (ref.value.Live? ==>
            nodes[ref.value.id].kind.props.allowedProtocols == [] || protocol in nodes[ref.value.id].kind.props.allowedProtocols)
  }

  ghost predicate HopUsable(nodes: Forest, hop: GatewayHop, owner: NodeId) {
    && hop.node.id != owner
    && (hop.node.Live? ==>
          && hop.node.id in nodes && nodes[hop.node.id].kind.Connection?
          && CredentialUsable(nodes, hop.credential, nodes[hop.node.id].kind.protocol, owner))
  }

  ghost predicate RouteUsable(nodes: Forest, hops: seq<GatewayHop>, owner: NodeId) {
    SimpleRoute(hops) && forall i :: 0 <= i < |hops| ==> HopUsable(nodes, hops[i], owner)
  }

  lemma {:induction false} ChainChecked(nodes: Forest, hops: seq<GatewayHop>, owner: NodeId)
    ensures CheckChain(nodes, hops, owner).None? <==> forall i :: 0 <= i < |hops| ==> HopUsable(nodes, hops[i], owner)
  {
    if hops != [] {
      ChainChecked(nodes, hops[1..], owner);
      assert CheckHop(nodes, hops[0], owner).None? <==> HopUsable(nodes, hops[0], owner);
      assert forall i :: 1 <= i < |hops| ==> hops[i] == hops[1..][i - 1];
    }
  }

  lemma {:induction false} RouteChecked(nodes: Forest, hops: seq<GatewayHop>, owner: NodeId)
    ensures CheckRoute(nodes, hops, owner).None? <==> RouteUsable(nodes, hops, owner)
  {
    GatewayAccepted(hops);
    ChainChecked(nodes, hops, owner);
  }

  lemma NoHops(nodes: Forest, owner: NodeId)
    ensures CheckRoute(nodes, [], owner).None?
  {
  }

  /** A connection passes exactly when the credential and the route it resolves to are ones it can use. */
  lemma {:induction false} ChecksAreExact(nodes: Forest, id: NodeId)
    requires Keyed(nodes) && id in nodes && Anchor(nodes, id) && nodes[id].kind.Connection?
    ensures EffectiveConnection(nodes, id).Ok?
    ensures var walked := EffectiveConnection(nodes, id).value.walked;
            ValidateReferences(nodes, id).None? <==>
            && CredentialUsable(nodes, walked.credential.value, nodes[id].kind.protocol, id)
            && RouteUsable(nodes, walked.gateway.value, id)
  {
    hide Rooted, AncestorsOf, Lineage, CheckRoute, RouteUsable, SimpleRoute;
    EffectiveAlongLineage(nodes, id);
    var n, ancestors := nodes[id], AncestorsOf(nodes, id).value;
    var gateway := Resolve(n, ancestors, GatewayField).value;
    NoHops(nodes, id);
    RouteChecked(nodes, OrElse(gateway, []), id);
    if n.kind.fields.gateway.Explicit? {
      assert gateway == Some(n.kind.fields.gateway.value);
    }
    if n.kind.fields.credential.Explicit? {
      assert Resolve(n, ancestors, CredentialField).value == Some(n.kind.fields.credential.value);
    }
  }

  lemma {:induction false} MembersChecked(nodes: Forest, members: seq<NodeRef>)
    ensures CheckMembers(nodes, members).None? <==> forall ref :: ref in members && ref.Live? ==> ref.id in nodes
  {
    if members != [] {
      MembersChecked(nodes, members[1..]);
      assert members == [members[0]] + members[1..];
    }
  }

  /** What the other kinds need: usable references of a folder, a connection as a credential's owner, members that exist. */
  lemma {:induction false} OtherChecksAreExact(nodes: Forest, id: NodeId)
    requires Keyed(nodes) && id in nodes && !nodes[id].kind.Connection?
    ensures ValidateReferences(nodes, id).None? <==>
            match nodes[id].kind
            case Folder(f) =>
              && (f.credential.Explicit? ==> CredentialHeld(nodes, f.credential.value, id))
              && (f.gateway.Explicit? ==> RouteUsable(nodes, f.gateway.value, id))
            case Credential(props) => props.attachedTo.Some? ==> props.attachedTo.value in nodes && nodes[props.attachedTo.value].kind.Connection?
            case Group(g) => forall ref :: ref in g.members && ref.Live? ==> ref.id in nodes
            case _ => true
  {
    hide CheckRoute, RouteUsable, CheckMembers;
    match nodes[id].kind
    case Folder(f) =>
      if f.gateway.Explicit? {
        RouteChecked(nodes, f.gateway.value, id);
      }
    case Group(g) => MembersChecked(nodes, g.members);
    case _ =>
  }

  /** What each error says about the tree, and about the node whose references are checked. */
  ghost predicate ReferenceFault(nodes: Forest, id: NodeId, e: ValidationError) {
    match e
    case CredentialUnknown(c) => c !in nodes
    case CredentialNotACredential(c) => c in nodes && !nodes[c].kind.Credential?
    case CredentialAttachedElsewhere(c, owner) =>
      c in nodes && nodes[c].kind.Credential? && nodes[c].kind.props.attachedTo == Some(owner) && owner != id
    case CredentialPurpose(c, protocol) =>
      && c in nodes && nodes[c].kind.Credential?
      && nodes[c].kind.props.allowedProtocols != [] && protocol !in nodes[c].kind.props.allowedProtocols
    case CredentialAttachmentUnknown(c, owner) =>
      c == id && id in nodes && nodes[id].kind.Credential? && nodes[id].kind.props.attachedTo == Some(owner) && owner !in nodes
    case CredentialAttachmentNotAConnection(c, owner) =>
      && c == id && id in nodes && nodes[id].kind.Credential? && nodes[id].kind.props.attachedTo == Some(owner)
      && owner in nodes && !nodes[owner].kind.Connection?
    case GatewayHopUnknown(h) => h !in nodes
    case GatewayHopNotAConnection(h) => h in nodes && !nodes[h].kind.Connection?
    case GroupMemberUnknown(member) => member !in nodes
    case GatewayTooLong(hops) => hops > 8
    case GatewayCycle(_) => true
    case _ => false
  }

  lemma CredentialFault(nodes: Forest, ref: NodeRef, protocol: Option<string>, referrer: NodeId)
    ensures var e := CheckCredential(nodes, ref, protocol, referrer); e.Some? ==> ReferenceFault(nodes, referrer, e.value)
  {
  }

  lemma {:induction false} ChainFault(nodes: Forest, hops: seq<GatewayHop>, owner: NodeId)
    ensures var e := CheckChain(nodes, hops, owner); e.Some? ==> ReferenceFault(nodes, owner, e.value)
  {
    hide CheckCredential;
    if hops != [] {
      ChainFault(nodes, hops[1..], owner);
      var hop := hops[0];
      if hop.credential.Some? && hop.node.id in nodes && nodes[hop.node.id].kind.Connection? {
        CredentialFault(nodes, hop.credential.value, Some(nodes[hop.node.id].kind.protocol), owner);
      }
    }
  }

  lemma {:induction false} RouteFault(nodes: Forest, hops: seq<GatewayHop>, owner: NodeId)
    ensures var e := CheckRoute(nodes, hops, owner); e.Some? ==> ReferenceFault(nodes, owner, e.value)
  {
    hide CheckChain;
    ChainFault(nodes, hops, owner);
    RepeatFault(hops, 0);
  }

  lemma {:induction false} RepeatFault(hops: seq<GatewayHop>, from: nat)
    requires from <= |hops|
    ensures RepeatedHop(hops, from).Some? ==> RepeatedHop(hops, from).value.GatewayCycle?
    decreases |hops| - from
  {
    if from < |hops| {
      RepeatFault(hops, from + 1);
    }
  }

  lemma {:induction false} MembersFault(nodes: Forest, members: seq<NodeRef>, id: NodeId)
    ensures var e := CheckMembers(nodes, members); e.Some? ==> ReferenceFault(nodes, id, e.value)
  {
    if members != [] {
      MembersFault(nodes, members[1..], id);
    }
  }

  /** Each error names what is wrong; a missing node, and a connection whose walk up fails, are errors. */
  lemma {:induction false} FaultsAreNamed(nodes: Forest, id: NodeId)
    requires Keyed(nodes)
    ensures id !in nodes ==> ValidateReferences(nodes, id) == Some(NodeNotFound(id))
    ensures id in nodes && nodes[id].kind.Connection? && AncestorsOf(nodes, id).Err? ==> ValidateReferences(nodes, id).Some?
    ensures id in nodes ==>
              match ValidateReferences(nodes, id)
              case Some(Invalid(e)) => ReferenceFault(nodes, id, e)
              case Some(e) => nodes[id].kind.Connection? && AncestorsOf(nodes, id) == Err(e)
              case None => true
  {
    hide CheckOwn, CheckEffective, ReferenceFault, Climb;
    if id in nodes {
      var n := nodes[id];
      OwnFault(nodes, n);
      if n.kind.Connection? && AncestorsOf(nodes, id).Ok? {
        EffectiveFault(nodes, n, n.kind.protocol, AncestorsOf(nodes, id).value);
      }
    }
  }

  lemma {:induction false} OwnFault(nodes: Forest, n: Node)
    requires n.id in nodes && nodes[n.id] == n
    ensures var e := CheckOwn(nodes, n); e.Some? ==> ReferenceFault(nodes, n.id, e.value)
  {
    hide CheckFields, CheckMembers;
    match n.kind
    case Folder(f) => FieldsFault(nodes, f, n.id);
    case Connection(_, _, f) => FieldsFault(nodes, f, n.id);
    case Group(g) => MembersFault(nodes, g.members, n.id);
    case _ =>
  }

  lemma {:induction false} FieldsFault(nodes: Forest, f: Inheritable, id: NodeId)
    ensures var e := CheckFields(nodes, f, id); e.Some? ==> ReferenceFault(nodes, id, e.value)
  {
    hide CheckCredential, CheckRoute, ReferenceFault;
    if f.credential.Explicit? {
      CredentialFault(nodes, f.credential.value, None, id);
    }
    if f.gateway.Explicit? {
      RouteFault(nodes, f.gateway.value, id);
    }
  }

  lemma {:induction false} EffectiveFault(nodes: Forest, n: Node, protocol: string, ancestors: seq<Node>)
    ensures var e := CheckEffective(nodes, n, protocol, ancestors); e.Some? ==> ReferenceFault(nodes, n.id, e.value)
  {
    hide CheckCredential, CheckRoute, Resolve, ReferenceFault;
    var credential, gateway := Resolve(n, ancestors, CredentialField).value, Resolve(n, ancestors, GatewayField).value;
    if credential.Some? {
      CredentialFault(nodes, credential.value, Some(protocol), n.id);
    }
    if gateway.Some? {
      RouteFault(nodes, gateway.value, n.id);
    }
  }
}
