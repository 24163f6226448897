/** Previewed nodes, the builder that collects them, and their conversion into nodes (crates/remoter-import/src/preview.rs). */
module Previews {
  import opened Base
  import opened Inheritance
  import opened Nodes
  import opened Validation
  import CsvText

  /** A secret as the source described it. */
  datatype PreviewSecret = Plaintext(text: string) | NotCarried(identity: nat) | Unsealed(kind: SecretKind)

  datatype PreviewCredential = PreviewCredential(
    username: string,
    domain: Option<string>,
    secret: PreviewSecret,
    allowedProtocols: seq<string>)

  datatype PreviewKind =
    | PreviewFolder(fields: Inheritable)
    | PreviewConnection(protocol: string, host: string, fields: Inheritable)
    | PreviewAccount(credential: PreviewCredential)

  datatype PreviewNode = PreviewNode(
    id: NodeId,
    parentId: Option<NodeId>,
    sortOrder: int,
    name: string,
    description: string,
    tags: seq<string>,
    customFields: map<string, string>,
    kind: PreviewKind)

  datatype ImportError =
    | TooManyNodes
    | TooDeep
    | WrongFormat
    | DuplicateColumn(column: string)
    | MissingColumn(column: string)
    | Unreadable(reason: CsvText.ReadError)
    | Rejected(error: ValidationError)

  function Plainly(id: NodeId, name: string, kind: PreviewKind, parent: Option<NodeId>, sortOrder: int): PreviewNode {
    PreviewNode(id, parent, sortOrder, name, "", [], map[], kind)
  }

  predicate HoldsPassword(p: PreviewNode) {
    p.kind.PreviewAccount? && (p.kind.credential.secret.Plaintext? || p.kind.credential.secret.NotCarried?)
  }

  /** The kind a preview becomes, with the sealed form of its password. */
  function BuiltKind(kind: PreviewKind, sealedSecret: seq<Byte>): NodeKind {
    match kind
    case PreviewFolder(f) => Folder(f)
    case PreviewConnection(p, h, f) => Connection(p, h, f)
    case PreviewAccount(c) =>
      Credential(CredentialProps(None, c.username, c.domain,
                                 if c.secret.Unsealed? then c.secret.kind else Password(sealedSecret), None, None, c.allowedProtocols))
  }

  /** `into_node`, before its final validation; imports set neither icon nor colour. */
  function Built(p: PreviewNode, now: int, sealedSecret: seq<Byte>): Node {
    Node(p.id, p.parentId, p.sortOrder, BuiltKind(p.kind, sealedSecret), p.name, p.description, p.tags, None, None,
         now, now, 1, p.customFields, None)
  }

  /** `into_node`: the node a preview becomes, given what the vault sealed its password as. */
  function IntoNode(p: PreviewNode, now: int, sealedSecret: Option<seq<Byte>>): Result<Node, ImportError> {
    if HoldsPassword(p) && (sealedSecret.None? || sealedSecret.value == []) then Err(Rejected(SealedMaterialEmpty))
    else
      var n := Built(p, now, if sealedSecret.Some? then sealedSecret.value else []);
      match ValidateNode(n)
      case Some(e) => Err(Rejected(e))
      case None => Ok(n)
  }

  /** The sealed form of a password takes the place of the password; everything else a preview says, its node says. */
  ghost predicate Becomes(p: PreviewNode, now: int, sealedSecret: Option<seq<Byte>>, n: Node) {
    && n.id == p.id && n.parentId == p.parentId && n.sortOrder == p.sortOrder && n.name == p.name && n.description == p.description
    && n.tags == p.tags && n.customFields == p.customFields && n.icon.None? && n.colour.None? && n.deletedAt.None?
    && n.createdAt == now && n.updatedAt == now && n.revision == 1
    && match p.kind
       case PreviewFolder(f) => n.kind.Folder? && n.kind.fields == f
       case PreviewConnection(protocol, host, f) => n.kind.Connection? && n.kind.protocol == protocol && n.kind.host == host && n.kind.fields == f
       case PreviewAccount(c) =>
         && n.kind.Credential? && n.kind.props.attachedTo.None? && n.kind.props.username == c.username && n.kind.props.domain == c.domain
         && n.kind.props.allowedProtocols == c.allowedProtocols && n.kind.props.totp.None? && n.kind.props.expiresAt.None?
         && (if c.secret.Unsealed? then n.kind.props.secret == c.secret.kind
             else sealedSecret.Some? && sealedSecret.value != [] && n.kind.props.secret == Password(sealedSecret.value))
  }

  /** Conversion yields the node that says the same, if the vault sealed what there is to seal and the node is valid. */
  lemma ConversionIsFaithful(p: PreviewNode, now: int, sealedSecret: Option<seq<Byte>>, n: Node)
    ensures IntoNode(p, now, sealedSecret) == Ok(n) <==> Becomes(p, now, sealedSecret, n) && ValidateNode(n).None?
  {
    hide ValidateNode;
  }

  /** The first previewed node with this id. */
  function Find(nodes: seq<PreviewNode>, id: NodeId): (r: Option<nat>)
    ensures r.Some? ==> r.value < |nodes| && nodes[r.value].id == id
    ensures r.None? ==> forall i :: 0 <= i < |nodes| ==> nodes[i].id != id
  {
    if nodes == [] then None
    else if nodes[0].id == id then Some(0)
    else match Find(nodes[1..], id) case None => None case Some(i) => Some(i + 1)
  }

  type Catalogue = map<NodeId, PreviewNode>

  /** The preview looked up by id. */
  function ById(nodes: seq<PreviewNode>): Catalogue {
    if nodes == [] then map[] else ById(nodes[..|nodes| - 1])[nodes[|nodes| - 1].id := nodes[|nodes| - 1]]
  }

  /** Every id is used once, and every parent comes before its children. */
  ghost predicate WellListed(nodes: seq<PreviewNode>) {
    nodes != [] ==>
      var rest, last := nodes[..|nodes| - 1], nodes[|nodes| - 1];
      && WellListed(rest)
      && last.id !in ById(rest)
      && (last.parentId.Some? ==> last.parentId.value in ById(rest))
  }

  lemma {:induction false} ByIdMembers(nodes: seq<PreviewNode>)
    requires WellListed(nodes)
    ensures forall i :: 0 <= i < |nodes| ==> nodes[i].id in ById(nodes) && ById(nodes)[nodes[i].id] == nodes[i]
    ensures forall id :: id in ById(nodes) ==> ById(nodes)[id] in nodes && ById(nodes)[id].id == id
  {
    if nodes != [] {
      var rest := nodes[..|nodes| - 1];
      ByIdMembers(rest);
      assert nodes == rest + [nodes[|nodes| - 1]];
      forall i | 0 <= i < |rest| ensures nodes[i].id in ById(nodes) && ById(nodes)[nodes[i].id] == nodes[i] {
        assert rest[i] == nodes[i];
      }
    }
  }

  lemma ByIdAppend(nodes: seq<PreviewNode>, p: PreviewNode)
    ensures ById(nodes + [p]) == ById(nodes)[p.id := p]
  {
    assert (nodes + [p])[..|nodes|] == nodes;
  }

  lemma WellListedAppend(nodes: seq<PreviewNode>, p: PreviewNode)
    requires WellListed(nodes) && p.id !in ById(nodes) && (p.parentId.Some? ==> p.parentId.value in ById(nodes))
    ensures WellListed(nodes + [p])
  {
    assert (nodes + [p])[..|nodes|] == nodes;
  }

  /** Changing a node but not its id or its place. */
  lemma {:induction false} ByIdRevised(nodes: seq<PreviewNode>, i: nat, p: PreviewNode)
    requires WellListed(nodes) && i < |nodes| && p.id == nodes[i].id && p.parentId == nodes[i].parentId
    ensures WellListed(nodes[i := p]) && ById(nodes[i := p]) == ById(nodes)[p.id := p] && p.id in ById(nodes)
    decreases |nodes|
  {
    var last := |nodes| - 1;
    if i < last {
      ByIdRevised(nodes[..last], i, p);
      assert nodes[i := p][..last] == nodes[..last][i := p];
    } else {
      assert nodes[i := p][..last] == nodes[..last];
    }
  }

  /** Looking a node up finds it. */
  lemma FindExact(nodes: seq<PreviewNode>, id: NodeId)
    requires WellListed(nodes)
    ensures Find(nodes, id).Some? <==> id in ById(nodes)
    ensures Find(nodes, id).Some? ==> nodes[Find(nodes, id).value] == ById(nodes)[id]
  {
    ByIdMembers(nodes);
  }

  function Accounts(nodes: seq<PreviewNode>): nat {
    if nodes == [] then 0
    else Accounts(nodes[..|nodes| - 1]) + if nodes[|nodes| - 1].kind.PreviewAccount? then 1 else 0
  }

  lemma AccountsAppend(nodes: seq<PreviewNode>, p: PreviewNode)
    ensures Accounts(nodes + [p]) == Accounts(nodes) + if p.kind.PreviewAccount? then 1 else 0
  {
    assert (nodes + [p])[..|nodes|] == nodes;
  }

  lemma {:induction false} AccountsRevised(nodes: seq<PreviewNode>, i: nat, p: PreviewNode)
    requires i < |nodes| && (p.kind.PreviewAccount? <==> nodes[i].kind.PreviewAccount?)
    ensures Accounts(nodes[i := p]) == Accounts(nodes)
    decreases |nodes|
  {
    var last := |nodes| - 1;
    if i < last {
      AccountsRevised(nodes[..last], i, p);
      assert nodes[i := p][..last] == nodes[..last][i := p];
    } else {
      assert nodes[i := p][..last] == nodes[..last];
    }
  }

  /** Accumulates a preview under the node ceiling, handing out ids that were never used before. */
  class PreviewBuilder {
    var nodes: seq<PreviewNode>
    var credentials: nat
    var nextId: NodeId
    const maxNodes: nat

    /** The report's count and the ceiling, which hold whatever is pushed. */
    ghost predicate Counted()
      reads this
    {
      credentials == Accounts(nodes) && |nodes| <= maxNodes
    }

    ghost predicate Valid()
      reads this
    {
      Counted() && WellListed(nodes) && forall id :: id in ById(nodes) ==> id < nextId
    }

    constructor (maxNodes: nat, firstId: NodeId)
      ensures Valid() && nodes == [] && this.maxNodes == maxNodes && nextId == firstId
    {
      this.maxNodes := maxNodes;
      nodes, credentials, nextId := [], 0, firstId;
    }

    /** Hands out an id no node of the preview has. */
    method NewId() returns (id: NodeId)
      requires Valid()
      modifies this`nextId
      ensures Valid() && id !in ById(nodes) && id == old(nextId) && nextId == id + 1
    {
      id, nextId := nextId, nextId + 1;
    }

    /** `push`: counts the node, or refuses to grow past the ceiling; a new id under a listed parent keeps the list in order. */
    method Push(p: PreviewNode) returns (r: Result<NodeId, ImportError>)
      requires Counted()
      modifies this`nodes, this`credentials
      ensures Counted()
      ensures old(|nodes|) >= maxNodes ==> r == Err(TooManyNodes) && nodes == old(nodes) && credentials == old(credentials)
      ensures old(|nodes|) < maxNodes ==>
                r == Ok(p.id) && nodes == old(nodes) + [p] && ById(nodes) == old(ById(nodes))[p.id := p]
      ensures old(Valid()) && p.id < nextId && p.id !in old(ById(nodes)) && (p.parentId.Some? ==> p.parentId.value in old(ById(nodes))) ==>
                Valid()
    {
      hide Accounts, WellListed, ById;
      if |nodes| >= maxNodes {
        return Err(TooManyNodes);
      }
      AccountsAppend(nodes, p);
      ByIdAppend(nodes, p);
      if WellListed(nodes) && p.id !in ById(nodes) && (p.parentId.Some? ==> p.parentId.value in ById(nodes)) {
        WellListedAppend(nodes, p);
      }
      if p.kind.PreviewAccount? {
        credentials := credentials + 1;
      }
      nodes := nodes + [p];
      return Ok(p.id);
    }

    /** Changes a node found by `node_mut`, keeping its id, its place and whether it is a credential. */
    method Revise(i: nat, p: PreviewNode)
      requires Valid() && i < |nodes| && p.id == nodes[i].id && p.parentId == nodes[i].parentId
      requires p.kind.PreviewAccount? <==> nodes[i].kind.PreviewAccount?
      modifies this`nodes
      ensures Valid() && ById(nodes) == old(ById(nodes))[p.id := p] && |nodes| == old(|nodes|)
    {
      hide Accounts, WellListed, ById;
      AccountsRevised(nodes, i, p);
      ByIdRevised(nodes, i, p);
      nodes := nodes[i := p];
    }
  }
}
