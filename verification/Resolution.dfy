/**
 Flattening a connection's inheritance (crates/remoter-core/src/inherit.rs:202-249,
 crates/remoter-core/src/tree.rs:630-753, 1206-1224).
 */
module Resolution {
  import opened Base
  import opened Inheritance
  import opened Nodes
  import opened Lineages
  import opened Forests

  type Field<!T> = Node -> Option<Inherited<T>>

  // The three-state walk.

  function Scan<T>(ancestors: seq<Node>, field: Field<T>): Resolved<Option<T>> {
    if ancestors == [] then Resolved(None, DefaultAtRoot)
    else match field(ancestors[0])
      case Some(Explicit(v)) => Resolved(Some(v), Ancestor(ancestors[0].id))
      case Some(Default) => Resolved(None, DefaultAt(ancestors[0].id))
      case _ => Scan(ancestors[1..], field)
  }

  /** `inherit::resolve`: the node itself, then its ancestors, until one does not defer. */
  function Resolve<T>(node: Node, ancestors: seq<Node>, field: Field<T>): Resolved<Option<T>> {
    match field(node)
    case Some(Explicit(v)) => Resolved(Some(v), Own(node.id))
    case Some(Default) => Resolved(None, DefaultAt(node.id))
    case _ => Scan(ancestors, field)
  }

  predicate Defers<T>(field: Option<Inherited<T>>) {
    field.None? || field.value.Inherit?
  }

  /** The answer read off the path: the nearest node that does not defer decides alone. */
  lemma {:induction false} ResolveNearest<T>(node: Node, ancestors: seq<Node>, field: Field<T>, k: nat)
    requires k <= |ancestors| + 1
    requires forall i :: 0 <= i < k ==> Defers(field(([node] + ancestors)[i]))
    requires k <= |ancestors| ==> !Defers(field(([node] + ancestors)[k]))
    ensures Resolve(node, ancestors, field) ==
            if k > |ancestors| then Resolved(None, DefaultAtRoot)
            else
              var supplier := ([node] + ancestors)[k];
              match field(supplier).value
              case Explicit(v) => Resolved(Some(v), if k == 0 then Own(supplier.id) else Ancestor(supplier.id))
              case _ => Resolved(None, DefaultAt(supplier.id))
    decreases |ancestors|
  {
    if k > 0 {
      assert Defers(field(([node] + ancestors)[0]));
      if ancestors != [] {
        var rest := ancestors[1..];
        assert forall i :: 0 <= i <= |rest| ==> ([ancestors[0]] + rest)[i] == ([node] + ancestors)[i + 1];
        ResolveNearest(ancestors[0], rest, field, k - 1);
        assert Resolve(node, ancestors, field) == Scan(ancestors, field);
      }
    }
  }

  /** `inherit::resolve_optional_field`: the nearest node that sets a plain optional field. */
  function ResolveOptionalField<T>(node: Node, ancestors: seq<Node>, field: Node -> Option<T>): Resolved<Option<T>> {
    if field(node).Some? then Resolved(field(node), Own(node.id)) else ScanOptional(ancestors, field)
  }

  function ScanOptional<T>(ancestors: seq<Node>, field: Node -> Option<T>): Resolved<Option<T>> {
    if ancestors == [] then Resolved(None, DefaultAtRoot)
    else if field(ancestors[0]).Some? then Resolved(field(ancestors[0]), Ancestor(ancestors[0].id))
    else ScanOptional(ancestors[1..], field)
  }

  // Icon and colour as three-state fields that are never `Default`.

  function AsInherited<T>(o: Option<T>): Option<Inherited<T>> {
    if o.Some? then Some(Explicit(o.value)) else Some(Inherit)
  }

  function IconState(n: Node): Option<Inherited<string>> { AsInherited(n.icon) }

  function ColourState(n: Node): Option<Inherited<string>> { AsInherited(n.colour) }

  lemma {:induction false} OptionalIsInherited<T>(node: Node, ancestors: seq<Node>, plain: Node -> Option<T>, state: Field<T>)
    requires forall n :: state(n) == AsInherited(plain(n))
    ensures ResolveOptionalField(node, ancestors, plain) == Resolve(node, ancestors, state)
    decreases |ancestors|
  {
    assert state(node) == AsInherited(plain(node));
    if ancestors != [] {
      assert state(ancestors[0]) == AsInherited(plain(ancestors[0]));
      OptionalIsInherited(ancestors[0], ancestors[1..], plain, state);
    }
  }

  // Protocol settings.

  function Labelled(settings: map<string, string>, source: Provenance): map<string, Resolved<string>> {
    map key | key in settings :: Resolved(settings[key], source)
  }

  /** What the ancestors, nearest first, contribute: each nearer one overwrites the ones above it. */
  function AncestorSettings(ancestors: seq<Node>): map<string, Resolved<string>> {
    if ancestors == [] then map[]
    else AncestorSettings(ancestors[1..]) + Labelled(SettingsOf(ancestors[0]), Ancestor(ancestors[0].id))
  }

  function MergedSettings(node: Node, ancestors: seq<Node>): map<string, Resolved<string>> {
    AncestorSettings(ancestors) + Labelled(SettingsOf(node), Own(node.id))
  }

  /** `merge_settings`: one pass from the root down. */
  method MergeSettings(node: Node, ancestors: seq<Node>) returns (merged: map<string, Resolved<string>>)
    ensures merged == MergedSettings(node, ancestors)
  {
    merged := map[];
    var i := |ancestors|;
    while i > 0
      invariant 0 <= i <= |ancestors|
      invariant merged == AncestorSettings(ancestors[i..])
    {
      i := i - 1;
      merged := merged + Labelled(SettingsOf(ancestors[i]), Ancestor(ancestors[i].id));
      assert ancestors[i..][1..] == ancestors[i + 1..];
    }
    merged := merged + Labelled(SettingsOf(node), Own(node.id));
  }

  /** Per key, the nearest node that sets it wins; a key no node sets is absent. */
  lemma {:induction false} MergedNearest(node: Node, ancestors: seq<Node>, key: string, k: nat)
    requires k <= |ancestors| + 1
    requires forall i :: 0 <= i < k ==> key !in SettingsOf(([node] + ancestors)[i])
    requires k <= |ancestors| ==> key in SettingsOf(([node] + ancestors)[k])
    ensures key in MergedSettings(node, ancestors) <==> k <= |ancestors|
    ensures k <= |ancestors| ==>
              var supplier := ([node] + ancestors)[k];
              MergedSettings(node, ancestors)[key]
              == Resolved(SettingsOf(supplier)[key], if k == 0 then Own(supplier.id) else Ancestor(supplier.id))
    decreases |ancestors|
  {
    if k > 0 {
      assert key !in SettingsOf(([node] + ancestors)[0]);
      if ancestors != [] {
        var rest := ancestors[1..];
        assert forall i :: 0 <= i <= |rest| ==> ([ancestors[0]] + rest)[i] == ([node] + ancestors)[i + 1];
        MergedNearest(ancestors[0], rest, key, k - 1);
      }
    }
  }

  // The effective connection.

  /** The fields resolved by walking the path, each with its provenance. */
  datatype Walked = Walked(
    port: Resolved<Option<Port>>,
    credential: Resolved<Option<NodeRef>>,
    gateway: Resolved<seq<GatewayHop>>,
    connectTimeoutMs: Resolved<Option<U32>>,
    keepaliveSecs: Resolved<Option<U32>>,
    settings: map<string, Resolved<string>>,
    onConnect: Resolved<seq<string>>,
    onDisconnect: Resolved<seq<string>>,
    recording: Resolved<RecordingPolicy>,
    autoReconnect: Resolved<ReconnectPolicy>,
    icon: Resolved<Option<string>>,
    colour: Resolved<Option<string>>)

  datatype Effective = Effective(
    node: NodeId,
    name: string,
    protocol: string,
    host: string,
    walked: Walked,
    username: Resolved<Option<string>>,
    credentialAttached: bool)

  function DefaultPort(protocol: string): Option<Port> {
    if protocol in {"ssh", "sftp"} then Some(22)
    else if protocol == "rdp" then Some(3389)
    else if protocol == "vnc" then Some(5900)
    else if protocol == "telnet" then Some(23)
    else if protocol == "http" then Some(80)
    else if protocol == "https" then Some(443)
    else None
  }

  /** Which protocols fall back to which port. */
  lemma DefaultPortExact(protocol: string)
    ensures DefaultPort(protocol) == Some(22) <==> protocol == "ssh" || protocol == "sftp"
    ensures DefaultPort(protocol) == Some(3389) <==> protocol == "rdp"
    ensures DefaultPort(protocol) == Some(5900) <==> protocol == "vnc"
    ensures DefaultPort(protocol) == Some(23) <==> protocol == "telnet"
    ensures DefaultPort(protocol) == Some(80) <==> protocol == "http"
    ensures DefaultPort(protocol) == Some(443) <==> protocol == "https"
    ensures DefaultPort(protocol).Some? ==> DefaultPort(protocol).value in {22, 3389, 5900, 23, 80, 443}
  {
  }

  function OrDefault<T>(r: Resolved<Option<T>>, otherwise: T): Resolved<T> {
    Resolved(OrElse(r.value, otherwise), r.provenance)
  }

  function ResolvePort(protocol: string, node: Node, ancestors: seq<Node>): Resolved<Option<Port>> {
    var r := Resolve(node, ancestors, PortField);
    Resolved(if r.value.Some? then r.value else DefaultPort(protocol), r.provenance)
  }

  function WalkedOf(protocol: string, node: Node, ancestors: seq<Node>): Walked {
    Walked(
      ResolvePort(protocol, node, ancestors),
      Resolve(node, ancestors, CredentialField),
      OrDefault(Resolve(node, ancestors, GatewayField), []),
      Resolve(node, ancestors, ConnectTimeoutField),
      Resolve(node, ancestors, KeepaliveField),
      MergedSettings(node, ancestors),
      OrDefault(Resolve(node, ancestors, OnConnectField), []),
      OrDefault(Resolve(node, ancestors, OnDisconnectField), []),
      OrDefault(Resolve(node, ancestors, RecordingField), NeverRecord),
      OrDefault(Resolve(node, ancestors, AutoReconnectField), NeverReconnect),
      ResolveOptionalField(node, ancestors, IconField),
      ResolveOptionalField(node, ancestors, ColourField))
  }

  /** What a live reference to a credential of the tree gives access to. */
  function CredentialAt(nodes: Forest, ref: Option<NodeRef>): Option<CredentialProps> {
    if ref.Some? && ref.value.Live? && ref.value.id in nodes && nodes[ref.value.id].kind.Credential?
    then Some(nodes[ref.value.id].kind.props)
    else None
  }

  function Username(nodes: Forest, credential: Resolved<Option<NodeRef>>): Resolved<Option<string>> {
    var props := CredentialAt(nodes, credential.value);
    Resolved(if props.Some? then Some(props.value.username) else None, credential.provenance)
  }

  predicate Attached(nodes: Forest, credential: Resolved<Option<NodeRef>>, id: NodeId) {
    var props := CredentialAt(nodes, credential.value);
    props.Some? && props.value.attachedTo == Some(id)
  }

  function Flatten(nodes: Forest, node: Node, ancestors: seq<Node>): Effective
    requires node.kind.Connection?
  {
    var walked := WalkedOf(node.kind.protocol, node, ancestors);
    Effective(node.id, node.name, node.kind.protocol, node.kind.host, walked,
              Username(nodes, walked.credential), Attached(nodes, walked.credential, node.id))
  }

  /** `Tree::effective_connection`. */
  function EffectiveConnection(nodes: Forest, id: NodeId): Result<Effective, CoreError> {
    if id !in nodes then Err(NodeNotFound(id))
    else if !nodes[id].kind.Connection? then Err(NotAConnection(id))
    else match AncestorsOf(nodes, id)
      case Ok(ancestors) => Ok(Flatten(nodes, nodes[id], ancestors))
      case Err(e) => Err(e)
  }

  /** The path of a node, itself first, as nodes. */
  function PathNodes(nodes: Forest, id: NodeId): seq<Node>
    requires forall x :: x in Lineage(Parents(nodes), Some(id)) ==> x in nodes
  {
    NodesAt(nodes, Lineage(Parents(nodes), Some(id)))
  }

  /** A connection whose parent chain reaches the root flattens along its lineage. */
  lemma {:induction false} EffectiveAlongLineage(nodes: Forest, id: NodeId)
    requires id in nodes && Anchor(nodes, id)
    ensures forall x :: x in Lineage(Parents(nodes), Some(id)) ==> x in nodes
    ensures Depth(nodes, id) > 0 && PathNodes(nodes, id)[0] == nodes[id]
    ensures AncestorsOf(nodes, id) == Ok(PathNodes(nodes, id)[1..])
    ensures nodes[id].kind.Connection? ==>
              EffectiveConnection(nodes, id) == Ok(Flatten(nodes, nodes[id], PathNodes(nodes, id)[1..]))
  {
    hide Flatten, Climb;
    var par := Parents(nodes);
    LineageStep(par, id);
    LineageChain(par, Some(id));
    LineageChain(par, par[id]);
    assert PathNodes(nodes, id)[1..] == NodesAt(nodes, Lineage(par, par[id]));
  }

  /** A connection resolves the same in two trees that agree on its path and on the credentials. */
  lemma {:induction false} EffectiveFrame(before: Forest, after: Forest, x: NodeId)
    requires x in before && Anchor(before, x) && x in after && Anchor(after, x) && before[x].kind.Connection?
    requires Lineage(Parents(after), Some(x)) == Lineage(Parents(before), Some(x))
    requires forall y :: y in Lineage(Parents(before), Some(x)) && y in before ==> y in after && after[y] == before[y]
    requires forall ref :: CredentialAt(after, ref) == CredentialAt(before, ref)
    ensures EffectiveConnection(after, x) == EffectiveConnection(before, x)
  {
    hide Lineage, Rooted, Climb, EffectiveConnection, AncestorsOf, WalkedOf, CredentialAt;
    EffectiveAlongLineage(before, x);
    EffectiveAlongLineage(after, x);
    assert x in Lineage(Parents(before), Some(x)) by { LineageStep(Parents(before), x); }
    assert after[x] == before[x];
    assert PathNodes(after, x) == PathNodes(before, x);
  }

  // What a provenance says.

  /**
   A resolved value is what its provenance says it is: the field of that node on the path, every
   nearer node deferring, or the default that a node asked for or that nobody overrode.
   */
  ghost predicate Honest<T(!new), U(!new)>(nodes: Forest, path: seq<NodeId>, field: Field<T>, wrap: T -> U, r: Resolved<U>, otherwise: U)
    requires forall x :: x in path ==> x in nodes
  {
    match r.provenance
    case Own(y) => path != [] && y == path[0] && Sets(field(nodes[y]), wrap, r.value)
    case Ancestor(y) => exists k :: 0 < k < |path| && path[k] == y && Sets(field(nodes[y]), wrap, r.value) && DeferBelow(nodes, path, field, k)
    case DefaultAt(y) =>
      r.value == otherwise && exists k :: 0 <= k < |path| && path[k] == y && field(nodes[y]) == Some(Default) && DeferBelow(nodes, path, field, k)
    case DefaultAtRoot => r.value == otherwise && DeferBelow(nodes, path, field, |path|)
  }

  ghost predicate Sets<T(!new), U(!new)>(state: Option<Inherited<T>>, wrap: T -> U, value: U) {
    state.Some? && state.value.Explicit? && wrap(state.value.value) == value
  }

  ghost predicate DeferBelow<T(!new)>(nodes: Forest, path: seq<NodeId>, field: Field<T>, k: nat)
    requires k <= |path| && forall x :: x in path ==> x in nodes
  {
    forall i :: 0 <= i < k ==> Defers(field(nodes[path[i]]))
  }

  /** The first node from position `from` on that does not defer. */
  ghost function Supplier<T(!new)>(nodes: Forest, path: seq<NodeId>, field: Field<T>, from: nat): (k: nat)
    requires from <= |path| && (forall x :: x in path ==> x in nodes) && DeferBelow(nodes, path, field, from)
    ensures k <= |path| && DeferBelow(nodes, path, field, k) && (k < |path| ==> !Defers(field(nodes[path[k]])))
    decreases |path| - from
  {
    if from == |path| || !Defers(field(nodes[path[from]])) then from else Supplier(nodes, path, field, from + 1)
  }

  lemma {:induction false} ResolvedHonestly<T(!new), U(!new)>(nodes: Forest, path: seq<NodeId>, field: Field<T>, wrap: T -> U, r: Resolved<U>, otherwise: U)
    requires Keyed(nodes) && path != [] && forall x :: x in path ==> x in nodes
    requires var raw := Resolve(NodesAt(nodes, path)[0], NodesAt(nodes, path)[1..], field);
             r == Resolved(if raw.value.Some? then wrap(raw.value.value) else otherwise, raw.provenance)
    ensures Honest(nodes, path, field, wrap, r, otherwise)
  {
    var all := NodesAt(nodes, path);
    var k := Supplier(nodes, path, field, 0);
    assert [all[0]] + all[1..] == all;
    forall i | 0 <= i < |path| ensures ([all[0]] + all[1..])[i] == nodes[path[i]] && path[i] in path {
    }
    assert forall i :: 0 <= i < k ==> Defers(field(nodes[path[i]]));
    ResolveNearest(all[0], all[1..], field, k);
  }

  function Lifted<T>(v: T): Option<T> { Some(v) }

  function Itself<T>(v: T): T { v }

  /** What each accessor reads of a node: the column of that name of a folder or connection, and nothing of any other kind. */
  ghost predicate Shows(n: Node) {
    if n.kind.Folder? || n.kind.Connection? then
      var f := n.kind.fields;
      && PortField(n) == Some(f.port) && CredentialField(n) == Some(f.credential) && GatewayField(n) == Some(f.gateway)
      && ConnectTimeoutField(n) == Some(f.connectTimeoutMs) && KeepaliveField(n) == Some(f.keepaliveSecs)
      && OnConnectField(n) == Some(f.onConnect) && OnDisconnectField(n) == Some(f.onDisconnect)
      && RecordingField(n) == Some(f.recording) && AutoReconnectField(n) == Some(f.autoReconnect)
    else
      && PortField(n).None? && CredentialField(n).None? && GatewayField(n).None? && ConnectTimeoutField(n).None?
      && KeepaliveField(n).None? && OnConnectField(n).None? && OnDisconnectField(n).None?
      && RecordingField(n).None? && AutoReconnectField(n).None?
  }

  /** Every resolved field of an effective connection names the node its value comes from. */
  ghost predicate AllHonest(nodes: Forest, path: seq<NodeId>, protocol: string, w: Walked)
    requires forall x :: x in path ==> x in nodes
  {
    && (forall x :: x in path ==> Shows(nodes[x]))
    && FieldsHonest(nodes, path, protocol, w)
    && HonestColumn(nodes, path, w.icon, IconField) && (forall x :: x in path ==> IconField(nodes[x]) == nodes[x].icon)
    && HonestColumn(nodes, path, w.colour, ColourField) && (forall x :: x in path ==> ColourField(nodes[x]) == nodes[x].colour)
    && (forall key :: key in w.settings ==> SettingHonest(nodes, path, key, w.settings[key]))
    && forall key, x :: x in path && SetsKey(nodes[x], key) ==> key in w.settings
  }

  ghost predicate FieldsHonest(nodes: Forest, path: seq<NodeId>, protocol: string, w: Walked)
    requires forall x :: x in path ==> x in nodes
  {
    && Honest(nodes, path, PortField, Lifted<Port>, w.port, DefaultPort(protocol))
    && Honest(nodes, path, CredentialField, Lifted<NodeRef>, w.credential, None)
    && Honest(nodes, path, GatewayField, Itself<seq<GatewayHop>>, w.gateway, [])
    && Honest(nodes, path, ConnectTimeoutField, Lifted<U32>, w.connectTimeoutMs, None)
    && Honest(nodes, path, KeepaliveField, Lifted<U32>, w.keepaliveSecs, None)
    && Honest(nodes, path, OnConnectField, Itself<seq<string>>, w.onConnect, [])
    && Honest(nodes, path, OnDisconnectField, Itself<seq<string>>, w.onDisconnect, [])
    && Honest(nodes, path, RecordingField, Itself<RecordingPolicy>, w.recording, NeverRecord)
    && Honest(nodes, path, AutoReconnectField, Itself<ReconnectPolicy>, w.autoReconnect, NeverReconnect)
  }

  /** A plain optional column comes from the nearest node that has it. */
  ghost predicate HonestColumn(nodes: Forest, path: seq<NodeId>, r: Resolved<Option<string>>, column: Node -> Option<string>)
    requires forall x :: x in path ==> x in nodes
  {
    if r.value.None? then r.provenance == DefaultAtRoot && forall x :: x in path ==> column(nodes[x]).None?
    else exists k :: 0 <= k < |path| && column(nodes[path[k]]) == r.value
                     && r.provenance == (if k == 0 then Own(path[k]) else Ancestor(path[k]))
                     && forall i :: 0 <= i < k ==> column(nodes[path[i]]).None?
  }

  ghost predicate SetsKey(n: Node, key: string) {
    (n.kind.Folder? || n.kind.Connection?) && key in n.kind.fields.settings
  }

  ghost predicate SettingHonest(nodes: Forest, path: seq<NodeId>, key: string, r: Resolved<string>)
    requires forall x :: x in path ==> x in nodes
  {
    exists k :: 0 <= k < |path| && r.provenance == (if k == 0 then Own(path[k]) else Ancestor(path[k]))
                && SetsKey(nodes[path[k]], key) && nodes[path[k]].kind.fields.settings[key] == r.value
                && forall i :: 0 <= i < k ==> !SetsKey(nodes[path[i]], key)
  }

  lemma SetsKeyIs(n: Node, key: string)
    ensures SetsKey(n, key) <==> key in SettingsOf(n)
    ensures SetsKey(n, key) ==> SettingsOf(n)[key] == n.kind.fields.settings[key]
  {
  }

  lemma {:induction false} FieldsAreHonest(nodes: Forest, path: seq<NodeId>, protocol: string)
    requires Keyed(nodes) && path != [] && forall x :: x in path ==> x in nodes
    ensures FieldsHonest(nodes, path, protocol, WalkedOf(protocol, NodesAt(nodes, path)[0], NodesAt(nodes, path)[1..]))
  {
    hide Honest, Resolve, MergedSettings, ResolveOptionalField;
    var w := WalkedOf(protocol, NodesAt(nodes, path)[0], NodesAt(nodes, path)[1..]);
    ResolvedHonestly(nodes, path, PortField, Lifted<Port>, w.port, DefaultPort(protocol));
    ResolvedHonestly(nodes, path, CredentialField, Lifted<NodeRef>, w.credential, None);
    ResolvedHonestly(nodes, path, GatewayField, Itself<seq<GatewayHop>>, w.gateway, []);
    ResolvedHonestly(nodes, path, ConnectTimeoutField, Lifted<U32>, w.connectTimeoutMs, None);
    ResolvedHonestly(nodes, path, KeepaliveField, Lifted<U32>, w.keepaliveSecs, None);
    ResolvedHonestly(nodes, path, OnConnectField, Itself<seq<string>>, w.onConnect, []);
    ResolvedHonestly(nodes, path, OnDisconnectField, Itself<seq<string>>, w.onDisconnect, []);
    ResolvedHonestly(nodes, path, RecordingField, Itself<RecordingPolicy>, w.recording, NeverRecord);
    ResolvedHonestly(nodes, path, AutoReconnectField, Itself<ReconnectPolicy>, w.autoReconnect, NeverReconnect);
  }

  lemma {:induction false} WalkIsHonest(nodes: Forest, path: seq<NodeId>, protocol: string)
    requires Keyed(nodes) && path != [] && forall x :: x in path ==> x in nodes
    ensures AllHonest(nodes, path, protocol, WalkedOf(protocol, NodesAt(nodes, path)[0], NodesAt(nodes, path)[1..]))
  {
    hide FieldsHonest, Resolve, SettingHonest, MergedSettings, HonestColumn, SetsKey, ResolveOptionalField;
    var w := WalkedOf(protocol, NodesAt(nodes, path)[0], NodesAt(nodes, path)[1..]);
    FieldsAreHonest(nodes, path, protocol);
    OptionalHonestly(nodes, path, IconField, IconState);
    OptionalHonestly(nodes, path, ColourField, ColourState);
    forall key
      ensures key in w.settings ==> SettingHonest(nodes, path, key, w.settings[key])
      ensures forall x :: x in path && SetsKey(nodes[x], key) ==> key in w.settings
    {
      SettingsHonest(nodes, path, key);
    }
  }

  lemma {:induction false} OptionalHonestly(nodes: Forest, path: seq<NodeId>, plain: Node -> Option<string>, state: Field<string>)
    requires Keyed(nodes) && path != [] && (forall x :: x in path ==> x in nodes) && forall n :: state(n) == AsInherited(plain(n))
    ensures HonestColumn(nodes, path, ResolveOptionalField(NodesAt(nodes, path)[0], NodesAt(nodes, path)[1..], plain), plain)
  {
    hide Resolve, ResolveOptionalField;
    var all := NodesAt(nodes, path);
    var r := ResolveOptionalField(all[0], all[1..], plain);
    OptionalIsInherited(all[0], all[1..], plain, state);
    ResolvedHonestly(nodes, path, state, Lifted<string>, r, None);
    assert forall x :: x in path ==> state(nodes[x]) == AsInherited(plain(nodes[x]));
  }

  /** The first node from position `from` on that sets a key. */
  ghost function Setter(nodes: Forest, path: seq<NodeId>, key: string, from: nat): (k: nat)
    requires from <= |path| && (forall x :: x in path ==> x in nodes) && forall i :: 0 <= i < from ==> key !in SettingsOf(nodes[path[i]])
    ensures k <= |path| && (forall i :: 0 <= i < k ==> key !in SettingsOf(nodes[path[i]])) && (k < |path| ==> key in SettingsOf(nodes[path[k]]))
    decreases |path| - from
  {
    if from == |path| || key in SettingsOf(nodes[path[from]]) then from else Setter(nodes, path, key, from + 1)
  }

  lemma {:induction false} SettingsHonest(nodes: Forest, path: seq<NodeId>, key: string)
    requires Keyed(nodes) && path != [] && forall x :: x in path ==> x in nodes
    ensures var merged := MergedSettings(NodesAt(nodes, path)[0], NodesAt(nodes, path)[1..]);
            && (key in merged ==> SettingHonest(nodes, path, key, merged[key]))
            && (forall x :: x in path && SetsKey(nodes[x], key) ==> key in merged)
  {
    hide SettingsOf, MergedSettings, SetsKey;
    var all := NodesAt(nodes, path);
    var k := Setter(nodes, path, key, 0);
    assert [all[0]] + all[1..] == all;
    forall i | 0 <= i < |path| ensures ([all[0]] + all[1..])[i] == nodes[path[i]] && path[i] in path {
    }
    MergedNearest(all[0], all[1..], key, k);
    forall x | x in path ensures SetsKey(nodes[x], key) <==> key in SettingsOf(nodes[x]) {
      SetsKeyIs(nodes[x], key);
    }
    if k < |path| {
      SetsKeyIs(nodes[path[k]], key);
    }
    forall x | x in path && SetsKey(nodes[x], key) ensures k < |path| {
      var i :| 0 <= i < |path| && path[i] == x;
    }
  }

  /** In a grounded tree the provenance of every resolved field is the truth about the tree. */
  lemma {:induction false} ProvenanceIsHonest(nodes: Forest, id: NodeId)
    requires Grounded(nodes) && Keyed(nodes) && id in nodes && nodes[id].kind.Connection?
    ensures forall x :: x in Lineage(Parents(nodes), Some(id)) ==> x in nodes
    ensures EffectiveConnection(nodes, id).Ok?
    ensures AllHonest(nodes, Lineage(Parents(nodes), Some(id)), nodes[id].kind.protocol, EffectiveConnection(nodes, id).value.walked)
  {
    hide AllHonest, Lineage, Rooted, Climb, AncestorsOf, WalkedOf;
    EffectiveAlongLineage(nodes, id);
    WalkIsHonest(nodes, Lineage(Parents(nodes), Some(id)), nodes[id].kind.protocol);
  }

  /** The credential a connection logs in with: a live reference to a credential of the tree. */
  ghost predicate LogsInWith(nodes: Forest, e: Effective, c: NodeId) {
    e.walked.credential.value == Some(Live(c)) && c in nodes && nodes[c].kind.Credential?
  }

  /**
   A connection keeps its own name, protocol and host. Its username is that of the credential it logs in with,
   supplied by whoever supplied the credential, and its credential is its own exactly when attached to it.
   */
  lemma {:induction false} AccountIsRead(nodes: Forest, id: NodeId)
    requires Keyed(nodes) && id in nodes && Anchor(nodes, id) && nodes[id].kind.Connection?
    ensures EffectiveConnection(nodes, id).Ok?
    ensures var e := EffectiveConnection(nodes, id).value;
            && e.node == id && e.name == nodes[id].name && e.protocol == nodes[id].kind.protocol && e.host == nodes[id].kind.host
            && e.username.provenance == e.walked.credential.provenance
            && (forall c :: LogsInWith(nodes, e, c) ==> e.username.value == Some(nodes[c].kind.props.username))
            && (e.username.value.Some? ==> exists c :: LogsInWith(nodes, e, c))
            && (e.credentialAttached <==> exists c :: LogsInWith(nodes, e, c) && nodes[c].kind.props.attachedTo == Some(id))
  {
    hide AncestorsOf, WalkedOf, Rooted;
    EffectiveAlongLineage(nodes, id);
    var e := EffectiveConnection(nodes, id).value;
    if CredentialAt(nodes, e.walked.credential.value).Some? {
      assert LogsInWith(nodes, e, e.walked.credential.value.value.id);
    }
  }
}
