/** Value validation (crates/remoter-core/src/validate.rs): the first rule a node breaks, if any. */
module Validation {
  import opened Base
  import opened Inheritance
  import opened Nodes
  import opened Text

  const MAX_NAME_LEN := 255
  const MAX_DESCRIPTION_LEN := 4096
  const MAX_TAG_LEN := 64
  const MAX_PROTOCOL_ID_LEN := 64
  const MAX_KEY_LEN := 128
  const MAX_USERNAME_LEN := 255
  const MAX_GATEWAY_HOPS := 8

  datatype ValidationError =
    | NameEmpty | NameTooLong | NameControlChar | DescriptionTooLong
    | InvalidTag | InvalidIcon | InvalidColour | InvalidCustomFieldKey
    | HostEmpty | InvalidHost | PortOutOfRange | NonPositiveInterval | EmptyAction
    | InvalidReconnectPolicy | InvalidSettingKey | InvalidProtocolId
    | GatewayTooLong(hops: nat) | GatewayCycle(hop: NodeId)
    | UsernameTooLong | IdentityControlChar
    | SealedMaterialEmpty | ExternalCredentialIncomplete | InvalidLayout
    | CredentialUnknown(credential: NodeId) | CredentialNotACredential(credential: NodeId)
    | CredentialAttachedElsewhere(credential: NodeId, connection: NodeId)
    | CredentialPurpose(credential: NodeId, protocol: string)
    | CredentialAttachmentUnknown(credential: NodeId, connection: NodeId)
    | CredentialAttachmentNotAConnection(credential: NodeId, connection: NodeId)
    | GatewayHopUnknown(hop: NodeId) | GatewayHopNotAConnection(hop: NodeId)
    | GroupMemberUnknown(member: NodeId)

  type Verdict = Option<ValidationError>

  function Reject(broken: bool, error: ValidationError): Verdict {
    if broken then Some(error) else None
  }

  function Then(first: Verdict, second: Verdict): Verdict {
    if first.Some? then first else second
  }

  function ValidateName(name: string): Verdict {
    if name == [] then Some(NameEmpty)
    else if |name| > MAX_NAME_LEN then Some(NameTooLong)
    else Reject(HasControl(name), NameControlChar)
  }

  predicate ValidTag(tag: string) {
    0 < |tag| <= MAX_TAG_LEN
    && forall i :: 0 <= i < |tag| ==> !IsControl(tag[i]) && !IsWhitespace(tag[i]) && tag[i] != ','
  }

  predicate ValidProtocolId(id: string) {
    0 < |id| <= MAX_PROTOCOL_ID_LEN
    && (forall i :: 0 <= i < |id| ==> IsLower(id[i]) || IsDigit(id[i]) || id[i] in ".-_")
    && id[0] != '.' && id[|id| - 1] != '.'
  }

  /** The syntax settings keys and custom-field keys share. */
  predicate ValidKey(key: string) {
    0 < |key| <= MAX_KEY_LEN
    && (forall i :: 0 <= i < |key| ==> IsAlphanumeric(key[i]) || key[i] in ".-_")
    && key[0] != '.' && key[|key| - 1] != '.'
  }

  predicate ValidColour(colour: string) {
    |colour| in {7, 9} && colour[0] == '#' && forall i :: 1 <= i < |colour| ==> IsHexDigit(colour[i])
  }

  // Hosts, by their syntax.

  function ValidateHost(host: string): Verdict {
    if host == [] then Some(HostEmpty)
    else if host[0] == '[' then
      Reject(!(host[|host| - 1] == ']' && |host| >= 2 && ValidIpv6(Split(host[1..|host| - 1], '%')[0])), InvalidHost)
    else
      Reject(!(ValidIpv4(host) || (':' !in host && ValidDnsName(host))), InvalidHost)
  }

  predicate ValidDnsName(host: string) {
    var name := if host != [] && host[|host| - 1] == '.' then host[..|host| - 1] else host;
    var labels := Split(name, '.');
    && 0 < |name| <= 253
    && (forall i :: 0 <= i < |labels| ==> ValidLabel(labels[i]))
    && !AllDigits(labels[|labels| - 1])
  }

  predicate ValidLabel(part: string) {
    0 < |part| <= 63
    && (forall i :: 0 <= i < |part| ==> IsAlphanumeric(part[i]) || part[i] == '-')
    && part[0] != '-' && part[|part| - 1] != '-'
  }

  predicate AllDigits(s: string) {
    forall i :: 0 <= i < |s| ==> IsDigit(s[i])
  }

  predicate ValidIpv4(host: string) {
    var octets := Split(host, '.');
    |octets| == 4 && forall i :: 0 <= i < 4 ==> ValidOctet(octets[i])
  }

  predicate ValidOctet(s: string) {
    0 < |s| <= 3 && AllDigits(s) && (|s| > 1 ==> s[0] != '0')
    && (|s| == 3 ==> s[0] == '1' || (s[0] == '2' && (s[1] < '5' || (s[1] == '5' && s[2] <= '5'))))
  }

  /** Eight groups, or fewer around one `::`, the last two optionally written as an IPv4 address. */
  predicate ValidIpv6(s: string) {
    match Gap(s)
    case None => GroupCount(Split(s, ':'), true) == 8
    case Some(i) =>
      var head, tail := s[..i], s[i + 2..];
      && (head == [] || GroupCount(Split(head, ':'), false) > 0)
      && (tail == [] || GroupCount(Split(tail, ':'), true) > 0)
      && (if head == [] then 0 else GroupCount(Split(head, ':'), false))
         + (if tail == [] then 0 else GroupCount(Split(tail, ':'), true)) <= 7
  }

  function Gap(s: string): (r: Option<nat>)
    ensures r.Some? ==> r.value + 2 <= |s|
  {
    if |s| < 2 then None
    else if s[0] == ':' && s[1] == ':' then Some(0)
    else match Gap(s[1..]) case None => None case Some(i) => Some(i + 1)
  }

  /** How many 16-bit groups the pieces spell, or -1 when one is malformed. */
  function GroupCount(pieces: seq<string>, mayEndInIpv4: bool): int {
    if pieces == [] then 0
    else if mayEndInIpv4 && |pieces| == 1 && ValidIpv4(pieces[0]) then 2
    else if 0 < |pieces[0]| <= 4 && (forall i :: 0 <= i < |pieces[0]| ==> IsHexDigit(pieces[0][i])) then
      var rest := GroupCount(pieces[1..], mayEndInIpv4);
      if rest < 0 then -1 else 1 + rest
    else -1
  }

  lemma {:induction false} OneLetterHost()
    ensures ValidateHost("h").None?
  {
    SplitAlone("h", '.');
    var labels := Split("h", '.');
    assert ValidLabel(labels[0]);
    assert "h"[..1] == "h";
  }

  /** The scan of a route for too many hops or a repeated one (validate.rs:410). */
  function ValidateGateway(hops: seq<GatewayHop>): Verdict {
    if |hops| > MAX_GATEWAY_HOPS then Some(GatewayTooLong(|hops|)) else RepeatedHop(hops, 0)
  }

  function RepeatedHop(hops: seq<GatewayHop>, from: nat): Verdict
    requires from <= |hops|
    decreases |hops| - from
  {
    if from == |hops| then None
    else if exists i :: 0 <= i < from && hops[i].node.id == hops[from].node.id then
      Some(GatewayCycle(hops[from].node.id))
    else RepeatedHop(hops, from + 1)
  }

  predicate SimpleRoute(hops: seq<GatewayHop>) {
    |hops| <= MAX_GATEWAY_HOPS
    && forall i, j :: 0 <= i < j < |hops| ==> hops[i].node.id != hops[j].node.id
  }

  /** The scan accepts exactly the short chains that visit no hop twice. */
  lemma GatewayAccepted(hops: seq<GatewayHop>)
    ensures ValidateGateway(hops).None? <==> SimpleRoute(hops)
  {
    if |hops| <= MAX_GATEWAY_HOPS {
      RepeatedHopExact(hops, 0);
    }
  }

  lemma {:induction false} RepeatedHopExact(hops: seq<GatewayHop>, from: nat)
    requires from <= |hops|
    ensures RepeatedHop(hops, from).None? <==>
            (forall i, j :: 0 <= i < j < |hops| && from <= j ==> hops[i].node.id != hops[j].node.id)
    decreases |hops| - from
  {
    if from < |hops| {
      RepeatedHopExact(hops, from + 1);
    }
  }

  function ValidateFields(f: Inheritable): Verdict {
    Then(Reject(f.port == Explicit(0), PortOutOfRange),
    Then(if f.gateway.Explicit? then ValidateGateway(f.gateway.value) else None,
         ValidateScalars(f)))
  }

  /** The rules of a field record that no reference takes part in. */
  function ValidateScalars(f: Inheritable): Verdict {
    Then(Reject(f.connectTimeoutMs == Explicit(0) || f.keepaliveSecs == Explicit(0), NonPositiveInterval),
    Then(Reject(BlankAction(f.onConnect) || BlankAction(f.onDisconnect), EmptyAction),
    Then(Reject(BadReconnect(f.autoReconnect), InvalidReconnectPolicy),
         Reject(!ValidSettings(f.settings), InvalidSettingKey))))
  }

  predicate ValidSettings(settings: map<string, string>) {
    forall key :: key in settings ==> ValidKey(key)
  }

  predicate BlankAction(actions: Inherited<seq<string>>) {
    actions.Explicit? && exists i :: 0 <= i < |actions.value| && Trim(actions.value[i]) == []
  }

  predicate BadReconnect(policy: Inherited<ReconnectPolicy>) {
    policy.Explicit? && policy.value.Retry?
    && (policy.value.maxAttempts == 0 || policy.value.initialBackoffMs == 0
        || policy.value.maxBackoffMs < policy.value.initialBackoffMs)
  }

  function ValidateSecret(secret: SecretKind): Verdict {
    match secret
    case Password(sealed) => Reject(sealed == [], SealedMaterialEmpty)
    case PrivateKey(key, passphrase) => Reject(key == [] || passphrase == Some([]), SealedMaterialEmpty)
    case Certificate(cert, key) => Reject(cert == [] || key == [], SealedMaterialEmpty)
    case External(provider, reference) => Reject(provider == [] || reference == [], ExternalCredentialIncomplete)
    case Agent(_) => None
  }

  function ValidateCredential(props: CredentialProps): Verdict {
    Then(Reject(|props.username| > MAX_USERNAME_LEN, UsernameTooLong),
    Then(Reject(HasControl(props.username) || (props.domain.Some? && HasControl(props.domain.value)),
                IdentityControlChar),
         ValidateSecret(props.secret)))
  }

  function ValidateKind(kind: NodeKind): Verdict {
    match kind
    case Folder(f) => ValidateFields(f)
    case Connection(_, host, f) => Then(ValidateHost(host), ValidateFields(f))
    case Credential(props) => ValidateCredential(props)
    case Group(g) => Reject(g.layout.Grid? && (g.layout.rows == 0 || g.layout.cols == 0), InvalidLayout)
    case Separator => None
  }

  /** The rules about a node's own columns, before its kind's. */
  function ValidateColumns(n: Node): Verdict {
    Then(ValidateName(n.name),
    Then(Reject(|n.description| > MAX_DESCRIPTION_LEN, DescriptionTooLong),
    Then(Reject(exists i :: 0 <= i < |n.tags| && !ValidTag(n.tags[i]), InvalidTag),
    Then(Reject(n.icon.Some? && (n.icon.value == [] || HasControl(n.icon.value)), InvalidIcon),
    Then(Reject(n.colour.Some? && !ValidColour(n.colour.value), InvalidColour),
         Reject(exists key :: key in n.customFields && !ValidKey(key), InvalidCustomFieldKey))))))
  }

  function ValidateNode(n: Node): Verdict {
    Then(ValidateColumns(n), ValidateKind(n.kind))
  }

  // What passing means, rule by rule.

  ghost predicate Printable(s: string) {
    forall c :: c in s ==> !IsControl(c)
  }

  /** One to `most` letters, digits, dots, dashes and underscores, no dot at either end. */
  ghost predicate KeyLike(s: string, most: nat) {
    0 < |s| <= most && s[0] != '.' && s[|s| - 1] != '.' && forall c :: c in s ==> IsAlphanumeric(c) || c == '.' || c == '-' || c == '_'
  }

  ghost predicate GoodColumns(n: Node) {
    && 0 < |n.name| <= 255 && Printable(n.name) && |n.description| <= 4096
    && (forall tag :: tag in n.tags ==> 0 < |tag| <= 64 && Printable(tag) && forall c :: c in tag ==> !IsWhitespace(c) && c != ',')
    && (n.icon.Some? ==> n.icon.value != "" && Printable(n.icon.value))
    && (n.colour.Some? ==>
          && (|n.colour.value| == 7 || |n.colour.value| == 9) && n.colour.value[0] == '#'
          && forall i :: 0 < i < |n.colour.value| ==> IsHexDigit(n.colour.value[i]))
    && (forall key :: key in n.customFields ==> KeyLike(key, 128))
  }

  ghost predicate GoodFields(f: Inheritable) {
    && f.port != Explicit(0) && f.connectTimeoutMs != Explicit(0) && f.keepaliveSecs != Explicit(0)
    && (f.gateway.Explicit? ==>
          && |f.gateway.value| <= 8
          && forall i, j :: 0 <= i < j < |f.gateway.value| ==> f.gateway.value[i].node.id != f.gateway.value[j].node.id)
    && (f.onConnect.Explicit? ==> forall action :: action in f.onConnect.value ==> Trim(action) != "")
    && (f.onDisconnect.Explicit? ==> forall action :: action in f.onDisconnect.value ==> Trim(action) != "")
    && (f.autoReconnect.Explicit? && f.autoReconnect.value.Retry? ==>
          var r := f.autoReconnect.value; 0 < r.maxAttempts && 0 < r.initialBackoffMs <= r.maxBackoffMs)
    && (forall key :: key in f.settings ==> KeyLike(key, 128))
  }

  ghost predicate GoodSecret(secret: SecretKind) {
    match secret
    case Password(bytes) => bytes != []
    case PrivateKey(key, passphrase) => key != [] && (passphrase.Some? ==> passphrase.value != [])
    case Agent(_) => true
    case External(provider, reference) => provider != "" && reference != ""
    case Certificate(cert, key) => cert != [] && key != []
  }

  ghost predicate GoodKind(kind: NodeKind) {
    match kind
    case Folder(f) => GoodFields(f)
    case Connection(_, host, f) => ValidateHost(host).None? && GoodFields(f)
    case Credential(props) =>
      && |props.username| <= 255 && Printable(props.username) && (props.domain.Some? ==> Printable(props.domain.value))
      && GoodSecret(props.secret)
    case Group(g) => g.layout.Grid? ==> g.layout.rows > 0 && g.layout.cols > 0
    case Separator => true
  }

  lemma PrintableIs(s: string)
    ensures Printable(s) <==> !HasControl(s)
  {
    assert forall i :: 0 <= i < |s| ==> s[i] in s;
  }

  lemma KeyLikeIs(s: string)
    ensures KeyLike(s, 128) <==> ValidKey(s)
  {
    assert forall i :: 0 <= i < |s| ==> s[i] in s;
  }

  lemma TagIs(tag: string)
    ensures ValidTag(tag) <==> 0 < |tag| <= 64 && Printable(tag) && forall c :: c in tag ==> !IsWhitespace(c) && c != ','
  {
    assert forall i :: 0 <= i < |tag| ==> tag[i] in tag;
  }

  /** The checks pass exactly the nodes that keep every rule. */
  lemma {:induction false} NodeAccepted(n: Node)
    ensures ValidateNode(n).None? <==> GoodColumns(n) && GoodKind(n.kind)
  {
    hide GoodColumns, GoodKind, ValidateColumns, ValidateKind;
    ColumnsAccepted(n);
    KindAccepted(n.kind);
  }

  lemma {:induction false} ColumnsAccepted(n: Node)
    ensures ValidateColumns(n).None? <==> GoodColumns(n)
  {
    hide HasControl, Printable, KeyLike, ValidKey, ValidTag;
    PrintableIs(n.name);
    forall tag | tag in n.tags ensures ValidTag(tag) <==> 0 < |tag| <= 64 && Printable(tag) && forall c :: c in tag ==> !IsWhitespace(c) && c != ',' {
      TagIs(tag);
    }
    if n.icon.Some? {
      PrintableIs(n.icon.value);
    }
    forall key | key in n.customFields ensures KeyLike(key, 128) <==> ValidKey(key) {
      KeyLikeIs(key);
    }
  }

  lemma {:induction false} FieldsAccepted(f: Inheritable)
    ensures ValidateFields(f).None? <==> GoodFields(f)
  {
    hide KeyLike, ValidKey, ValidateGateway, Trim;
    if f.gateway.Explicit? {
      GatewayAccepted(f.gateway.value);
    }
    forall key | key in f.settings ensures KeyLike(key, 128) <==> ValidKey(key) {
      KeyLikeIs(key);
    }
  }

  lemma {:induction false} KindAccepted(kind: NodeKind)
    ensures ValidateKind(kind).None? <==> GoodKind(kind)
  {
    hide HasControl, Printable, ValidateHost, ValidateFields, GoodFields;
    match kind
    case Folder(f) => FieldsAccepted(f);
    case Connection(_, _, f) => FieldsAccepted(f);
    case Credential(props) =>
      PrintableIs(props.username);
      if props.domain.Some? {
        PrintableIs(props.domain.value);
      }
    case _ =>
  }

  /** Nothing else about a node takes part in its validation. */
  lemma SameVerdict(a: Node, b: Node)
    requires a.name == b.name && a.description == b.description && a.tags == b.tags && a.icon == b.icon && a.colour == b.colour
    requires a.customFields == b.customFields && a.kind == b.kind
    ensures ValidateNode(a) == ValidateNode(b)
  {
    hide ValidTag, ValidKey, ValidColour, ValidateName, HasControl, ValidateKind;
  }

  /** Rewriting references keeps a node valid as long as it merges no two hops of one route. */
  lemma MappedNodeValid(n: Node, tau: NodeRef -> NodeRef)
    requires ValidateNode(n).None?
    requires forall a, b :: a in References(n) && b in References(n) && tau(a).id == tau(b).id ==> a.id == b.id
    ensures ValidateNode(MapReferences(n, tau)).None?
  {
    if FieldsOf(n).Some? && FieldsOf(n).value.gateway.Explicit? {
      var hops := FieldsOf(n).value.gateway.value;
      GatewayAccepted(hops);
      GatewayAccepted(MapHops(hops, tau));
      forall i, j | 0 <= i < j < |hops| ensures tau(hops[i].node).id != tau(hops[j].node).id {
        HopIsReferenced(hops, i);
        HopIsReferenced(hops, j);
        assert hops[i].node in References(n) && hops[j].node in References(n);
      }
    }
  }

  lemma {:induction false} HopIsReferenced(hops: seq<GatewayHop>, i: nat)
    requires i < |hops|
    ensures hops[i].node in HopReferences(hops)
  {
    if i > 0 {
      HopIsReferenced(hops[1..], i - 1);
    }
  }
}
