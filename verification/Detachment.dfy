/** Cutting a node out of the tree without changing what it means (crates/remoter-core/src/tree.rs:772-911, 1146-1160). */
module Detachment {
  import opened Base
  import opened Inheritance
  import opened Nodes
  import opened Validation
  import opened Lineages
  import opened Forests
  import opened Resolution

  /** A field the node leaves to its ancestors becomes what they give it. */
  function Pin<T>(field: Inherited<T>, original: Node, ancestors: seq<Node>, get: Field<T>): Inherited<T> {
    if !field.Inherit? then field
    else
      var r := Resolve(original, ancestors, get);
      if r.provenance.Ancestor? && r.value.Some? then Explicit(r.value.value)
      else if r.provenance.DefaultAt? then Default
      else field
  }

  function PinFields(f: Inheritable, original: Node, ancestors: seq<Node>): Inheritable {
    Inheritable(
      Pin(f.credential, original, ancestors, CredentialField),
      Pin(f.gateway, original, ancestors, GatewayField),
      Pin(f.port, original, ancestors, PortField),
      Pin(f.connectTimeoutMs, original, ancestors, ConnectTimeoutField),
      Pin(f.keepaliveSecs, original, ancestors, KeepaliveField),
      Pin(f.onConnect, original, ancestors, OnConnectField),
      Pin(f.onDisconnect, original, ancestors, OnDisconnectField),
      Pin(f.recording, original, ancestors, RecordingField),
      Pin(f.autoReconnect, original, ancestors, AutoReconnectField),
      FillSettings(f.settings, ancestors))
  }

  /** Every key an ancestor sets and the settings do not, nearest ancestor first. */
  function FillSettings(settings: map<string, string>, ancestors: seq<Node>): map<string, string>
    decreases |ancestors|
  {
    if ancestors == [] then settings else FillSettings(SettingsOf(ancestors[0]) + settings, ancestors[1..])
  }

  /** A key the settings would take over that is not a valid settings key. */
  predicate BadKey(settings: map<string, string>, ancestors: seq<Node>) {
    exists i, key :: 0 <= i < |ancestors| && key in SettingsOf(ancestors[i]) && key !in settings && !ValidKey(key)
  }

  /** `merge_ancestor_settings`: insert if absent, one ancestor after another. */
  method MergeAncestorSettings(own: map<string, string>, ancestors: seq<Node>) returns (r: Result<map<string, string>, CoreError>)
    ensures r == if BadKey(own, ancestors) then Err(Invalid(InvalidSettingKey)) else Ok(FillSettings(own, ancestors))
  {
    var settings := own;
    for i := 0 to |ancestors|
      invariant FillSettings(settings, ancestors[i..]) == FillSettings(own, ancestors)
      invariant own.Keys <= settings.Keys
      invariant forall j, key :: 0 <= j < i && key in SettingsOf(ancestors[j]) ==> key in own || ValidKey(key)
      invariant forall key :: key in settings ==> key in own || ValidKey(key)
    {
      var inherited := SettingsOf(ancestors[i]);
      if key :| key in inherited && key !in settings && !ValidKey(key) {
        return Err(Invalid(InvalidSettingKey));
      }
      settings := inherited + settings;
      assert ancestors[i..][1..] == ancestors[i + 1..];
    }
    r := Ok(settings);
  }

  function DetachedNode(original: Node, ancestors: seq<Node>): Node {
    var kind := match original.kind
      case Folder(f) => Folder(PinFields(f, original, ancestors))
      case Connection(p, h, f) => Connection(p, h, PinFields(f, original, ancestors))
      case other => other;
    original.(
      parentId := None,
      kind := kind,
      icon := if original.icon.Some? then original.icon else ScanOptional(ancestors, IconField).value,
      colour := if original.colour.Some? then original.colour else ScanOptional(ancestors, ColourField).value)
  }

  /** `Tree::detached`. */
  function Detached(nodes: Forest, id: NodeId): Result<Node, CoreError> {
    match AncestorsOf(nodes, id)
    case Err(e) => Err(e)
    case Ok(ancestors) =>
      if FieldsOf(nodes[id]).Some? && BadKey(SettingsOf(nodes[id]), ancestors) then Err(Invalid(InvalidSettingKey))
      else Ok(DetachedNode(nodes[id], ancestors))
  }

  // Who supplies what afterwards.

  /** A value an ancestor of `f` supplied now comes from `f`; `own` says the resolving node is `f` itself. */
  function Resupply(p: Provenance, above: set<NodeId>, f: NodeId, own: bool): Provenance {
    match p
    case Ancestor(a) => if a in above then if own then Own(f) else Ancestor(f) else p
    case DefaultAt(a) => if a in above then DefaultAt(f) else p
    case _ => p
  }

  function Resupplied<T>(r: Resolved<T>, above: set<NodeId>, f: NodeId, own: bool): Resolved<T> {
    r.(provenance := Resupply(r.provenance, above, f, own))
  }

  function ResuppliedSettings(settings: map<string, Resolved<string>>, above: set<NodeId>, f: NodeId, own: bool): map<string, Resolved<string>> {
    map key | key in settings :: Resupplied(settings[key], above, f, own)
  }

  function ResuppliedWalk(w: Walked, above: set<NodeId>, f: NodeId, own: bool): Walked {
    Walked(
      Resupplied(w.port, above, f, own),
      Resupplied(w.credential, above, f, own),
      Resupplied(w.gateway, above, f, own),
      Resupplied(w.connectTimeoutMs, above, f, own),
      Resupplied(w.keepaliveSecs, above, f, own),
      ResuppliedSettings(w.settings, above, f, own),
      Resupplied(w.onConnect, above, f, own),
      Resupplied(w.onDisconnect, above, f, own),
      Resupplied(w.recording, above, f, own),
      Resupplied(w.autoReconnect, above, f, own),
      Resupplied(w.icon, above, f, own),
      Resupplied(w.colour, above, f, own))
  }

  function ResuppliedConnection(e: Effective, above: set<NodeId>, f: NodeId): Effective {
    e.(walked := ResuppliedWalk(e.walked, above, f, e.node == f),
       username := Resupplied(e.username, above, f, e.node == f))
  }

  function Ids(path: seq<Node>): set<NodeId> {
    set n | n in path :: n.id
  }

  /** The part of a path below the cut: none of its nodes is named above the cut. */
  ghost predicate Apart(below: seq<Node>, above: seq<Node>) {
    forall n :: n in below ==> n.id !in Ids(above)
  }

  /** `cut` is `f` with one field pinned. */
  ghost predicate Pinned<T>(f: Node, above: seq<Node>, cut: Node, field: Field<T>) {
    cut.id == f.id && field(f).Some? && field(cut) == Some(Pin(field(f).value, f, above, field))
  }

  lemma {:induction false} ScanSource<T>(above: seq<Node>, field: Field<T>)
    ensures var p := Scan(above, field).provenance;
            !p.Own? && (p.Ancestor? || p.DefaultAt? ==> p.node in Ids(above))
    ensures Scan(above, field).provenance.Ancestor? <==> Scan(above, field).value.Some?
  {
    if above != [] {
      ScanSource(above[1..], field);
      assert above[0] in above;
      assert above[0].id in Ids(above);
      assert forall n :: n in above[1..] ==> n in above;
    }
  }

  /** Resolving through the cut node gives what resolving through everything above it gave. */
  lemma {:induction false} ScanCut<T>(below: seq<Node>, f: Node, above: seq<Node>, cut: Node, field: Field<T>)
    requires Apart(below + [f], above) && Pinned(f, above, cut, field)
    ensures Scan(below + [cut], field) == Resupplied(Scan(below + [f] + above, field), Ids(above), f.id, false)
    decreases |below|
  {
    if below == [] {
      ScanSource(above, field);
      assert f in below + [f];
      assert (below + [f] + above)[1..] == above && (below + [f] + above)[0] == f;
      assert (below + [cut])[1..] == [] && (below + [cut])[0] == cut;
    } else {
      var rest := below[1..];
      assert (below + [cut])[1..] == rest + [cut];
      assert (below + [f] + above)[1..] == rest + [f] + above;
      assert below[0] in below + [f];
      assert forall n :: n in rest + [f] ==> n in below + [f];
      ScanCut(rest, f, above, cut, field);
    }
  }

  lemma {:induction false} ResolveCut<T>(below: seq<Node>, f: Node, above: seq<Node>, cut: Node, field: Field<T>)
    requires Apart(below + [f], above) && Pinned(f, above, cut, field)
    ensures var long, short := below + [f] + above, below + [cut];
            Resolve(short[0], short[1..], field)
            == Resupplied(Resolve(long[0], long[1..], field), Ids(above), f.id, below == [])
  {
    var long, short := below + [f] + above, below + [cut];
    assert f in below + [f];
    if below == [] {
      ScanSource(above, field);
      assert long[1..] == above && short[1..] == [];
    } else {
      var rest := below[1..];
      assert short[1..] == rest + [cut] && long[1..] == rest + [f] + above;
      assert below[0] in below + [f];
      assert forall n :: n in rest + [f] ==> n in below + [f];
      ScanCut(rest, f, above, cut, field);
    }
  }

  // Settings.

  function Values(settings: map<string, Resolved<string>>): map<string, string> {
    map key | key in settings :: settings[key].value
  }

  /** Insert-if-absent from the nearest ancestor up equals overwriting from the root down. */
  lemma {:induction false} FillIsOverwrite(settings: map<string, string>, ancestors: seq<Node>)
    ensures FillSettings(settings, ancestors) == Values(AncestorSettings(ancestors)) + settings
    decreases |ancestors|
  {
    hide SettingsOf, Values, Labelled;
    if ancestors == [] {
      assert Values(map[]) == map[] by { ValuesEmpty(); }
    } else {
      var a, rest := SettingsOf(ancestors[0]), AncestorSettings(ancestors[1..]);
      FillIsOverwrite(a + settings, ancestors[1..]);
      ValuesOverlay(rest, a, Ancestor(ancestors[0].id));
      assert Values(rest) + (a + settings) == (Values(rest) + a) + settings;
    }
  }

  lemma ValuesEmpty()
    ensures Values(map[]) == map[]
  {
  }

  lemma ValuesOverlay(above: map<string, Resolved<string>>, settings: map<string, string>, source: Provenance)
    ensures Values(above + Labelled(settings, source)) == Values(above) + settings
  {
  }

  lemma {:induction false} SettingsSource(above: seq<Node>)
    ensures forall key :: key in AncestorSettings(above) ==>
              AncestorSettings(above)[key].provenance.Ancestor? && AncestorSettings(above)[key].provenance.node in Ids(above)
  {
    if above != [] {
      SettingsSource(above[1..]);
      assert above[0] in above;
      assert above[0].id in Ids(above);
      assert forall n :: n in above[1..] ==> n in above;
    }
  }

  lemma {:induction false} OverlayCut(f: Node, above: seq<Node>, own: bool)
    requires f.id !in Ids(above)
    ensures var source := if own then Own(f.id) else Ancestor(f.id);
            Labelled(FillSettings(SettingsOf(f), above), source)
            == ResuppliedSettings(AncestorSettings(above) + Labelled(SettingsOf(f), source), Ids(above), f.id, own)
  {
    hide FillSettings, AncestorSettings, SettingsOf;
    FillIsOverwrite(SettingsOf(f), above);
    SettingsSource(above);
  }

  lemma OverlayBelow(merged: map<string, Resolved<string>>, settings: map<string, string>, source: Provenance, above: set<NodeId>, f: NodeId, own: bool)
    requires Resupply(source, above, f, own) == source
    ensures ResuppliedSettings(merged + Labelled(settings, source), above, f, own)
            == ResuppliedSettings(merged, above, f, own) + Labelled(settings, source)
  {
  }

  lemma {:induction false} SettingsCut(below: seq<Node>, f: Node, above: seq<Node>, cut: Node)
    requires Apart(below + [f], above) && cut.id == f.id && SettingsOf(cut) == FillSettings(SettingsOf(f), above)
    ensures AncestorSettings(below + [cut])
            == ResuppliedSettings(AncestorSettings(below + [f] + above), Ids(above), f.id, false)
    decreases |below|
  {
    hide SettingsOf, FillSettings, ResuppliedSettings, Labelled;
    if below == [] {
      assert f in below + [f];
      OverlayCut(f, above, false);
      assert (below + [f] + above)[1..] == above && (below + [f] + above)[0] == f;
      assert (below + [cut])[1..] == [] && (below + [cut])[0] == cut;
    } else {
      var rest := below[1..];
      assert (below + [cut])[1..] == rest + [cut];
      assert (below + [f] + above)[1..] == rest + [f] + above;
      assert below[0] in below + [f];
      assert forall n :: n in rest + [f] ==> n in below + [f];
      SettingsCut(rest, f, above, cut);
      OverlayBelow(AncestorSettings(rest + [f] + above), SettingsOf(below[0]), Ancestor(below[0].id), Ids(above), f.id, false);
    }
  }

  lemma {:induction false} MergedCut(below: seq<Node>, f: Node, above: seq<Node>, cut: Node)
    requires Apart(below + [f], above) && cut.id == f.id && SettingsOf(cut) == FillSettings(SettingsOf(f), above)
    ensures var long, short := below + [f] + above, below + [cut];
            MergedSettings(short[0], short[1..])
            == ResuppliedSettings(MergedSettings(long[0], long[1..]), Ids(above), f.id, below == [])
  {
    hide SettingsOf, FillSettings, ResuppliedSettings, Labelled, AncestorSettings;
    var long, short := below + [f] + above, below + [cut];
    assert f in below + [f];
    if below == [] {
      OverlayCut(f, above, true);
      assert long[1..] == above && short[1..] == [];
      NoSettings();
    } else {
      var rest := below[1..];
      assert short[1..] == rest + [cut] && long[1..] == rest + [f] + above;
      assert below[0] in below + [f];
      assert forall n :: n in rest + [f] ==> n in below + [f];
      SettingsCut(rest, f, above, cut);
      OverlayBelow(AncestorSettings(rest + [f] + above), SettingsOf(below[0]), Own(below[0].id), Ids(above), f.id, false);
    }
  }

  lemma NoSettings()
    ensures AncestorSettings([]) == map[]
  {
  }

  // The whole connection.

  lemma DetachedPins(f: Node, above: seq<Node>)
    requires FieldsOf(f).Some?
    ensures var cut := DetachedNode(f, above);
            && Pinned(f, above, cut, PortField) && Pinned(f, above, cut, CredentialField)
            && Pinned(f, above, cut, GatewayField) && Pinned(f, above, cut, ConnectTimeoutField)
            && Pinned(f, above, cut, KeepaliveField) && Pinned(f, above, cut, OnConnectField)
            && Pinned(f, above, cut, OnDisconnectField) && Pinned(f, above, cut, RecordingField)
            && Pinned(f, above, cut, AutoReconnectField)
            && SettingsOf(cut) == FillSettings(SettingsOf(f), above) && cut.id == f.id
  {
    hide Pin, FillSettings, ScanOptional;
  }

  lemma {:induction false} DetachedPresentation(f: Node, above: seq<Node>)
    ensures Pinned(f, above, DetachedNode(f, above), IconState)
    ensures Pinned(f, above, DetachedNode(f, above), ColourState)
  {
    hide PinFields;
    OptionalScan(above, IconField, IconState);
    OptionalScan(above, ColourField, ColourState);
    ScanSource(above, IconState);
    ScanSource(above, ColourState);
  }

  lemma {:induction false} OptionalScan<T>(ancestors: seq<Node>, plain: Node -> Option<T>, state: Field<T>)
    requires forall n :: state(n) == AsInherited(plain(n))
    ensures ScanOptional(ancestors, plain) == Scan(ancestors, state)
    ensures !Scan(ancestors, state).provenance.DefaultAt?
  {
    if ancestors != [] {
      assert state(ancestors[0]) == AsInherited(plain(ancestors[0]));
      OptionalScan(ancestors[1..], plain, state);
    }
  }

  lemma {:induction false} PresentationCut(below: seq<Node>, f: Node, above: seq<Node>)
    requires Apart(below + [f], above)
    ensures var long, short := below + [f] + above, below + [DetachedNode(f, above)];
            && ResolveOptionalField(short[0], short[1..], IconField)
               == Resupplied(ResolveOptionalField(long[0], long[1..], IconField), Ids(above), f.id, below == [])
            && ResolveOptionalField(short[0], short[1..], ColourField)
               == Resupplied(ResolveOptionalField(long[0], long[1..], ColourField), Ids(above), f.id, below == [])
  {
    hide Apart, Pinned, Resolve, ResolveOptionalField, DetachedNode, Ids;
    var long, short := below + [f] + above, below + [DetachedNode(f, above)];
    DetachedPresentation(f, above);
    ResolveCut(below, f, above, DetachedNode(f, above), IconState);
    ResolveCut(below, f, above, DetachedNode(f, above), ColourState);
    OptionalIsInherited(long[0], long[1..], IconField, IconState);
    OptionalIsInherited(long[0], long[1..], ColourField, ColourState);
    OptionalIsInherited(short[0], short[1..], IconField, IconState);
    OptionalIsInherited(short[0], short[1..], ColourField, ColourState);
  }

  lemma {:induction false} WalkCut(protocol: string, below: seq<Node>, f: Node, above: seq<Node>)
    requires Apart(below + [f], above) && FieldsOf(f).Some?
    ensures var long, short := below + [f] + above, below + [DetachedNode(f, above)];
            WalkedOf(protocol, short[0], short[1..])
            == ResuppliedWalk(WalkedOf(protocol, long[0], long[1..]), Ids(above), f.id, below == [])
  {
    hide Apart, Pinned, Resolve, ResolveOptionalField, DetachedNode, Ids, MergedSettings, ResuppliedSettings, FieldsOf, SettingsOf, FillSettings, Resupply;
    var cut := DetachedNode(f, above);
    DetachedPins(f, above);
    ResolveCut(below, f, above, cut, PortField);
    ResolveCut(below, f, above, cut, CredentialField);
    ResolveCut(below, f, above, cut, GatewayField);
    ResolveCut(below, f, above, cut, ConnectTimeoutField);
    ResolveCut(below, f, above, cut, KeepaliveField);
    ResolveCut(below, f, above, cut, OnConnectField);
    ResolveCut(below, f, above, cut, OnDisconnectField);
    ResolveCut(below, f, above, cut, RecordingField);
    ResolveCut(below, f, above, cut, AutoReconnectField);
    PresentationCut(below, f, above);
    MergedCut(below, f, above, cut);
  }

  // In the tree.

  /** In a legal tree a node can always be detached. */
  lemma {:induction false} DetachSucceeds(nodes: Forest, f: NodeId)
    requires Legal(nodes) && f in nodes
    ensures forall x :: x in Lineage(Parents(nodes), Some(f)) ==> x in nodes
    ensures Depth(nodes, f) > 0
    ensures Detached(nodes, f) == Ok(DetachedNode(nodes[f], PathNodes(nodes, f)[1..]))
  {
    hide Lineage, Rooted, Climb, DetachedNode, AncestorsOf, SettingsOf;
    EffectiveAlongLineage(nodes, f);
    var above := PathNodes(nodes, f)[1..];
    forall i, key | 0 <= i < |above| && key in SettingsOf(above[i]) ensures ValidKey(key) {
      var y := Lineage(Parents(nodes), Some(f))[i + 1];
      assert y in Lineage(Parents(nodes), Some(f));
      assert above[i] == nodes[y];
      ValidSettingsOf(nodes[y]);
      assert ValidateNode(nodes[y]).None?;
    }
  }

  lemma ValidSettingsOf(n: Node)
    ensures ValidateNode(n).None? ==> ValidSettings(SettingsOf(n))
  {
  }

  lemma {:induction false} DetachedPath(nodes: Forest, f: NodeId, x: NodeId, k: nat, cut: Node)
    requires Grounded(nodes) && Keyed(nodes) && f in nodes && x in nodes && cut.id == f && cut.parentId.None?
    requires k < Depth(nodes, x) && Lineage(Parents(nodes), Some(x))[k] == f
    ensures Rooted(Parents(nodes[f := cut]), Some(x))
    ensures Lineage(Parents(nodes[f := cut]), Some(x)) == Lineage(Parents(nodes), Some(x))[..k + 1]
  {
    hide Lineage, Rooted, Climb;
    var par, par' := Parents(nodes), Parents(nodes[f := cut]);
    var p := Lineage(par, Some(x));
    DepthStep(nodes, x);
    LineageChain(par, Some(x));
    SegmentSplit(par, Some(x), p, None, k);
    assert f !in p[..k];
    SegmentKept(par, par', Some(x), p[..k], Some(f));
    assert Segment(par', Some(f), [f], None);
    SegmentJoin(par', Some(x), p[..k], Some(f), [f], None);
    assert p[..k] + [f] == p[..k + 1];
    LineageIs(par', Some(x), p[..k + 1]);
  }

  /** The ids strictly above a node. */
  function Above(nodes: Forest, f: NodeId): set<NodeId> {
    set a | a in Lineage(Parents(nodes), Some(f)) && a != f
  }

  lemma {:induction false} PathSplit(nodes: Forest, f: NodeId, x: NodeId, k: nat)
    requires Grounded(nodes) && Keyed(nodes) && f in nodes && x in nodes
    requires k < Depth(nodes, x) && Lineage(Parents(nodes), Some(x))[k] == f
    ensures forall y :: y in Lineage(Parents(nodes), Some(x)) ==> y in nodes
    ensures forall y :: y in Lineage(Parents(nodes), Some(f)) ==> y in nodes
    ensures Depth(nodes, f) > 0
    ensures var path, own := PathNodes(nodes, x), PathNodes(nodes, f);
            && path == path[..k] + [nodes[f]] + own[1..]
            && Ids(own[1..]) == Above(nodes, f)
            && Apart(path[..k] + [nodes[f]], own[1..])
  {
    hide Lineage, Rooted, Climb, Ids, Above;
    var par := Parents(nodes);
    DepthStep(nodes, x);
    DepthStep(nodes, f);
    LineageChain(par, Some(x));
    LineageChain(par, Some(f));
    LineageSuffix(par, Some(x), k);
    AboveIds(nodes, f);
    var path, own := PathNodes(nodes, x), PathNodes(nodes, f);
    assert own == path[k..];
    assert path == path[..k] + [nodes[f]] + own[1..];
    forall n | n in path[..k] + [nodes[f]] ensures n.id !in Ids(own[1..]) {
      var i :| 0 <= i <= k && n == path[i];
      NotAbove(nodes, f, x, k, i);
    }
  }

  lemma {:induction false} NotAbove(nodes: Forest, f: NodeId, x: NodeId, k: nat, i: nat)
    requires Grounded(nodes) && f in nodes && x in nodes
    requires i <= k < Depth(nodes, x) && Lineage(Parents(nodes), Some(x))[k] == f
    ensures Lineage(Parents(nodes), Some(x))[i] !in Above(nodes, f)
  {
    hide Lineage, Rooted, Climb;
    var par := Parents(nodes);
    var p, q := Lineage(par, Some(x)), Lineage(par, Some(f));
    DepthStep(nodes, x);
    LineageChain(par, Some(x));
    LineageSuffix(par, Some(x), k);
    if p[i] in q {
      var j :| 0 <= j < |q| && q[j] == p[i];
      assert q[j] == p[k + j];
    }
  }

  lemma {:induction false} AboveIds(nodes: Forest, f: NodeId)
    requires Grounded(nodes) && Keyed(nodes) && f in nodes
    ensures forall y :: y in Lineage(Parents(nodes), Some(f)) ==> y in nodes
    ensures Depth(nodes, f) > 0 && Ids(PathNodes(nodes, f)[1..]) == Above(nodes, f)
  {
    hide Lineage, Rooted, Climb;
    var q := Lineage(Parents(nodes), Some(f));
    DepthStep(nodes, f);
    LineageChain(Parents(nodes), Some(f));
    var own := PathNodes(nodes, f);
    forall a | a in Above(nodes, f) ensures a in Ids(own[1..]) {
      var i :| 0 <= i < |q| && q[i] == a;
      assert own[1..][i - 1] == nodes[a];
      assert own[1..][i - 1] in own[1..];
    }
    forall a | a in Ids(own[1..]) ensures a in Above(nodes, f) {
      var n :| n in own[1..] && n.id == a;
      var i :| 0 <= i < |own[1..]| && own[1..][i] == n;
      assert n == nodes[q[i + 1]];
    }
  }

  /**
   Detaching preserves meaning: with `f` replaced by its detached form, every connection in
   its subtree resolves every field to the same value, and a supplier changes only by an
   ancestor of `f` giving way to `f`.
   */
  lemma {:induction false} DetachPreservesMeaning(nodes: Forest, f: NodeId, x: NodeId)
    requires Legal(nodes) && f in nodes && x in nodes && nodes[x].kind.Connection? && Under(Parents(nodes), f, x)
    ensures Detached(nodes, f).Ok? && EffectiveConnection(nodes, x).Ok?
    ensures EffectiveConnection(nodes[f := Detached(nodes, f).value], x)
            == Ok(ResuppliedConnection(EffectiveConnection(nodes, x).value, Above(nodes, f), f))
  {
    hide Lineage, Rooted, Climb, EffectiveConnection, AncestorsOf, Detached, DetachedNode, Apart, Ids, WalkedOf, Resupply, ResuppliedSettings, Above, CredentialAt;
    DetachSucceeds(nodes, f);
    var above := PathNodes(nodes, f)[1..];
    var cut := DetachedNode(nodes[f], above);
    var p := Lineage(Parents(nodes), Some(x));
    var k :| 0 <= k < |p| && p[k] == f;
    PathSplit(nodes, f, x, k);
    EffectiveAlongLineage(nodes, x);
    DetachedBasics(nodes[f], above);
    CutConnection(nodes, f, x, k, cut);
    var below := PathNodes(nodes, x)[..k];
    CutPoint(nodes, f, x, k);
    WalkCut(nodes[x].kind.protocol, below, nodes[f], above);
  }

  lemma DetachedBasics(f: Node, above: seq<Node>)
    ensures var cut := DetachedNode(f, above);
            && cut.id == f.id && cut.parentId.None? && cut.name == f.name
            && (cut.kind.Connection? <==> f.kind.Connection?)
            && (cut.kind.Connection? ==> cut.kind.protocol == f.kind.protocol && cut.kind.host == f.kind.host)
            && (cut.kind.Credential? || f.kind.Credential? ==> cut.kind == f.kind)
  {
    hide PinFields, ScanOptional;
  }

  /** The cut is the connection itself, or a folder above it. */
  lemma {:induction false} CutPoint(nodes: Forest, f: NodeId, x: NodeId, k: nat)
    requires Legal(nodes) && f in nodes && x in nodes && nodes[x].kind.Connection?
    requires k < Depth(nodes, x) && Lineage(Parents(nodes), Some(x))[k] == f
    ensures FieldsOf(nodes[f]).Some? && (k == 0 <==> f == x)
  {
    hide Lineage, Rooted, Climb;
    DepthStep(nodes, x);
    LineageChain(Parents(nodes), Some(x));
    if k > 0 {
      AncestorsAreFolders(nodes, x, k);
    }
  }

  lemma {:induction false} CutConnection(nodes: Forest, f: NodeId, x: NodeId, k: nat, cut: Node)
    requires Grounded(nodes) && Keyed(nodes) && f in nodes && x in nodes && nodes[x].kind.Connection?
    requires k < Depth(nodes, x) && Lineage(Parents(nodes), Some(x))[k] == f
    requires forall y :: y in Lineage(Parents(nodes), Some(x)) ==> y in nodes
    requires cut.id == f && cut.parentId.None? && cut.name == nodes[f].name
    requires cut.kind.Connection? <==> nodes[f].kind.Connection?
    requires cut.kind.Connection? ==> cut.kind.protocol == nodes[f].kind.protocol && cut.kind.host == nodes[f].kind.host
    requires cut.kind.Credential? || nodes[f].kind.Credential? ==> cut.kind == nodes[f].kind
    ensures var short := PathNodes(nodes, x)[..k] + [cut];
            var walked := WalkedOf(nodes[x].kind.protocol, short[0], short[1..]);
            EffectiveConnection(nodes[f := cut], x)
            == Ok(Effective(x, nodes[x].name, nodes[x].kind.protocol, nodes[x].kind.host, walked,
                            Username(nodes, walked.credential), Attached(nodes, walked.credential, x)))
  {
    hide Lineage, Rooted, Climb, WalkedOf, CredentialAt, AncestorsOf;
    CutAncestors(nodes, f, x, k, cut);
    CutCredentials(nodes, f, cut);
    DepthStep(nodes, x);
    var short := PathNodes(nodes, x)[..k] + [cut];
    assert k > 0 ==> short[0] == nodes[x];
    LineageChain(Parents(nodes), Some(x));
    assert k > 0 ==> x != f;
  }

  lemma CutCredentials(nodes: Forest, f: NodeId, cut: Node)
    requires f in nodes
    requires cut.kind.Credential? || nodes[f].kind.Credential? ==> cut.kind == nodes[f].kind
    ensures forall ref :: CredentialAt(nodes[f := cut], ref) == CredentialAt(nodes, ref)
  {
  }

  lemma {:induction false} CutAncestors(nodes: Forest, f: NodeId, x: NodeId, k: nat, cut: Node)
    requires Grounded(nodes) && Keyed(nodes) && f in nodes && x in nodes && cut.id == f && cut.parentId.None?
    requires k < Depth(nodes, x) && Lineage(Parents(nodes), Some(x))[k] == f
    requires forall y :: y in Lineage(Parents(nodes), Some(x)) ==> y in nodes
    ensures AncestorsOf(nodes[f := cut], x) == Ok((PathNodes(nodes, x)[..k] + [cut])[1..])
  {
    hide Lineage, Rooted, Climb, AncestorsOf;
    var after, p := nodes[f := cut], Lineage(Parents(nodes), Some(x));
    DetachedPath(nodes, f, x, k, cut);
    DepthStep(nodes, x);
    LineageChain(Parents(nodes), Some(x));
    RootedAncestors(after, x);
    assert forall i :: 0 <= i < k ==> p[i] != f;
    var short := PathNodes(nodes, x)[..k] + [cut];
    var rest := p[..k + 1][1..];
    assert forall y :: y in rest ==> y in after;
    assert NodesAt(after, rest) == short[1..];
  }

  lemma {:induction false} RootedAncestors(nodes: Forest, x: NodeId)
    requires x in nodes && Rooted(Parents(nodes), Some(x))
    ensures Lineage(Parents(nodes), Some(x)) != []
    ensures forall y :: y in Lineage(Parents(nodes), Some(x))[1..] ==> y in nodes
    ensures AncestorsOf(nodes, x) == Ok(NodesAt(nodes, Lineage(Parents(nodes), Some(x))[1..]))
  {
    hide Climb;
    LineageStep(Parents(nodes), x);
    LineageChain(Parents(nodes), Some(x));
  }

  /** A column taken from the node, or else from the nearest node above that has it. */
  ghost predicate Taken(own: Option<string>, above: seq<Node>, column: Node -> Option<string>, got: Option<string>) {
    if own.Some? then got == own
    else if got.None? then forall n :: n in above ==> column(n).None?
    else exists i :: 0 <= i < |above| && column(above[i]) == got && forall j :: 0 <= j < i ==> column(above[j]).None?
  }

  lemma {:induction false} NearestTaken(above: seq<Node>, column: Node -> Option<string>)
    ensures Taken(None, above, column, ScanOptional(above, column).value)
    decreases |above|
  {
    if above != [] && column(above[0]).None? {
      NearestTaken(above[1..], column);
      assert forall i :: 0 < i < |above| ==> above[1..][i - 1] == above[i];
      if ScanOptional(above, column).value.Some? {
        var i :| 0 <= i < |above[1..]| && column(above[1..][i]) == ScanOptional(above, column).value
                 && forall j :: 0 <= j < i ==> column(above[1..][j]).None?;
        assert above[i + 1] == above[1..][i];
        forall j | 0 <= j < i + 1 ensures column(above[j]).None? {
          assert j > 0 ==> above[j] == above[1..][j - 1];
        }
      }
    }
  }

  /** A field that is set stays; one that is not is taken from the nearest node above that sets it, and stays open if none does. */
  ghost predicate Settles<T(!new)>(own: Inherited<T>, above: seq<Node>, field: Field<T>, got: Inherited<T>) {
    if !own.Inherit? then got == own
    else if got.Inherit? then forall n :: n in above ==> Defers(field(n))
    else exists i :: 0 <= i < |above| && field(above[i]) == Some(got) && forall j :: 0 <= j < i ==> Defers(field(above[j]))
  }

  lemma {:induction false} ScanSettles<T(!new)>(above: seq<Node>, field: Field<T>)
    ensures var r := Scan(above, field);
            && (r.provenance.DefaultAtRoot? ==> forall n :: n in above ==> Defers(field(n)))
            && (r.provenance.Ancestor? ==> r.value.Some? && Settles(Inherit, above, field, Explicit(r.value.value)))
            && (r.provenance.DefaultAt? ==> Settles(Inherit, above, field, Default))
            && !r.provenance.Own?
    decreases |above|
  {
    if above != [] {
      if Defers(field(above[0])) {
        ScanSettles(above[1..], field);
        assert above == [above[0]] + above[1..];
        var r := Scan(above, field);
        var got := if r.provenance.Ancestor? then Explicit(r.value.value) else Default;
        if !r.provenance.DefaultAtRoot? {
          var i :| 0 <= i < |above[1..]| && field(above[1..][i]) == Some(got) && forall j :: 0 <= j < i ==> Defers(field(above[1..][j]));
          assert above[i + 1] == above[1..][i];
          forall j | 0 <= j < i + 1 ensures Defers(field(above[j])) {
            assert j > 0 ==> above[j] == above[1..][j - 1];
          }
        }
      } else {
        assert field(above[0]).Some? && above[0] in above;
      }
    }
  }

  lemma {:induction false} PinSettles<T(!new)>(own: Inherited<T>, n: Node, above: seq<Node>, field: Field<T>)
    requires field(n) == Some(own)
    ensures Settles(own, above, field, Pin(own, n, above, field))
  {
    ScanSettles(above, field);
  }

  /** What detaching keeps and what it takes from above, field by field. */
  ghost predicate Detaches(n: Node, above: seq<Node>, got: Node) {
    && got == n.(parentId := None, kind := got.kind, icon := got.icon, colour := got.colour)
    && Taken(n.icon, above, IconField, got.icon) && Taken(n.colour, above, ColourField, got.colour)
    && Label(got.kind) == Label(n.kind)
    && (n.kind.Connection? ==> got.kind.protocol == n.kind.protocol && got.kind.host == n.kind.host)
    && if n.kind.Folder? || n.kind.Connection? then FieldsSettle(n.kind.fields, above, got.kind.fields) else got.kind == n.kind
  }

  ghost predicate FieldsSettle(f: Inheritable, above: seq<Node>, g: Inheritable) {
    && Settles(f.credential, above, CredentialField, g.credential) && Settles(f.gateway, above, GatewayField, g.gateway)
    && Settles(f.port, above, PortField, g.port) && Settles(f.connectTimeoutMs, above, ConnectTimeoutField, g.connectTimeoutMs)
    && Settles(f.keepaliveSecs, above, KeepaliveField, g.keepaliveSecs) && Settles(f.onConnect, above, OnConnectField, g.onConnect)
    && Settles(f.onDisconnect, above, OnDisconnectField, g.onDisconnect) && Settles(f.recording, above, RecordingField, g.recording)
    && Settles(f.autoReconnect, above, AutoReconnectField, g.autoReconnect)
  }

  lemma {:induction false} PinnedFieldsSettle(f: Inheritable, n: Node, above: seq<Node>)
    requires FieldsOf(n) == Some(f)
    ensures FieldsSettle(f, above, PinFields(f, n, above))
  {
    hide Pin, Settles, FillSettings;
    PinSettles(f.credential, n, above, CredentialField);
    PinSettles(f.gateway, n, above, GatewayField);
    PinSettles(f.port, n, above, PortField);
    PinSettles(f.connectTimeoutMs, n, above, ConnectTimeoutField);
    PinSettles(f.keepaliveSecs, n, above, KeepaliveField);
    PinSettles(f.onConnect, n, above, OnConnectField);
    PinSettles(f.onDisconnect, n, above, OnDisconnectField);
    PinSettles(f.recording, n, above, RecordingField);
    PinSettles(f.autoReconnect, n, above, AutoReconnectField);
  }

  /** The detached form of any node whose parent chain reaches the root. */
  lemma {:induction false} DetachedKeeps(nodes: Forest, id: NodeId)
    requires id in nodes && Anchor(nodes, id) && Detached(nodes, id).Ok?
    ensures forall x :: x in Lineage(Parents(nodes), Some(id)) ==> x in nodes
    ensures PathNodes(nodes, id) != [] && Detaches(nodes[id], PathNodes(nodes, id)[1..], Detached(nodes, id).value)
  {
    hide Lineage, Rooted, AncestorsOf, FieldsSettle, PinFields, ScanOptional, Taken;
    EffectiveAlongLineage(nodes, id);
    var n, above := nodes[id], PathNodes(nodes, id)[1..];
    NearestTaken(above, IconField);
    NearestTaken(above, ColourField);
    OwnTaken(n.icon, above, IconField);
    OwnTaken(n.colour, above, ColourField);
    if FieldsOf(n).Some? {
      PinnedFieldsSettle(FieldsOf(n).value, n, above);
    }
  }

  /** Detaching fails exactly when a folder or connection would have to take over a settings key that is not valid. */
  lemma {:induction false} DetachRefused(nodes: Forest, id: NodeId)
    requires id in nodes && Anchor(nodes, id)
    ensures forall x :: x in Lineage(Parents(nodes), Some(id)) ==> x in nodes
    ensures Detached(nodes, id).Err? <==>
            && (nodes[id].kind.Folder? || nodes[id].kind.Connection?)
            && exists n, key :: n in PathNodes(nodes, id)[1..] && SetsKey(n, key) && !SetsKey(nodes[id], key) && !ValidKey(key)
    ensures Detached(nodes, id).Err? ==> Detached(nodes, id).error == Invalid(InvalidSettingKey)
  {
    hide Lineage, Rooted, AncestorsOf, DetachedNode, ValidKey, SetsKey, SettingsOf;
    EffectiveAlongLineage(nodes, id);
    var own, above := nodes[id], PathNodes(nodes, id)[1..];
    forall n, key ensures SetsKey(n, key) <==> key in SettingsOf(n) {
      SetsKeyIs(n, key);
    }
    if BadKey(SettingsOf(own), above) {
      var i, key :| 0 <= i < |above| && key in SettingsOf(above[i]) && key !in SettingsOf(own) && !ValidKey(key);
      assert above[i] in above && SetsKey(above[i], key) && !SetsKey(own, key);
    }
  }

  lemma OwnTaken(own: Option<string>, above: seq<Node>, column: Node -> Option<string>)
    ensures own.Some? ==> Taken(own, above, column, own)
  {
  }
}
