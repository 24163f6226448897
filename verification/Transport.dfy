/**
 How resolution follows a rewriting of the nodes on a path. Renaming ids, tombstoning
 references, moving and editing are all such rewritings.
 */
module Transport {
  import opened Base
  import opened Inheritance
  import opened Nodes
  import opened Lineages
  import opened Forests
  import opened Resolution

  type Rename = NodeId -> NodeId
  type Rewrite = NodeRef -> NodeRef

  function Same<T>(x: T): T { x }

  function MapField<T>(o: Option<Inherited<T>>, f: T -> T): Option<Inherited<T>> {
    if o.Some? then Some(MapInherited(o.value, f)) else None
  }

  function MapResolved<T>(res: Resolved<Option<T>>, r: Rename, f: T -> T): Resolved<Option<T>> {
    Resolved(MapOption(res.value, f), MapProvenance(res.provenance, r))
  }

  function Relabel<T>(res: Resolved<T>, r: Rename): Resolved<T> {
    res.(provenance := MapProvenance(res.provenance, r))
  }

  function MapSettings(settings: map<string, Resolved<string>>, r: Rename): map<string, Resolved<string>> {
    map key | key in settings :: Relabel(settings[key], r)
  }

  /** The walked fields with supplying nodes renamed by `r` and references rewritten by `tau`. */
  function MapWalked(w: Walked, r: Rename, tau: Rewrite): Walked {
    Walked(
      Relabel(w.port, r),
      MapResolved(w.credential, r, tau),
      Resolved(MapHops(w.gateway.value, tau), MapProvenance(w.gateway.provenance, r)),
      Relabel(w.connectTimeoutMs, r),
      Relabel(w.keepaliveSecs, r),
      MapSettings(w.settings, r),
      Relabel(w.onConnect, r),
      Relabel(w.onDisconnect, r),
      Relabel(w.recording, r),
      Relabel(w.autoReconnect, r),
      Relabel(w.icon, r),
      Relabel(w.colour, r))
  }

  /** `m` is `n` renamed by `r` with its inheritable references rewritten by `tau`. */
  ghost predicate Mirror(n: Node, m: Node, r: Rename, tau: Rewrite) {
    && m.id == r(n.id)
    && FieldsOf(m) == (if FieldsOf(n).Some? then Some(MapFields(FieldsOf(n).value, tau)) else None)
    && m.icon == n.icon
    && m.colour == n.colour
  }

  ghost predicate Mirrors(a: seq<Node>, b: seq<Node>, r: Rename, tau: Rewrite) {
    |a| == |b| && forall i {:trigger a[i]} {:trigger b[i]} :: 0 <= i < |a| ==> Mirror(a[i], b[i], r, tau)
  }

  ghost predicate Follows<T>(field: Field<T>, r: Rename, tau: Rewrite, f: T -> T) {
    forall n, m :: Mirror(n, m, r, tau) ==> field(m) == MapField(field(n), f)
  }

  lemma {:induction false} ScanMirrors<T>(a: seq<Node>, b: seq<Node>, r: Rename, tau: Rewrite, field: Field<T>, f: T -> T)
    requires Mirrors(a, b, r, tau) && Follows(field, r, tau, f)
    ensures Scan(b, field) == MapResolved(Scan(a, field), r, f)
    decreases |a|
  {
    hide Mirror;
    if a != [] {
      assert field(b[0]) == MapField(field(a[0]), f) by { assert Mirror(a[0], b[0], r, tau); }
      MirrorHead(a[0], b[0], r, tau);
      ScanMirrors(a[1..], b[1..], r, tau, field, f);
    }
  }

  lemma MirrorHead(n: Node, m: Node, r: Rename, tau: Rewrite)
    requires Mirror(n, m, r, tau)
    ensures m.id == r(n.id)
  {
  }

  /** One field resolves to the image of what it resolved to, from the image of its supplier. */
  lemma {:induction false} ResolveMirrors<T>(a: seq<Node>, b: seq<Node>, r: Rename, tau: Rewrite, field: Field<T>, f: T -> T)
    requires a != [] && Mirrors(a, b, r, tau) && Follows(field, r, tau, f)
    ensures Resolve(b[0], b[1..], field) == MapResolved(Resolve(a[0], a[1..], field), r, f)
  {
    hide Mirror;
    assert field(b[0]) == MapField(field(a[0]), f) by { assert Mirror(a[0], b[0], r, tau); }
    MirrorHead(a[0], b[0], r, tau);
    ScanMirrors(a[1..], b[1..], r, tau, field, f);
  }

  lemma MapResolvedSame<T>(res: Resolved<Option<T>>, r: Rename)
    ensures MapResolved(res, r, Same<T>) == Relabel(res, r)
  {
  }

  lemma {:induction false} SettingsMirror(a: seq<Node>, b: seq<Node>, r: Rename, tau: Rewrite)
    requires Mirrors(a, b, r, tau)
    ensures AncestorSettings(b) == MapSettings(AncestorSettings(a), r)
    decreases |a|
  {
    hide Mirror;
    if a != [] {
      SettingsMirror(a[1..], b[1..], r, tau);
      MirrorSettings(a[0], b[0], r, tau);
      OverlayMapped(AncestorSettings(a[1..]), SettingsOf(a[0]), Ancestor(a[0].id), r);
    }
  }

  lemma OverlayMapped(above: map<string, Resolved<string>>, settings: map<string, string>, source: Provenance, r: Rename)
    ensures MapSettings(above + Labelled(settings, source), r)
            == MapSettings(above, r) + Labelled(settings, MapProvenance(source, r))
  {
  }

  lemma MirrorSettings(n: Node, m: Node, r: Rename, tau: Rewrite)
    requires Mirror(n, m, r, tau)
    ensures SettingsOf(m) == SettingsOf(n) && m.id == r(n.id)
  {
  }

  lemma {:induction false} MergedMirror(a: seq<Node>, b: seq<Node>, r: Rename, tau: Rewrite)
    requires a != [] && Mirrors(a, b, r, tau)
    ensures MergedSettings(b[0], b[1..]) == MapSettings(MergedSettings(a[0], a[1..]), r)
  {
    hide Mirror;
    SettingsMirror(a[1..], b[1..], r, tau);
    MirrorSettings(a[0], b[0], r, tau);
    OverlayMapped(AncestorSettings(a[1..]), SettingsOf(a[0]), Own(a[0].id), r);
  }

  lemma ScalarsFollow(r: Rename, tau: Rewrite)
    ensures Follows(PortField, r, tau, Same<Port>)
    ensures Follows(ConnectTimeoutField, r, tau, Same<U32>)
    ensures Follows(KeepaliveField, r, tau, Same<U32>)
    ensures Follows(RecordingField, r, tau, Same<RecordingPolicy>)
    ensures Follows(AutoReconnectField, r, tau, Same<ReconnectPolicy>)
  {
  }

  lemma ListsFollow(r: Rename, tau: Rewrite)
    ensures Follows(OnConnectField, r, tau, Same<seq<string>>)
    ensures Follows(OnDisconnectField, r, tau, Same<seq<string>>)
    ensures Follows(IconState, r, tau, Same<string>)
    ensures Follows(ColourState, r, tau, Same<string>)
  {
  }

  lemma ReferencesFollow(r: Rename, tau: Rewrite)
    ensures Follows(CredentialField, r, tau, tau)
    ensures Follows(GatewayField, r, tau, RewriteHops(tau))
  {
  }

  /** A field without references resolves to the same value, from the image of its supplier. */
  lemma {:induction false} ResolveRelabels<T>(a: seq<Node>, b: seq<Node>, r: Rename, tau: Rewrite, field: Field<T>)
    requires a != [] && Mirrors(a, b, r, tau) && Follows(field, r, tau, Same<T>)
    ensures Resolve(b[0], b[1..], field) == Relabel(Resolve(a[0], a[1..], field), r)
  {
    hide Mirrors, Mirror, Follows, Resolve;
    ResolveMirrors(a, b, r, tau, field, Same<T>);
    MapResolvedSame(Resolve(a[0], a[1..], field), r);
  }

  lemma {:induction false} PresentationRelabels(a: seq<Node>, b: seq<Node>, r: Rename, tau: Rewrite)
    requires a != [] && |a| == |b| && Mirrors(a, b, r, tau)
    ensures ResolveOptionalField(b[0], b[1..], IconField) == Relabel(ResolveOptionalField(a[0], a[1..], IconField), r)
    ensures ResolveOptionalField(b[0], b[1..], ColourField) == Relabel(ResolveOptionalField(a[0], a[1..], ColourField), r)
  {
    hide Mirrors, Mirror, Follows, Resolve, ResolveOptionalField;
    ListsFollow(r, tau);
    ResolveRelabels(a, b, r, tau, IconState);
    ResolveRelabels(a, b, r, tau, ColourState);
    OptionalIsInherited(a[0], a[1..], IconField, IconState);
    OptionalIsInherited(b[0], b[1..], IconField, IconState);
    OptionalIsInherited(a[0], a[1..], ColourField, ColourState);
    OptionalIsInherited(b[0], b[1..], ColourField, ColourState);
  }

  lemma {:induction false} GatewayMirrors(a: seq<Node>, b: seq<Node>, r: Rename, tau: Rewrite)
    requires a != [] && |a| == |b| && Mirrors(a, b, r, tau)
    ensures var before := OrDefault(Resolve(a[0], a[1..], GatewayField), []);
            OrDefault(Resolve(b[0], b[1..], GatewayField), [])
            == Resolved(MapHops(before.value, tau), MapProvenance(before.provenance, r))
  {
    hide Mirrors, Mirror, Follows, Resolve;
    ReferencesFollow(r, tau);
    ResolveMirrors(a, b, r, tau, GatewayField, RewriteHops(tau));
    assert MapHops([], tau) == [];
  }

  /** Every walked field at once. */
  lemma {:induction false} WalkedMirrors(protocol: string, a: seq<Node>, b: seq<Node>, r: Rename, tau: Rewrite)
    requires a != [] && |a| == |b| && Mirrors(a, b, r, tau)
    ensures WalkedOf(protocol, b[0], b[1..]) == MapWalked(WalkedOf(protocol, a[0], a[1..]), r, tau)
  {
    hide Mirrors, Mirror, Follows, Resolve, ResolveOptionalField, MergedSettings, MapSettings, MapHops, MapProvenance;
    ScalarsFollow(r, tau);
    ListsFollow(r, tau);
    ReferencesFollow(r, tau);
    ResolveRelabels(a, b, r, tau, PortField);
    ResolveMirrors(a, b, r, tau, CredentialField, tau);
    GatewayMirrors(a, b, r, tau);
    ResolveRelabels(a, b, r, tau, ConnectTimeoutField);
    ResolveRelabels(a, b, r, tau, KeepaliveField);
    ResolveRelabels(a, b, r, tau, OnConnectField);
    ResolveRelabels(a, b, r, tau, OnDisconnectField);
    ResolveRelabels(a, b, r, tau, RecordingField);
    ResolveRelabels(a, b, r, tau, AutoReconnectField);
    PresentationRelabels(a, b, r, tau);
    MergedMirror(a, b, r, tau);
  }

  /** Rewriting references alone touches the credential and the route. */
  lemma MapWalkedReferences(w: Walked, tau: Rewrite)
    ensures MapWalked(w, Same<NodeId>, tau)
            == w.(credential := w.credential.(value := MapOption(w.credential.value, tau)), gateway := w.gateway.(value := MapHops(w.gateway.value, tau)))
  {
    hide MapHops, MapSettings;
    MapWalkedSame(w);
    ProvenanceSame(w.credential.provenance);
    ProvenanceSame(w.gateway.provenance);
  }

  lemma ProvenanceSame(p: Provenance)
    ensures MapProvenance(p, Same<NodeId>) == p
  {
  }

  /** Rewriting with the identity is no rewriting. */
  lemma MapWalkedSame(w: Walked)
    ensures MapWalked(w, Same<NodeId>, Same<NodeRef>) == w
  {
    assert MapHops(w.gateway.value, Same<NodeRef>) == w.gateway.value;
    assert MapSettings(w.settings, Same<NodeId>) == w.settings;
  }
}
