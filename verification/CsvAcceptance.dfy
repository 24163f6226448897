/** When a parsed CSV converts, loads and passes the reference checks, as fuzz/fuzz_targets/import_csv.rs asserts it does. */
module CsvAcceptance {
  import opened Base
  import opened Inheritance
  import opened Nodes
  import opened Text
  import opened Validation
  import opened Lineages
  import opened Forests
  import Resolution
  import opened ReferenceChecks
  import opened Trees
  import opened Mapping
  import opened Previews
  import opened Interning
  import opened CredentialPools
  import opened CsvText
  import opened CsvRows
  import opened CsvFolders
  import opened CsvImport
  import opened CsvParse

  type Seal = NodeId -> seq<Byte>

  /** What the vault hands `into_node`. */
  function SealFor(p: PreviewNode, seal: Seal): Option<seq<Byte>> {
    if HoldsPassword(p) then Some(seal(p.id)) else None
  }

  function BuiltAs(p: PreviewNode, now: int, seal: Seal): Node {
    Built(p, now, OrElse(SealFor(p, seal), []))
  }

  function Committed(nodes: seq<PreviewNode>, now: int, seal: Seal): seq<Node> {
    MapSeq(nodes, p => BuiltAs(p, now, seal))
  }

  /** Every node converts, the nodes load as a tree, and no reference of the tree is refused. */
  ghost predicate Accepted(nodes: seq<PreviewNode>, now: int, seal: Seal) {
    && (forall i :: 0 <= i < |nodes| ==> IntoNode(nodes[i], now, SealFor(nodes[i], seal)).Ok?)
    && DistinctIds(Committed(nodes, now, seal)) && Legal(ForestOf(Committed(nodes, now, seal)))
    && forall id :: id in ForestOf(Committed(nodes, now, seal)) ==> ValidateReferences(ForestOf(Committed(nodes, now, seal)), id).None?
  }

  /** The same tree, straight from the catalogue. */
  function Planted(m: Catalogue, now: int, seal: Seal): (f: Forest)
    ensures f.Keys == m.Keys
  {
    map id | id in m :: BuiltAs(m[id], now, seal)
  }

  lemma {:induction false} CommittedForest(nodes: seq<PreviewNode>, now: int, seal: Seal)
    requires WellListed(nodes)
    ensures DistinctIds(Committed(nodes, now, seal)) && ForestOf(Committed(nodes, now, seal)) == Planted(ById(nodes), now, seal)
  {
    hide BuiltAs;
    var built := Committed(nodes, now, seal);
    forall i, j | 0 <= i < j < |built| ensures built[i].id != built[j].id {
      BuiltId(nodes[i], now, seal);
      BuiltId(nodes[j], now, seal);
      ListedOnce(nodes, i, j);
    }
    if nodes != [] {
      var last := |nodes| - 1;
      CommittedForest(nodes[..last], now, seal);
      assert built[..last] == Committed(nodes[..last], now, seal);
      BuiltId(nodes[last], now, seal);
    }
  }

  lemma {:induction false} ListedOnce(nodes: seq<PreviewNode>, i: nat, j: nat)
    requires WellListed(nodes) && i < j < |nodes|
    ensures nodes[i].id != nodes[j].id
  {
    var last := |nodes| - 1;
    if j == last {
      ByIdMembers(nodes[..last]);
      assert nodes[..last][i] == nodes[i];
    } else {
      ListedOnce(nodes[..last], i, j);
    }
  }

  lemma BuiltId(p: PreviewNode, now: int, seal: Seal)
    ensures BuiltAs(p, now, seal).id == p.id && BuiltAs(p, now, seal).parentId == p.parentId
  {
  }

  // Depths.

  /** A path of folders is a lineage of the same length. */
  lemma {:induction false} PathDepth(m: Catalogue, now: int, seal: Seal, path: seq<string>, at: Option<NodeId>)
    requires Leads(m, path, at)
    ensures var par := Parents(Planted(m, now, seal));
            Rooted(par, at) && |Lineage(par, at)| == |path|
    decreases |path|
  {
    hide Lineage, Rooted;
    var par := Parents(Planted(m, now, seal));
    RootLineage(par);
    if path != [] {
      BuiltId(m[at.value], now, seal);
      PathDepth(m, now, seal, path[..|path| - 1], m[at.value].parentId);
      LineageStep(par, at.value);
    }
  }

  /** Where a node sits: at the end of a path, with what the domain model asks of its parent. */
  lemma {:induction false} Sits(m: Catalogue, now: int, seal: Seal, path: seq<string>, id: NodeId)
    requires id in m && Leads(m, path, m[id].parentId)
    ensures var f := Planted(m, now, seal);
            Rooted(Parents(f), Some(id)) && Depth(f, id) == |path| + 1 && HeldByFolder(f, id)
  {
    hide Lineage, Rooted;
    var f := Planted(m, now, seal);
    BuiltId(m[id], now, seal);
    PathDepth(m, now, seal, path, m[id].parentId);
    LineageStep(Parents(f), id);
  }

  // What each node of a faithful preview is.

  /** The rows ask for nothing that stops the import. */
  ghost predicate Fit(wants: seq<Wanted>) {
    forall k :: 0 <= k < |wants| ==> Sane(wants[k]) && (wants[k].account.Some? ==> IdentityFault(wants[k].account.value).None?)
  }

  /** What an account asked for by a fit row is like. */
  ghost predicate FitCall(source: string, who: Identity) {
    ValidateName(source).None? && IdentityFault(who).None? && SecretIsPlain(who.secret)
  }

  lemma {:induction false} CallsAreFit(wants: seq<Wanted>, j: nat)
    requires Fit(wants) && j < |Calls(wants)|
    ensures FitCall(Callers(wants)[j], Calls(wants)[j])
  {
    hide Sane, IdentityFault, ValidateName;
    var last := |wants| - 1;
    if j < |Calls(wants[..last])| {
      CallsAreFit(wants[..last], j);
    } else {
      SaneParts(wants[last]);
    }
  }

  lemma SaneParts(w: Wanted)
    requires Sane(w)
    ensures ValidateName(w.name).None? && CleanPath(w.path) && (w.account.Some? ==> SecretIsPlain(w.account.value.secret) && w.account.value.protocols == [w.protocol])
  {
    hide ValidateName, ValidateHost, ValidProtocolId, CleanPath;
  }

  lemma {:induction false} ConnectionIs(m: Catalogue, wants: seq<Wanted>, o: Origins, digest: Digest, maxFields: nat, id: NodeId) returns (k: nat)
    requires Faithful(m, wants, o, digest, maxFields) && id in m && m[id].kind.PreviewConnection?
    ensures k < |wants| == |o.made| && o.made[k] == id
    ensures var byName := ByName(wants, o.made);
            Row(m, wants[k], id, k, GatewayFor(wants[k], id, byName), FieldsFor(wants[k], id, byName, maxFields))
  {
    hide Row, KeysLead, Opened, GatewayFor, FieldsFor, ByName, Distinct;
    assert Expected(m, wants, o.made, o.byPath, o.pool, id);
    k :| 0 <= k < |o.made| && o.made[k] == id;
    assert RowAt(m, wants, o.made, Elements(o.made), ByName(wants, o.made), maxFields, k);
  }

  lemma {:induction false} AccountIs(m: Catalogue, wants: seq<Wanted>, o: Origins, digest: Digest, maxFields: nat, id: NodeId) returns (j: nat)
    requires Faithful(m, wants, o, digest, maxFields) && id in m && m[id].kind.PreviewAccount?
    ensures j < |Calls(wants)| && Opens(Calls(wants), digest, j) && AccountAt(m, id, Callers(wants)[j], Calls(wants)[j], o.pool)
    ensures o.pool.Some? && IsFolder(m, o.pool.value, POOL_NAME)
  {
    hide Rows, KeysLead, OnlyExpected, Ran, Opens, AccountAt, Indexes, IsFolder;
    var s := o.session;
    SessionShape(s, digest);
    Interning.Remembers(s, digest, |s.calls|);
    assert id in AccountsIn(m);
    j :| 0 <= j < |s.calls| && s.got[j] == id && Opens(s.calls, digest, j);
    assert AccountAt(m, id, Callers(wants)[j], Calls(wants)[j], o.pool);
    AccountHasPool(m, id, Callers(wants)[j], Calls(wants)[j], o.pool);
  }

  lemma AccountHasPool(m: Catalogue, id: NodeId, source: string, who: Identity, pool: Option<NodeId>)
    requires AccountAt(m, id, source, who, pool)
    ensures pool.Some?
  {
  }

  /** A folder that is not the pool's is remembered under the start of some row's path, and is at the end of it. */
  lemma {:induction false} FolderIs(m: Catalogue, wants: seq<Wanted>, o: Origins, digest: Digest, maxFields: nat, id: NodeId) returns (k: nat, n: nat)
    requires Faithful(m, wants, o, digest, maxFields) && Fit(wants) && id in m && m[id].kind.PreviewFolder?
    requires m[id] != FolderNode(id, POOL_NAME) || o.pool != Some(id)
    ensures k < |wants| && 0 < n <= |wants[k].path| && PlainFolder(m[id])
    ensures PrefixOf(wants[k].path[..n]) in o.byPath && o.byPath[PrefixOf(wants[k].path[..n])] == id
    ensures m[id].name == wants[k].path[n - 1] && Leads(m, wants[k].path[..n - 1], m[id].parentId)
  {
    hide Rows, Opened, Sane, PrefixOf, PlainFolder, IdentityFault;
    assert Expected(m, wants, o.made, o.byPath, o.pool, id);
    k, n :| 0 <= k < |wants| && 0 < n <= |wants[k].path|
            && PrefixOf(wants[k].path[..n]) in o.byPath && o.byPath[PrefixOf(wants[k].path[..n])] == id;
    SaneParts(wants[k]);
    var path := wants[k].path[..n];
    assert CleanPath(path) && Leads(m, path, Some(id));
    assert path[..n - 1] == wants[k].path[..n - 1];
  }

  /** Two folders in one place have two names, the pool's own folder aside: every path is created once. */
  lemma {:induction false} FoldersOnce(m: Catalogue, wants: seq<Wanted>, o: Origins, digest: Digest, maxFields: nat, a: NodeId, b: NodeId)
    requires Faithful(m, wants, o, digest, maxFields) && Fit(wants) && a in m && b in m
    requires m[a].kind.PreviewFolder? && m[b].kind.PreviewFolder? && m[a].parentId == m[b].parentId && m[a].name == m[b].name
    requires o.pool != Some(a) && o.pool != Some(b)
    ensures a == b
  {
    hide Faithful, Fit, PrefixOf, PlainFolder, Leads;
    var k, n := FolderIs(m, wants, o, digest, maxFields, a);
    var i, l := FolderIs(m, wants, o, digest, maxFields, b);
    var p, q := wants[k].path, wants[i].path;
    LeadsUnique(m, p[..n - 1], q[..l - 1], m[a].parentId);
    assert p[..n] == p[..n - 1] + [p[n - 1]] && q[..l] == q[..l - 1] + [q[l - 1]];
  }

  /** The paths the rows name, and every path on the way to one. */
  function FolderPaths(wants: seq<Wanted>): set<seq<string>> {
    if wants == [] then {} else FolderPaths(wants[..|wants| - 1]) + Steps(wants[|wants| - 1].path)
  }

  function Steps(path: seq<string>): set<seq<string>> {
    set n | 0 < n <= |path| :: path[..n]
  }

  /** The keys are the keys of the paths. */
  lemma {:induction false} KeysArePaths(wants: seq<Wanted>)
    requires Fit(wants)
    ensures FolderKeys(wants) == set p | p in FolderPaths(wants) :: PrefixOf(p)
    ensures forall p :: p in FolderPaths(wants) ==> CleanPath(p)
  {
    hide Sane, PrefixOf, IdentityFault, ValidateName;
    if wants != [] {
      var last := |wants| - 1;
      KeysArePaths(wants[..last]);
      SaneParts(wants[last]);
      var path := wants[last].path;
      assert forall n :: 0 < n <= |path| ==> path[..n] in Steps(path) && PrefixOf(path[..n]) in PrefixKeys(path);
    }
  }

  lemma {:induction false} ImageSize(paths: set<seq<string>>, keys: set<string>)
    requires (forall p :: p in paths ==> CleanPath(p)) && keys == set p | p in paths :: PrefixOf(p)
    ensures |keys| == |paths|
    decreases |paths|
  {
    hide PrefixOf, CleanPath;
    if paths == {} {
      assert keys == {};
    } else {
      var p :| p in paths;
      var rest := paths - {p};
      forall q | q in rest && PrefixOf(q) == PrefixOf(p) ensures false {
        PrefixInjective(p, q);
      }
      assert keys - {PrefixOf(p)} == set q | q in rest :: PrefixOf(q);
      ImageSize(rest, keys - {PrefixOf(p)});
      assert keys == (keys - {PrefixOf(p)}) + {PrefixOf(p)};
    }
  }

  /** The size of a preview, counted on the rows: distinct folder paths, rows, opened accounts, and the pool's folder. */
  lemma {:induction false} SizeOf(wants: seq<Wanted>, digest: Digest)
    requires Fit(wants)
    ensures NodesNeeded(wants, digest) == |FolderPaths(wants)| + |wants| + PoolNodes(Calls(wants), digest)
  {
    hide Fit, FolderKeys, FolderPaths, PrefixOf, CleanPath, PoolNodes, Calls;
    KeysArePaths(wants);
    ImageSize(FolderPaths(wants), FolderKeys(wants));
  }

  // Places.

  ghost predicate Shallow(wants: seq<Wanted>) {
    forall k :: 0 <= k < |wants| ==> |wants[k].path| < MAX_TREE_DEPTH
  }

  lemma PoolLeads(m: Catalogue, pool: NodeId)
    requires IsFolder(m, pool, POOL_NAME)
    ensures Leads(m, [POOL_NAME], Some(pool)) && Leads(m, [], m[pool].parentId)
  {
    assert [POOL_NAME][..0] == [];
  }

  /** The depth of every node of the preview. */
  lemma {:induction false} NodeSits(m: Catalogue, wants: seq<Wanted>, o: Origins, digest: Digest, maxFields: nat, now: int, seal: Seal, id: NodeId)
    requires Faithful(m, wants, o, digest, maxFields) && Fit(wants) && id in m
    ensures var f := Planted(m, now, seal);
            && Rooted(Parents(f), Some(id)) && HeldByFolder(f, id)
            && (Depth(f, id) <= 2 || exists k :: 0 <= k < |wants| && Depth(f, id) <= |wants[k].path| + 1)
  {
    hide Faithful, Fit, Rooted, HeldByFolder, Depth, Row, PlainFolder;
    match m[id].kind {
      case PreviewConnection(_, _, _) =>
        var k := ConnectionIs(m, wants, o, digest, maxFields, id);
        RowLeads(m, wants[k], id, k, GatewayFor(wants[k], id, ByName(wants, o.made)), FieldsFor(wants[k], id, ByName(wants, o.made), maxFields));
        Sits(m, now, seal, wants[k].path, id);
      case PreviewAccount(_) =>
        var j := AccountIs(m, wants, o, digest, maxFields, id);
        PoolLeads(m, o.pool.value);
        Sits(m, now, seal, [POOL_NAME], id);
      case PreviewFolder(_) =>
        if m[id] == FolderNode(id, POOL_NAME) {
          PoolLeads(m, id);
          Sits(m, now, seal, [], id);
        } else {
          var k, n := FolderIs(m, wants, o, digest, maxFields, id);
          Sits(m, now, seal, wants[k].path[..n - 1], id);
        }
    }
  }

  lemma RowLeads(m: Catalogue, w: Wanted, id: NodeId, order: nat, gateway: Inherited<seq<GatewayHop>>, fields: map<string, string>)
    requires Row(m, w, id, order, gateway, fields)
    ensures id in m && Leads(m, w.path, m[id].parentId)
  {
    hide Leads;
  }

  /** The tree is well placed exactly when no row's path is too long to hold its connection. */
  lemma {:induction false} PlacesExact(m: Catalogue, wants: seq<Wanted>, o: Origins, digest: Digest, maxFields: nat, now: int, seal: Seal)
    requires Faithful(m, wants, o, digest, maxFields) && Fit(wants)
    ensures var f := Planted(m, now, seal);
            Keyed(f) && Contained(f) && (Grounded(f) <==> Shallow(wants))
  {
    hide Fit, Rooted, Depth, Lineage, Rows, Opened, KeysLead, Row;
    var f := Planted(m, now, seal);
    forall id | id in f ensures f[id].id == id {
      BuiltId(m[id], now, seal);
    }
    forall id | id in f ensures HeldByFolder(f, id) {
      NodeSits(m, wants, o, digest, maxFields, now, seal, id);
    }
    if Shallow(wants) {
      forall id | id in f ensures Placed(f, id) {
        NodeSits(m, wants, o, digest, maxFields, now, seal, id);
      }
    }
    if Grounded(f) {
      forall k | 0 <= k < |wants| ensures |wants[k].path| < MAX_TREE_DEPTH {
        RowSits(m, wants, o, digest, maxFields, now, seal, k);
        assert Placed(f, o.made[k]);
      }
    }
  }

  lemma {:induction false} RowSits(m: Catalogue, wants: seq<Wanted>, o: Origins, digest: Digest, maxFields: nat, now: int, seal: Seal, k: nat)
    requires Faithful(m, wants, o, digest, maxFields) && k < |wants|
    ensures o.made[k] in m && Depth(Planted(m, now, seal), o.made[k]) == |wants[k].path| + 1
  {
    hide Row, KeysLead, OnlyExpected, Opened, GatewayFor, FieldsFor, ByName, Depth;
    var byName, id := ByName(wants, o.made), o.made[k];
    assert RowAt(m, wants, o.made, Elements(o.made), byName, maxFields, k);
    RowLeads(m, wants[k], id, k, GatewayFor(wants[k], id, byName), FieldsFor(wants[k], id, byName, maxFields));
    Sits(m, now, seal, wants[k].path, id);
  }

  // Values.

  /** Some row that makes a credential names nobody and is itself too long for the suffix. */
  ghost predicate Overflows(wants: seq<Wanted>, digest: Digest, j: nat)
    requires j < |Calls(wants)|
  {
    && Opens(Calls(wants), digest, j) && Nobody(Calls(wants)[j].username, Calls(wants)[j].domain)
    && |Trim(Callers(wants)[j])| + |CREDENTIALS_SUFFIX| > MAX_NAME_LEN
  }

  ghost predicate Overlong(wants: seq<Wanted>, digest: Digest) {
    exists j :: 0 <= j < |Calls(wants)| && Overflows(wants, digest, j)
  }

  lemma AccountValid(p: PreviewNode, source: string, who: Identity, pool: Option<NodeId>, now: int, seal: Seal)
    requires FitCall(source, who) && seal(p.id) != []
    requires p == Plainly(p.id, CredentialName(source, who.username, who.domain), AccountFor(who), pool, p.sortOrder)
    ensures ValidateNode(BuiltAs(p, now, seal)).None? <==>
            !(Nobody(who.username, who.domain) && |Trim(source)| + |CREDENTIALS_SUFFIX| > MAX_NAME_LEN)
  {
    hide ValidateName, CredentialName, Trim, HasControl;
    CredentialNameExact(source, who.username, who.domain);
  }

  lemma FolderValid(p: PreviewNode, now: int, seal: Seal)
    requires PlainFolder(p)
    ensures ValidateNode(BuiltAs(p, now, seal)).None?
  {
    hide ValidateName;
  }

  lemma PoolFolderValid(p: PreviewNode)
    requires p == FolderNode(p.id, POOL_NAME)
    ensures PlainFolder(p)
  {
  }

  lemma {:induction false} ConnectionValid(p: PreviewNode, w: Wanted, order: nat, byName: map<string, NodeId>, maxFields: nat, now: int, seal: Seal)
    requires Sane(w) && p.kind.PreviewConnection?
    requires p == RowNode(w, p.id, p.parentId, order, p.kind.fields.credential, GatewayFor(w, p.id, byName), FieldsFor(w, p.id, byName, maxFields))
    ensures ValidateNode(BuiltAs(p, now, seal)).None?
  {
    hide ValidateName, ValidateHost, ValidTag, ValidKey, ValidateGateway, Hops, CustomKey, GatewayFor, FieldsFor, ValidProtocolId, CleanPath;
    RouteValid(w, p.id, byName);
    FieldsValid(w, p.id, byName, maxFields);
  }

  lemma {:induction false} RouteValid(w: Wanted, id: NodeId, byName: map<string, NodeId>)
    ensures GatewayFor(w, id, byName).Explicit? ==> ValidateGateway(GatewayFor(w, id, byName).value).None?
    ensures !GatewayFor(w, id, byName).Default?
  {
    hide Hops;
    if GatewayFor(w, id, byName).Explicit? {
      GatewayAccepted(GatewayFor(w, id, byName).value);
    }
  }

  lemma FieldsValid(w: Wanted, id: NodeId, byName: map<string, NodeId>, maxFields: nat)
    requires KeysValid(w.customFields)
    ensures KeysValid(FieldsFor(w, id, byName, maxFields))
  {
    hide ValidKey, RouteOf;
  }

  /** Every node is valid exactly when no credential's name overflows. */
  lemma {:induction false} ValuesExact(m: Catalogue, wants: seq<Wanted>, o: Origins, digest: Digest, maxFields: nat, now: int, seal: Seal)
    requires Faithful(m, wants, o, digest, maxFields) && Fit(wants) && forall id :: seal(id) != []
    ensures AllValid(Planted(m, now, seal)) <==> !Overlong(wants, digest)
  {
    hide Faithful, Fit, ValidateNode, BuiltAs, Overflows;
    var f := Planted(m, now, seal);
    if !Overlong(wants, digest) {
      forall id | id in f ensures ValidateNode(f[id]).None? {
        NodeValid(m, wants, o, digest, maxFields, now, seal, id);
      }
    }
    if AllValid(f) {
      forall j | 0 <= j < |Calls(wants)| ensures !Overflows(wants, digest, j) {
        if Opens(Calls(wants), digest, j) {
          var id := CallMade(m, wants, o, digest, maxFields, now, seal, j);
          assert ValidateNode(f[id]).None?;
        }
        ClosedDoesNotOverflow(wants, digest, j);
      }
    }
  }

  lemma ClosedDoesNotOverflow(wants: seq<Wanted>, digest: Digest, j: nat)
    requires j < |Calls(wants)|
    ensures !Opens(Calls(wants), digest, j) ==> !Overflows(wants, digest, j)
  {
  }

  lemma {:induction false} CallMade(m: Catalogue, wants: seq<Wanted>, o: Origins, digest: Digest, maxFields: nat, now: int, seal: Seal, j: nat) returns (id: NodeId)
    requires Faithful(m, wants, o, digest, maxFields) && Fit(wants) && (forall id :: seal(id) != [])
    requires j < |Calls(wants)| && Opens(Calls(wants), digest, j)
    ensures id in m && (ValidateNode(BuiltAs(m[id], now, seal)).None? <==> !Overflows(wants, digest, j))
  {
    hide Fit, Rows, KeysLead, OnlyExpected, Ran, Opens, ValidateNode, BuiltAs, CredentialName, Trim, AccountsIn;
    CallsAreFit(wants, j);
    SessionShape(o.session, digest);
    id := o.session.got[j];
    assert AccountAt(m, id, Callers(wants)[j], Calls(wants)[j], o.pool);
    AccountValid(m[id], Callers(wants)[j], Calls(wants)[j], o.pool, now, seal);
  }

  lemma {:induction false} NodeValid(m: Catalogue, wants: seq<Wanted>, o: Origins, digest: Digest, maxFields: nat, now: int, seal: Seal, id: NodeId)
    requires Faithful(m, wants, o, digest, maxFields) && Fit(wants) && (forall id :: seal(id) != []) && !Overlong(wants, digest) && id in m
    ensures ValidateNode(BuiltAs(m[id], now, seal)).None?
  {
    hide Faithful, ValidateNode, BuiltAs, CredentialName, Trim, Sane, PlainFolder, Opens, GatewayFor, FieldsFor, ByName, Calls, Callers, IdentityFault;
    match m[id].kind {
      case PreviewConnection(_, _, _) =>
        var k := ConnectionIs(m, wants, o, digest, maxFields, id);
        ConnectionValid(m[id], wants[k], k, ByName(wants, o.made), maxFields, now, seal);
      case PreviewAccount(_) =>
        var j := AccountIs(m, wants, o, digest, maxFields, id);
        CallsAreFit(wants, j);
        assert !Overflows(wants, digest, j);
        AccountValid(m[id], Callers(wants)[j], Calls(wants)[j], o.pool, now, seal);
      case PreviewFolder(_) =>
        if m[id] == FolderNode(id, POOL_NAME) {
          PoolFolderValid(m[id]);
        } else {
          var k, n := FolderIs(m, wants, o, digest, maxFields, id);
        }
        FolderValid(m[id], now, seal);
    }
  }

  // References.

  lemma {:induction false} NamesAreRows(wants: seq<Wanted>, made: seq<NodeId>)
    requires |wants| == |made|
    ensures forall name :: name in ByName(wants, made) ==> ByName(wants, made)[name] in made
  {
    if wants != [] {
      var last := |wants| - 1;
      NamesAreRows(wants[..last], made[..last]);
    }
  }

  /** The hops of a row's route are connections of the preview, and none is the row's own. */
  lemma {:induction false} RouteHops(w: Wanted, id: NodeId, byName: map<string, NodeId>)
    requires GatewayFor(w, id, byName).Explicit?
    ensures var hops := GatewayFor(w, id, byName).value;
            forall i :: 0 <= i < |hops| ==> hops[i].node.Live? && hops[i].credential.None? && hops[i].node.id != id && hops[i].node.id in byName.Values
  {
    var route := RouteOf(w, id, byName).value;
    if w.gateway !in byName {
      LookedUp(Split(w.gateway, '>'), byName);
    }
    forall i | 0 <= i < |route| ensures route[i] != id && route[i] in byName.Values {
      assert route[i] in route;
    }
  }

  ghost predicate FoldersPlain(f: Forest) {
    forall id :: id in f && f[id].kind.Folder? ==> f[id].kind.fields == PLAIN
  }

  lemma {:induction false} AllFoldersPlain(m: Catalogue, wants: seq<Wanted>, o: Origins, digest: Digest, maxFields: nat, now: int, seal: Seal)
    requires Faithful(m, wants, o, digest, maxFields)
    ensures FoldersPlain(Planted(m, now, seal))
  {
    hide Rows, KeysLead, Opened, StepOf, ValidateName;
    var f := Planted(m, now, seal);
    forall id | id in f && f[id].kind.Folder? ensures f[id].kind.fields == PLAIN {
      assert Expected(m, wants, o.made, o.byPath, o.pool, id);
    }
  }

  /** Under plain folders a connection resolves to what it says itself. */
  lemma {:induction false} ResolvesItself(f: Forest, id: NodeId)
    requires Legal(f) && FoldersPlain(f) && id in f && f[id].kind.Connection?
    requires !f[id].kind.fields.credential.Default? && !f[id].kind.fields.gateway.Default?
    ensures Resolution.EffectiveConnection(f, id).Ok?
    ensures var walked, own := Resolution.EffectiveConnection(f, id).value.walked, f[id].kind.fields;
            && walked.credential.value == (if own.credential.Explicit? then Some(own.credential.value) else None)
            && walked.gateway.value == (if own.gateway.Explicit? then own.gateway.value else [])
  {
    hide Legal, Lineage, Rooted, Climb, Resolution.Resolve, AncestorsOf;
    LegalIsSound(f);
    Resolution.EffectiveAlongLineage(f, id);
    var n, ancestors := f[id], Resolution.PathNodes(f, id)[1..];
    forall i | 0 <= i < |ancestors| ensures ancestors[i].kind == Folder(PLAIN) {
      AncestorsAreFolders(f, id, i + 1);
      assert ancestors[i] == f[Lineage(Parents(f), Some(id))[i + 1]];
    }
    NothingAbove(n, ancestors, CredentialField);
    NothingAbove(n, ancestors, GatewayField);
  }

  lemma {:induction false} NothingAbove<T>(n: Node, ancestors: seq<Node>, field: Resolution.Field<T>)
    requires forall i :: 0 <= i < |ancestors| ==> Resolution.Defers(field(ancestors[i]))
    requires field(n).Some? && !field(n).value.Default?
    ensures Resolution.Resolve(n, ancestors, field).value == if field(n).value.Explicit? then Some(field(n).value.value) else None
  {
    var k := if field(n).value.Explicit? then 0 else |ancestors| + 1;
    assert forall i :: 1 <= i <= |ancestors| ==> ([n] + ancestors)[i] == ancestors[i - 1];
    Resolution.ResolveNearest(n, ancestors, field, k);
  }

  /** No reference of a legal preview is refused. */
  lemma {:induction false} ConnectionChecks(m: Catalogue, wants: seq<Wanted>, o: Origins, digest: Digest, maxFields: nat, now: int, seal: Seal, id: NodeId)
    requires Faithful(m, wants, o, digest, maxFields) && Fit(wants) && Legal(Planted(m, now, seal)) && id in m && m[id].kind.PreviewConnection?
    ensures ValidateReferences(Planted(m, now, seal), id).None?
  {
    hide Faithful, Legal, Keyed, Grounded, ValidateReferences, Sane, FieldsFor, GatewayFor, ByName, FoldersPlain, SimpleRoute, Leads, IdentityFault;
    var f := Planted(m, now, seal);
    var k := ConnectionIs(m, wants, o, digest, maxFields, id);
    var w, byName := wants[k], ByName(wants, o.made);
    AllFoldersPlain(m, wants, o, digest, maxFields, now, seal);
    RouteValid(w, id, byName);
    LegalIsSound(f);
    SaneParts(w);
    assert f[id].kind == Connection(w.protocol, w.host, m[id].kind.fields);
    ResolvesItself(f, id);
    GroundedAnchors(f, id);
    ChecksAreExact(f, id);
    if w.account.Some? {
      var c := m[id].kind.fields.credential.value.id;
      assert f[c].kind.Credential? && f[c].kind.props.allowedProtocols == [w.protocol] && f[c].kind.props.attachedTo.None?;
    }
    RouteChecks(m, wants, o, digest, maxFields, now, seal, w, id);
  }

  lemma {:induction false} RouteChecks(m: Catalogue, wants: seq<Wanted>, o: Origins, digest: Digest, maxFields: nat, now: int, seal: Seal, w: Wanted, id: NodeId)
    requires Faithful(m, wants, o, digest, maxFields)
    ensures |wants| == |o.made|
    ensures var gateway := GatewayFor(w, id, ByName(wants, o.made));
            RouteUsable(Planted(m, now, seal), if gateway.Explicit? then gateway.value else [], id)
  {
    hide KeysLead, OnlyExpected, Opened, ByName, GatewayFor, FieldsFor, SimpleRoute, Leads;
    var f, byName := Planted(m, now, seal), ByName(wants, o.made);
    NoRoute(f, id);
    if GatewayFor(w, id, byName).Explicit? {
      var hops := GatewayFor(w, id, byName).value;
      RouteValid(w, id, byName);
      GatewayAccepted(hops);
      RouteHops(w, id, byName);
      NamesAreRows(wants, o.made);
      forall i | 0 <= i < |hops| ensures HopUsable(f, hops[i], id) {
        var k :| 0 <= k < |o.made| && o.made[k] == hops[i].node.id;
        assert RowAt(m, wants, o.made, Elements(o.made), byName, maxFields, k);
      }
    }
  }

  lemma NoRoute(f: Forest, id: NodeId)
    ensures RouteUsable(f, [], id)
  {
  }

  lemma {:induction false} AllChecks(m: Catalogue, wants: seq<Wanted>, o: Origins, digest: Digest, maxFields: nat, now: int, seal: Seal, id: NodeId)
    requires Faithful(m, wants, o, digest, maxFields) && Fit(wants) && Legal(Planted(m, now, seal)) && id in m
    ensures ValidateReferences(Planted(m, now, seal), id).None?
  {
    hide Faithful, Fit, Legal;
    AllFoldersPlain(m, wants, o, digest, maxFields, now, seal);
    if m[id].kind.PreviewConnection? {
      ConnectionChecks(m, wants, o, digest, maxFields, now, seal, id);
    }
  }

  // The claim.

  /**
   A faithful preview is accepted exactly when every row's path leaves room for the row's connection,
   and no credential named after its row overflows the name limit.
   */
  lemma {:induction false} AcceptedExactly(nodes: seq<PreviewNode>, wants: seq<Wanted>, o: Origins, digest: Digest, maxFields: nat, now: int, seal: Seal)
    requires WellListed(nodes) && Faithful(ById(nodes), wants, o, digest, maxFields) && Fit(wants) && forall id :: seal(id) != []
    ensures Accepted(nodes, now, seal) <==> Shallow(wants) && !Overlong(wants, digest)
  {
    hide WellListed, Faithful, Fit, ById, Shallow, Overlong, ValidateNode, Grounded, Contained, AllValid, Keyed, ForestOf, ValidateReferences, DistinctIds;
    var m, f := ById(nodes), Planted(ById(nodes), now, seal);
    CommittedForest(nodes, now, seal);
    PlacesExact(m, wants, o, digest, maxFields, now, seal);
    ValuesExact(m, wants, o, digest, maxFields, now, seal);
    if Legal(f) {
      forall id | id in f ensures ValidateReferences(f, id).None? {
        AllChecks(m, wants, o, digest, maxFields, now, seal, id);
      }
      forall i | 0 <= i < |nodes| ensures IntoNode(nodes[i], now, SealFor(nodes[i], seal)).Ok? {
        Converts(nodes, now, seal, i);
      }
    }
  }

  lemma Converts(nodes: seq<PreviewNode>, now: int, seal: Seal, i: nat)
    requires WellListed(nodes) && i < |nodes| && AllValid(Planted(ById(nodes), now, seal)) && forall id :: seal(id) != []
    ensures IntoNode(nodes[i], now, SealFor(nodes[i], seal)).Ok?
  {
    hide ValidateNode, WellListed, ById;
    ByIdMembers(nodes);
    var f := Planted(ById(nodes), now, seal);
    assert ValidateNode(f[nodes[i].id]).None?;
  }

  /** The claim for a file: what the parse makes of it is accepted exactly when its rows leave room and no name overflows. */
  lemma {:induction false} PreviewAccepted(text: string, limits: Limits, digest: Digest, nodes: seq<PreviewNode>, now: int, seal: Seal)
    requires PreviewOf(text, limits, digest, nodes) && forall id :: seal(id) != []
    ensures Accepted(nodes, now, seal) <==> Shallow(Asked(text, limits)) && !Overlong(Asked(text, limits), digest)
  {
    hide WellListed, Faithful, ById, Accepted, Shallow, Overlong, Asked, Sane, IdentityFault, NodesNeeded;
    var wants := Asked(text, limits);
    var o :| Faithful(ById(nodes), wants, o, digest, limits.maxCustomFields);
    FitRows(wants, limits);
    AcceptedExactly(nodes, wants, o, digest, limits.maxCustomFields, now, seal);
  }

  lemma FitRows(wants: seq<Wanted>, limits: Limits)
    requires AllSane(wants) && AllFit(wants, limits)
    ensures Fit(wants)
  {
    hide Sane, IdentityFault;
    forall k | 0 <= k < |wants| ensures Sane(wants[k]) && (wants[k].account.Some? ==> IdentityFault(wants[k].account.value).None?) {
      assert RowFits(wants[k], limits);
    }
  }

  /** Under limits one level below the tree's, only an overlong name can get in the way. */
  lemma {:induction false} TightLimitsSuffice(wants: seq<Wanted>, limits: Limits, digest: Digest)
    requires AllSane(wants) && AllFit(wants, limits) && limits.maxDepth < MAX_TREE_DEPTH
    requires forall k :: 0 <= k < |wants| && wants[k].account.Some? && Nobody(wants[k].account.value.username, wants[k].account.value.domain) ==> |wants[k].name| <= 243
    ensures Fit(wants) && Shallow(wants) && !Overlong(wants, digest)
  {
    hide Sane, IdentityFault, Opens, Trim;
    FitRows(wants, limits);
    forall k | 0 <= k < |wants| ensures |wants[k].path| < MAX_TREE_DEPTH {
      assert RowFits(wants[k], limits);
    }
    forall j | 0 <= j < |Calls(wants)| ensures !Overflows(wants, digest, j) {
      var k := Caller(wants, j);
      TrimIsShorter(wants[k].name);
    }
  }

  lemma TrimIsShorter(s: string)
    ensures |Trim(s)| <= |s|
  {
  }

  lemma {:induction false} Caller(wants: seq<Wanted>, j: nat) returns (k: nat)
    requires j < |Calls(wants)|
    ensures k < |wants| && wants[k].account == Some(Calls(wants)[j]) && wants[k].name == Callers(wants)[j]
  {
    var last := |wants| - 1;
    if j < |Calls(wants[..last])| {
      k := Caller(wants[..last], j);
    } else {
      k := last;
    }
  }
}
