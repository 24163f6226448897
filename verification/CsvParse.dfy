/** The two passes of the CSV import (crates/remoter-import/src/csv.rs:81-289). */
module CsvParse {
  import opened Base
  import opened Inheritance
  import opened Nodes
  import opened Text
  import opened Validation
  import opened Mapping
  import opened Previews
  import opened Interning
  import opened CredentialPools
  import opened CsvText
  import opened CsvRows
  import opened CsvFolders
  import opened CsvImport

  // The first pass: one row.

  /** Creates the folders of a row; whatever row has this path can then be added below them. */
  method EnterFolders(b: PreviewBuilder, pool: CredentialPool, folders: Folders, path: string, limits: Limits, ghost wants: seq<Wanted>, ghost made: seq<NodeId>)
    returns (r: Result<Option<NodeId>, ImportError>)
    requires InStep(b, pool, folders, wants, made, limits.maxCustomFields)
    modifies b, folders
    ensures r.Ok? ==>
              && pool.Valid(b) && |Segments(path)| <= limits.maxDepth
              && folders.byPath.Keys == FolderKeys(wants) + PrefixKeys(Segments(path))
              && |b.nodes| == NodesNeeded(wants, pool.digest) + MissingKeys(Segments(path), FolderKeys(wants))
              && forall w: Wanted :: w.path == Segments(path) ==>
                   Adding(ById(b.nodes), wants, w, wants, made, folders.byPath, r.value, pool.folder, pool.session, pool.digest, limits.maxCustomFields)
    ensures r.Err? ==>
              || (r.error == TooDeep && |Segments(path)| > limits.maxDepth)
              || (r.error == TooManyNodes && b.maxNodes < NodesNeeded(wants, pool.digest) + MissingKeys(Segments(path), FolderKeys(wants)))
  {
    hide Holding, Adding, ById, WellListed, Accounts, AccountsIn, Ran, IsFolder, Along, Segments, Same, FolderKeys, NodesNeeded, PrefixKeys, MissingKeys;
    ghost var m, was, s, maxFields := ById(b.nodes), folders.byPath, pool.session, limits.maxCustomFields;
    HoldingParts(m, wants, made, was, pool.folder, s, pool.digest, maxFields);
    r := folders.Path(b, path, limits.maxDepth);
    if r.Ok? {
      ByIdMembers(b.nodes);
      forall w: Wanted | w.path == Segments(path)
        ensures Adding(ById(b.nodes), wants, w, wants, made, folders.byPath, r.value, pool.folder, s, pool.digest, maxFields)
        ensures AccountsIn(ById(b.nodes)) == AccountsIn(m) && Same(m, ById(b.nodes))
      {
        PathAdded(m, ById(b.nodes), wants, w, made, was, folders.byPath, r.value, pool.folder, s, pool.digest, maxFields);
      }
      SomeRow(Segments(path));
      PoolStays(m, ById(b.nodes), pool.folder);
    }
  }

  lemma SomeRow(path: seq<string>)
    ensures exists w: Wanted :: w.path == path
  {
    assert Wanted("", "", "", Inherit, path, None, "", [], map[], "").path == path;
  }

  /** Adds a row below its folders: its credential, if it asks for one, and its connection. */
  method PlaceRow(b: PreviewBuilder, pool: CredentialPool, folders: Folders, w: Wanted, parent: Option<NodeId>, order: nat, limits: Limits,
                  ghost wants: seq<Wanted>, ghost made: seq<NodeId>)
    returns (r: Result<NodeId, ImportError>)
    requires pool.Valid(b) && pool.folderName == POOL_NAME && order == |wants|
    requires Adding(ById(b.nodes), wants, w, wants, made, folders.byPath, parent, pool.folder, pool.session, pool.digest, limits.maxCustomFields)
    requires w.account.Some? ==> WellNamed(w.account.value.protocols)
    requires folders.byPath.Keys == FolderKeys(wants) + PrefixKeys(w.path)
    requires |b.nodes| == NodesNeeded(wants, pool.digest) + MissingKeys(w.path, FolderKeys(wants))
    modifies b, pool
    ensures r.Ok? ==> InStep(b, pool, folders, wants + [w], made + [r.value], limits.maxCustomFields)
    ensures r.Ok? ==> (w.account.Some? ==> IdentityFault(w.account.value).None?)
    ensures r.Err? ==>
              || (r.error.Rejected? && w.account.Some? && IdentityFault(w.account.value) == Some(r.error.error))
              || (r.error == TooManyNodes && b.maxNodes < NodesNeeded(wants + [w], pool.digest))
  {
    hide Holding, Adding, ById, WellListed, Accounts, AccountsIn, Ran, Credited, IsFolder, WellNamed, RowNode, Same, IdentityFault, FolderKeys, NodesNeeded, PrefixKeys, MissingKeys, PoolGrowth;
    NeededNext(wants, w, pool.digest);
    ghost var maxFields := limits.maxCustomFields;
    var credential := Credit(b, pool, w, wants, made, folders.byPath, parent, maxFields);
    if credential.Err? {
      return Err(credential.error);
    }
    AddingEnds(ById(b.nodes), wants, w, wants + [w], made, folders.byPath, parent, pool.folder, pool.session, pool.digest, maxFields);
    var id := b.NewId();
    var node := RowNode(w, id, parent, order, credential.value, Inherit, w.customFields);
    RowAdded(ById(b.nodes), wants, w, made, folders.byPath, parent, pool.folder, pool.session, pool.digest, maxFields, id, credential.value);
    RowShape(w, id, parent, order, credential.value);
    PoolStays(ById(b.nodes), ById(b.nodes)[id := node], pool.folder);
    r := b.Push(node);
  }

  lemma RowIsNamed(w: Wanted)
    requires Sane(w)
    ensures w.account.Some? ==> WellNamed(w.account.value.protocols)
  {
    hide ValidateName, ValidateHost, ValidProtocolId;
  }

  lemma PoolNamed(b: PreviewBuilder, pool: CredentialPool, folders: Folders, wants: seq<Wanted>, made: seq<NodeId>, maxFields: nat)
    requires InStep(b, pool, folders, wants, made, maxFields)
    ensures pool.folderName == POOL_NAME
  {
  }

  lemma HoldingParts(m: Catalogue, wants: seq<Wanted>, made: seq<NodeId>, byPath: map<string, NodeId>, pool: Option<NodeId>,
                     s: Session, digest: Digest, maxFields: nat)
    requires Holding(m, wants, made, byPath, pool, s, digest, maxFields)
    ensures KeysLead(byPath, m)
  {
  }

  lemma AddingEnds(m: Catalogue, wants: seq<Wanted>, w: Wanted, asked: seq<Wanted>, made: seq<NodeId>, byPath: map<string, NodeId>,
                   parent: Option<NodeId>, pool: Option<NodeId>, s: Session, digest: Digest, maxFields: nat)
    requires Adding(m, wants, w, asked, made, byPath, parent, pool, s, digest, maxFields)
    ensures parent.Some? ==> parent.value in m
  {
    hide Rows, OnlyExpected, Opened, KeysLead;
  }

  lemma RowShape(w: Wanted, id: NodeId, parent: Option<NodeId>, order: nat, credential: Inherited<NodeRef>)
    ensures var p := RowNode(w, id, parent, order, credential, Inherit, w.customFields);
            p.id == id && p.parentId == parent && p.kind.PreviewConnection?
  {
  }

  lemma PoolStays(m: Catalogue, n: Catalogue, pool: Option<NodeId>)
    requires Same(m, n)
    ensures forall name :: pool.Some? && IsFolder(m, pool.value, name) ==> IsFolder(n, pool.value, name)
  {
  }

  // The second pass.

  /** The connections whose rows name a gateway, with what they name. */
  function Pending(wants: seq<Wanted>, made: seq<NodeId>): seq<(NodeId, string)>
    requires |wants| == |made|
  {
    if wants == [] then []
    else
      var last := |wants| - 1;
      Pending(wants[..last], made[..last]) + if wants[last].gateway == "" then [] else [(made[last], wants[last].gateway)]
  }

  lemma PendingSnoc(wants: seq<Wanted>, made: seq<NodeId>, w: Wanted, id: NodeId)
    requires |wants| == |made|
    ensures w.gateway == "" ==> Pending(wants + [w], made + [id]) == Pending(wants, made)
    ensures w.gateway != "" ==> Pending(wants + [w], made + [id]) == Pending(wants, made) + [(id, w.gateway)]
    ensures ByName(wants + [w], made + [id]) == ByName(wants, made)[w.name := id]
  {
    assert (wants + [w])[..|wants|] == wants && (made + [id])[..|made|] == made;
  }

  /** Every entry is some row's, no connection is listed twice, and no row with a gateway is left out. */
  ghost predicate PendingExact(wants: seq<Wanted>, made: seq<NodeId>, pending: seq<(NodeId, string)>)
    requires |wants| == |made|
  {
    && (forall j :: 0 <= j < |pending| ==> PendingFor(wants, made, pending[j]))
    && (forall i, j :: 0 <= i < j < |pending| ==> pending[i].0 != pending[j].0)
    && (forall k :: 0 <= k < |wants| && wants[k].gateway != "" ==> Listed(pending, made[k]))
  }

  ghost predicate PendingFor(wants: seq<Wanted>, made: seq<NodeId>, entry: (NodeId, string))
    requires |wants| == |made|
  {
    exists k :: 0 <= k < |wants| && made[k] == entry.0 && wants[k].gateway == entry.1 && entry.1 != ""
  }

  ghost predicate Listed(pending: seq<(NodeId, string)>, id: NodeId) {
    exists j :: 0 <= j < |pending| && pending[j].0 == id
  }

  lemma {:induction false} PendingIsExact(wants: seq<Wanted>, made: seq<NodeId>)
    requires |wants| == |made| && Distinct(made)
    ensures PendingExact(wants, made, Pending(wants, made))
  {
    if wants != [] {
      var last := |wants| - 1;
      var ws, ms := wants[..last], made[..last];
      PendingIsExact(ws, ms);
      var p, q := Pending(ws, ms), Pending(wants, made);
      forall j | 0 <= j < |q| ensures PendingFor(wants, made, q[j]) {
        if j < |p| {
          assert PendingFor(ws, ms, p[j]);
          var k :| 0 <= k < |ws| && ms[k] == p[j].0 && ws[k].gateway == p[j].1 && p[j].1 != "";
          assert made[k] == q[j].0 && wants[k].gateway == q[j].1;
        } else {
          assert made[last] == q[j].0;
        }
      }
      forall i | 0 <= i < |p| ensures p[i].0 != made[last] {
        assert PendingFor(ws, ms, p[i]);
        var k :| 0 <= k < |ws| && ms[k] == p[i].0;
        assert made[k] == p[i].0;
      }
      forall k | 0 <= k < |wants| && wants[k].gateway != "" ensures Listed(q, made[k]) {
        if k < last {
          assert Listed(p, ms[k]);
          var j :| 0 <= j < |p| && p[j].0 == ms[k];
          assert q[j].0 == made[k];
        } else {
          assert q[|p|].0 == made[k];
        }
      }
    }
  }

  /** The second pass changes connections only, and neither their ids nor their places. */
  ghost predicate Rerouted(m: Catalogue, n: Catalogue) {
    && n.Keys == m.Keys
    && forall id :: id in m ==>
         if m[id].kind.PreviewConnection? then n[id].kind.PreviewConnection? && n[id].id == m[id].id && n[id].parentId == m[id].parentId
         else n[id] == m[id]
  }

  function Ids(pending: seq<(NodeId, string)>): set<NodeId> {
    set entry | entry in pending :: entry.0
  }

  /** A row's connection once its gateway has been looked up. */
  function Routed(p: PreviewNode, w: Wanted, byName: map<string, NodeId>, maxFields: nat): PreviewNode
    requires p.kind.PreviewConnection?
  {
    p.(customFields := FieldsFor(w, p.id, byName, maxFields),
       kind := p.kind.(fields := p.kind.fields.(gateway := GatewayFor(w, p.id, byName))))
  }

  lemma {:induction false} RowRouted(m: Catalogue, wants: seq<Wanted>, made: seq<NodeId>, routed: set<NodeId>, byName: map<string, NodeId>, maxFields: nat, k: nat)
    requires Rows(m, wants, made, routed, byName, maxFields) && k < |wants| && made[k] !in routed
    ensures made[k] in m && m[made[k]].kind.PreviewConnection? && m[made[k]].id == made[k]
    ensures m[made[k]].customFields == wants[k].customFields && m[made[k]].kind.fields.gateway == Inherit
    ensures Rows(m[made[k] := Routed(m[made[k]], wants[k], byName, maxFields)], wants, made, routed + {made[k]}, byName, maxFields)
    ensures Rerouted(m, m[made[k] := Routed(m[made[k]], wants[k], byName, maxFields)])
  {
    hide GatewayFor, FieldsFor, Leads;
    assert RowAt(m, wants, made, routed, byName, maxFields, k);
    var n := m[made[k] := Routed(m[made[k]], wants[k], byName, maxFields)];
    forall i | 0 <= i < |wants| ensures RowAt(n, wants, made, routed + {made[k]}, byName, maxFields, i) {
      assert RowAt(m, wants, made, routed, byName, maxFields, i);
      LeadsStill(m, n, wants[i].path, m[made[i]].parentId);
    }
  }

  /** Nothing but the connections has changed, so the folders and credentials are as they were. */
  lemma {:induction false} ReroutedStill(m: Catalogue, n: Catalogue, wants: seq<Wanted>, made: seq<NodeId>, byPath: map<string, NodeId>,
                                         pool: Option<NodeId>, s: Session, digest: Digest)
    requires Rerouted(m, n) && KeysLead(byPath, m) && OnlyExpected(m, wants, made, byPath, pool) && Opened(m, wants, s, digest, pool)
    ensures KeysLead(byPath, n) && OnlyExpected(n, wants, made, byPath, pool) && Opened(n, wants, s, digest, pool)
  {
    hide KeysLead, StepOf, PlainFolder, Ran, Opens, CredentialName, Calls, Callers;
    assert Grown(m, n);
    KeysStillLead(byPath, m, n);
    forall id | id in n ensures Expected(n, wants, made, byPath, pool, id) {
      assert Expected(m, wants, made, byPath, pool, id);
    }
    assert AccountsIn(n) == AccountsIn(m);
  }

  lemma ReroutedThrice(a: Catalogue, b: Catalogue, c: Catalogue)
    requires Rerouted(a, b) && Rerouted(b, c)
    ensures Rerouted(a, c)
  {
  }

  /** Looks the gateway of one connection up and sets it, or keeps it as text. */
  method RouteOne(b: PreviewBuilder, connection: NodeId, target: string, byName: map<string, NodeId>, maxFields: nat, ghost w: Wanted)
    requires b.Valid() && target == w.gateway && target != ""
    requires var m := ById(b.nodes);
             && connection in m && m[connection].kind.PreviewConnection? && m[connection].id == connection
             && m[connection].customFields == w.customFields && m[connection].kind.fields.gateway == Inherit
    modifies b
    ensures |b.nodes| == old(|b.nodes|)
    ensures b.Valid() && ById(b.nodes) == old(ById(b.nodes))[connection := Routed(old(ById(b.nodes))[connection], w, byName, maxFields)]
  {
    hide ById, WellListed, Accounts, Hops, Usable, Preserved, CustomKey;
    FindExact(b.nodes, connection);
    var i := Find(b.nodes, connection).value;
    var p := b.nodes[i];
    var hops := Route(target, byName, connection);
    if hops.Some? {
      b.Revise(i, p.(kind := p.kind.(fields := p.kind.fields.(gateway := Explicit(Chain(hops.value))))));
    } else {
      var key := CustomKey("csv", "gateway");
      var fields := if key.Some? then Preserved(p.customFields, key.value, target, maxFields) else p.customFields;
      b.Revise(i, p.(customFields := fields));
    }
  }

  method RoutePending(b: PreviewBuilder, pending: seq<(NodeId, string)>, byName: map<string, NodeId>, maxFields: nat,
                      ghost wants: seq<Wanted>, ghost made: seq<NodeId>)
    requires b.Valid() && Rows(ById(b.nodes), wants, made, {}, byName, maxFields) && PendingExact(wants, made, pending)
    modifies b
    ensures b.Valid() && Rows(ById(b.nodes), wants, made, Elements(made), byName, maxFields)
    ensures Rerouted(old(ById(b.nodes)), ById(b.nodes)) && |b.nodes| == old(|b.nodes|)
  {
    hide ById, WellListed, Accounts, Rows, Rerouted, Routed, Distinct, Elements;
    ghost var before := ById(b.nodes);
    var j := 0;
    assert Ids(pending[..0]) == {};
    Unchanged(before);
    MadeForAll(before, wants, made, {}, byName, maxFields);
    while j < |pending|
      invariant 0 <= j <= |pending| && b.Valid()
      invariant Rows(ById(b.nodes), wants, made, Ids(pending[..j]), byName, maxFields)
      invariant Rerouted(before, ById(b.nodes)) && |b.nodes| == old(|b.nodes|)
    {
      var (connection, target) := pending[j];
      assert PendingFor(wants, made, pending[j]);
      ghost var k :| 0 <= k < |wants| && made[k] == connection && wants[k].gateway == target && target != "";
      IdsNext(pending, j);
      ghost var m := ById(b.nodes);
      RowRouted(m, wants, made, Ids(pending[..j]), byName, maxFields, k);
      RouteOne(b, connection, target, byName, maxFields, wants[k]);
      ReroutedThrice(before, m, ById(b.nodes));
      j := j + 1;
    }
    assert pending[..j] == pending;
    AllRouted(ById(b.nodes), wants, made, pending, byName, maxFields);
  }

  lemma MadeForAll(m: Catalogue, wants: seq<Wanted>, made: seq<NodeId>, routed: set<NodeId>, byName: map<string, NodeId>, maxFields: nat)
    requires Rows(m, wants, made, routed, byName, maxFields)
    ensures |made| == |wants| && Distinct(made)
  {
  }

  lemma Unchanged(m: Catalogue)
    ensures Rerouted(m, m)
  {
  }

  lemma {:induction false} IdsNext(pending: seq<(NodeId, string)>, j: nat)
    requires j < |pending| && forall a, b :: 0 <= a < b < |pending| ==> pending[a].0 != pending[b].0
    ensures pending[j].0 !in Ids(pending[..j])
    ensures Ids(pending[..j + 1]) == Ids(pending[..j]) + {pending[j].0}
  {
    assert pending[..j + 1] == pending[..j] + [pending[j]];
    assert forall entry :: entry in pending[..j] ==> exists a :: 0 <= a < j && pending[a] == entry;
  }

  /** A row that names no gateway needs no second pass. */
  lemma {:induction false} AllRouted(m: Catalogue, wants: seq<Wanted>, made: seq<NodeId>, pending: seq<(NodeId, string)>, byName: map<string, NodeId>, maxFields: nat)
    requires Rows(m, wants, made, Ids(pending), byName, maxFields) && PendingExact(wants, made, pending)
    ensures Rows(m, wants, made, Elements(made), byName, maxFields)
  {
    hide Row, Hops, Usable;
    forall k | 0 <= k < |wants| ensures RowAt(m, wants, made, Elements(made), byName, maxFields, k) {
      assert RowAt(m, wants, made, Ids(pending), byName, maxFields, k);
      if wants[k].gateway != "" {
        assert Listed(pending, made[k]);
        var j :| 0 <= j < |pending| && pending[j].0 == made[k];
        assert pending[j] in pending;
      }
    }
  }

  // The whole parse.

  /** Where the nodes of a preview came from. */
  datatype Origins = Origins(made: seq<NodeId>, byPath: map<string, NodeId>, pool: Option<NodeId>, session: Session)

  /** A preview holds what the rows ask for, each thing once, and nothing else. */
  ghost predicate Faithful(m: Catalogue, wants: seq<Wanted>, o: Origins, digest: Digest, maxFields: nat) {
    && |o.made| == |wants|
    && Rows(m, wants, o.made, Elements(o.made), ByName(wants, o.made), maxFields)
    && KeysLead(o.byPath, m) && OnlyExpected(m, wants, o.made, o.byPath, o.pool) && Opened(m, wants, o.session, digest, o.pool)
  }

  ghost predicate AllSane(wants: seq<Wanted>) {
    forall k :: 0 <= k < |wants| ==> Sane(wants[k])
  }

  ghost predicate AllFit(wants: seq<Wanted>, limits: Limits) {
    forall k :: 0 <= k < |wants| ==> RowFits(wants[k], limits)
  }

  /** The rows of a file that could be read. */
  function Asked(text: string, limits: Limits): seq<Wanted> {
    match ReadAll(text, limits)
    case Err(_) => []
    case Ok(records) => if records == [] then [] else Wants(records[0], records[1..], limits.maxCustomFields)
  }

  /** Some row stops the import, or the rows need more nodes than the ceiling. */
  ghost predicate RowsFault(wants: seq<Wanted>, limits: Limits, digest: Digest, e: ImportError) {
    (e == TooManyNodes && NodesNeeded(wants, digest) > limits.maxNodes) || exists k :: 0 <= k < |wants| && RowFault(wants[k], limits, e)
  }

  /** What is wrong with a file. */
  ghost predicate ParseFault(text: string, limits: Limits, digest: Digest, e: ImportError) {
    match ReadAll(text, limits)
    case Err(reason) => e == Unreadable(reason)
    case Ok(records) =>
      if records == [] then e == WrongFormat
      else HeaderFault(records[0], e) || RowsFault(Asked(text, limits), limits, digest, e)
  }

  lemma NoRowsFault(wants: seq<Wanted>, limits: Limits, digest: Digest, e: ImportError)
    requires AllFit(wants, limits) && NodesNeeded(wants, digest) <= limits.maxNodes
    ensures !RowsFault(wants, limits, digest, e)
  {
    hide NodesNeeded, IdentityFault;
    forall k | 0 <= k < |wants| ensures !RowFault(wants[k], limits, e) {
      assert RowFits(wants[k], limits);
    }
  }

  lemma WantsSnoc(cells: seq<string>, rows: seq<seq<string>>, i: nat, maxFields: nat)
    requires i < |rows|
    ensures var w := Want(cells, HeaderOf(cells), rows[i], maxFields);
            && (w.None? ==> Wants(cells, rows[..i + 1], maxFields) == Wants(cells, rows[..i], maxFields))
            && (w.Some? ==> Wants(cells, rows[..i + 1], maxFields) == Wants(cells, rows[..i], maxFields) + [w.value])
  {
    hide Want, HeaderOf;
    assert rows[..i + 1][..i] == rows[..i];
  }

  lemma {:induction false} WantsPrefix(cells: seq<string>, rows: seq<seq<string>>, i: nat, maxFields: nat)
    requires i <= |rows|
    ensures Wants(cells, rows[..i], maxFields) <= Wants(cells, rows, maxFields)
    decreases |rows| - i
  {
    hide Want, HeaderOf;
    if i < |rows| {
      WantsSnoc(cells, rows, i, maxFields);
      WantsPrefix(cells, rows, i + 1, maxFields);
    } else {
      assert rows[..i] == rows;
    }
  }

  lemma {:induction false} StartHolding(digest: Digest, maxFields: nat)
    ensures Holding(map[], [], [], map[], None, NEW_SESSION, digest, maxFields)
  {
    assert Ran(NEW_SESSION, digest);
    assert KeysLead(map[], map[]);
    assert AccountsIn(map[]) == map[];
  }

  lemma RowsAnyNames(m: Catalogue, wants: seq<Wanted>, made: seq<NodeId>, byName: map<string, NodeId>, maxFields: nat)
    requires Rows(m, wants, made, {}, map[], maxFields)
    ensures Rows(m, wants, made, {}, byName, maxFields)
  {
    hide Row, GatewayFor, FieldsFor, Distinct;
    forall k | 0 <= k < |wants| ensures RowAt(m, wants, made, {}, byName, maxFields, k) {
      assert RowAt(m, wants, made, {}, map[], maxFields, k);
    }
  }

  lemma NoWants(cells: seq<string>, maxFields: nat)
    ensures Wants(cells, [], maxFields) == [] && ByName([], []) == map[] && Pending([], []) == []
  {
  }

  /** The first pass over all rows. */
  method ImportRows(b: PreviewBuilder, pool: CredentialPool, folders: Folders, cells: seq<string>, rows: seq<seq<string>>, limits: Limits)
    returns (r: Result<(map<string, NodeId>, seq<(NodeId, string)>), ImportError>, ghost made: seq<NodeId>)
    requires InStep(b, pool, folders, [], [], limits.maxCustomFields) && b.nodes == [] && b.maxNodes == limits.maxNodes
    modifies b, pool, folders
    ensures var wants := Wants(cells, rows, limits.maxCustomFields);
            && (r.Ok? ==>
                  && InStep(b, pool, folders, wants, made, limits.maxCustomFields) && |made| == |wants|
                  && r.value == (ByName(wants, made), Pending(wants, made)) && AllFit(wants, limits))
            && (r.Err? ==> RowsFault(wants, limits, pool.digest, r.error))
  {
    hide InStep, Holding, Ran, AccountsIn, IsFolder, Accounts, Pending, ByName, Wants, FolderKeys, NodesNeeded, PrefixKeys, MissingKeys, Adding, ById, WellListed, IdentityFault, Want, HeaderOf, Sane, Segments, CellsOf, WellNamed;
    var h := HeaderOf(cells);
    var byName: map<string, NodeId>, pending: seq<(NodeId, string)>, sort := map[], [], 0;
    made := [];
    var i := 0;
    assert rows[..0] == [];
    NoWants(cells, limits.maxCustomFields);
    while i < |rows|
      invariant 0 <= i <= |rows|
      invariant var wants := Wants(cells, rows[..i], limits.maxCustomFields);
                && InStep(b, pool, folders, wants, made, limits.maxCustomFields) && |made| == |wants| == sort
                && byName == ByName(wants, made) && pending == Pending(wants, made) && AllFit(wants, limits)
    {
      ghost var wants := Wants(cells, rows[..i], limits.maxCustomFields);
      var row := ReadRow(cells, h, rows[i], limits.maxCustomFields);
      WantsSnoc(cells, rows, i, limits.maxCustomFields);
      if row.Some? {
        var w := row.value;
        RowIsSane(cells, h, rows[i], limits.maxCustomFields);
        RowIsNamed(w);
        WantsPrefix(cells, rows, i + 1, limits.maxCustomFields);
        assert Wants(cells, rows, limits.maxCustomFields)[|wants|] == w;
        NeededNext(wants, w, pool.digest);
        NeededGrows(wants + [w], Wants(cells, rows, limits.maxCustomFields), pool.digest);
        PoolNamed(b, pool, folders, wants, made, limits.maxCustomFields);
        var parent := EnterFolders(b, pool, folders, CellsOf(h, rows[i]).folder, limits, wants, made);
        if parent.Err? {
          return Err(parent.error), made;
        }
        var added := PlaceRow(b, pool, folders, w, parent.value, sort, limits, wants, made);
        if added.Err? {
          return Err(added.error), made;
        }
        sort := sort + 1;
        PendingSnoc(wants, made, w, added.value);
        byName := byName[w.name := added.value];
        if w.gateway != "" {
          pending := pending + [(added.value, w.gateway)];
        }
        made := made + [added.value];
      }
      i := i + 1;
    }
    assert rows[..i] == rows;
    return Ok((byName, pending)), made;
  }

  lemma {:induction false} AllAreSane(cells: seq<string>, rows: seq<seq<string>>, maxFields: nat)
    ensures AllSane(Wants(cells, rows, maxFields))
  {
    hide Want, HeaderOf, Sane, CellsOf, Segments;
    if rows != [] {
      var last := |rows| - 1;
      AllAreSane(cells, rows[..last], maxFields);
      RowIsSane(cells, HeaderOf(cells), rows[last], maxFields);
    }
  }

  /** The nodes are a preview of the file: of exactly the size its rows need, and faithful to them. */
  ghost predicate PreviewOf(text: string, limits: Limits, digest: Digest, nodes: seq<PreviewNode>) {
    && WellListed(nodes) && |nodes| == NodesNeeded(Asked(text, limits), digest)
    && (exists o :: Faithful(ById(nodes), Asked(text, limits), o, digest, limits.maxCustomFields))
    && AllSane(Asked(text, limits)) && AllFit(Asked(text, limits), limits)
  }

  /** `parse`: it succeeds exactly on a file with nothing wrong with it, and the preview is then faithful to the rows. */
  method Parse(text: string, limits: Limits, digest: Digest, firstId: NodeId) returns (r: Result<seq<PreviewNode>, ImportError>)
    ensures r.Ok? <==> forall e :: !ParseFault(text, limits, digest, e)
    ensures r.Ok? ==> PreviewOf(text, limits, digest, r.value)
    ensures r.Err? ==> ParseFault(text, limits, digest, r.error)
  {
    hide Faithful, ById, WellListed, AllFit, AllSane, HeaderFault, RowsFault, Wants, NodesNeeded;
    var read := Read(text, limits);
    if read.Err? {
      assert ParseFault(text, limits, digest, Unreadable(read.error));
      return Err(Unreadable(read.error));
    }
    var records := read.value;
    if records == [] {
      assert ParseFault(text, limits, digest, WrongFormat);
      return Err(WrongFormat);
    }
    assert Asked(text, limits) == Wants(records[0], records[1..], limits.maxCustomFields);
    ghost var o;
    r, o := ParseRecords(records, limits, digest, firstId);
    if r.Ok? {
      forall e ensures !ParseFault(text, limits, digest, e) {
        NoRowsFault(Asked(text, limits), limits, digest, e);
      }
    } else {
      assert ParseFault(text, limits, digest, r.error);
    }
  }

  /** The parse once the file is split into records. */
  method ParseRecords(records: seq<seq<string>>, limits: Limits, digest: Digest, firstId: NodeId)
    returns (r: Result<seq<PreviewNode>, ImportError>, ghost o: Origins)
    requires records != []
    ensures var wants := Wants(records[0], records[1..], limits.maxCustomFields);
            && (r.Ok? ==>
                  && WellListed(r.value) && |r.value| == NodesNeeded(wants, digest) <= limits.maxNodes
                  && (forall e :: !HeaderFault(records[0], e))
                  && Faithful(ById(r.value), wants, o, digest, limits.maxCustomFields)
                  && AllSane(wants) && AllFit(wants, limits))
            && (r.Err? ==> HeaderFault(records[0], r.error) || RowsFault(wants, limits, digest, r.error))
  {
    hide Faithful, Holding, ById, WellListed, Accounts, AllFit, AllSane, HeaderFault, RowsFault, Ran, AccountsIn, IsFolder, Wants, ByName, Pending;
    o := Origins([], map[], None, NEW_SESSION);
    var header := ReadHeader(records[0]);
    if header.Err? {
      return Err(header.error), o;
    }
    ghost var wants, maxFields := Wants(records[0], records[1..], limits.maxCustomFields), limits.maxCustomFields;
    var b, pool, folders := Begin(limits, digest, firstId);
    var first, made := ImportRows(b, pool, folders, records[0], records[1..], limits);
    if first.Err? {
      return Err(first.error), o;
    }
    AllAreSane(records[0], records[1..], maxFields);
    o := Origins(made, folders.byPath, pool.folder, pool.session);
    SecondPass(b, first.value.1, first.value.0, limits.maxCustomFields, wants, o, digest);
    return Ok(b.nodes), o;
  }

  method Begin(limits: Limits, digest: Digest, firstId: NodeId) returns (b: PreviewBuilder, pool: CredentialPool, folders: Folders)
    ensures fresh(b) && fresh(pool) && fresh(folders)
    ensures b.maxNodes == limits.maxNodes && b.nodes == [] && pool.digest == digest
    ensures InStep(b, pool, folders, [], [], limits.maxCustomFields)
  {
    hide Holding, ById, WellListed, Accounts, Ran, AccountsIn;
    b := new PreviewBuilder(limits.maxNodes, firstId);
    pool := new CredentialPool(POOL_NAME, digest);
    folders := new Folders();
    NothingYet(digest, limits.maxCustomFields);
  }

  method SecondPass(b: PreviewBuilder, pending: seq<(NodeId, string)>, byName: map<string, NodeId>, maxFields: nat,
                    ghost wants: seq<Wanted>, ghost o: Origins, ghost digest: Digest)
    requires b.Valid() && Holding(ById(b.nodes), wants, o.made, o.byPath, o.pool, o.session, digest, maxFields)
    requires |wants| == |o.made| && pending == Pending(wants, o.made) && byName == ByName(wants, o.made)
    modifies b
    ensures b.Valid() && Faithful(ById(b.nodes), wants, o, digest, maxFields) && |b.nodes| == old(|b.nodes|)
  {
    hide Holding, ById, WellListed, Accounts, Rows, OnlyExpected, Opened, KeysLead, Rerouted, ByName, Pending, PendingExact, Distinct;
    ghost var m := ById(b.nodes);
    HoldingAll(m, wants, o.made, o.byPath, o.pool, o.session, digest, maxFields);
    RowsAnyNames(m, wants, o.made, byName, maxFields);
    PendingIsExact(wants, o.made);
    RoutePending(b, pending, byName, maxFields, wants, o.made);
    ReroutedStill(m, ById(b.nodes), wants, o.made, o.byPath, o.pool, o.session, digest);
  }

  lemma NothingYet(digest: Digest, maxFields: nat)
    ensures ById([]) == map[] && AccountsIn(map[]) == map[] && NEW_SESSION.pools[0] == Pool(map[], map[]) && |NEW_SESSION.calls| == 0
    ensures Holding(map[], [], [], map[], None, NEW_SESSION, digest, maxFields)
    ensures FolderKeys([]) == {} && NodesNeeded([], digest) == 0
  {
    StartHolding(digest, maxFields);
  }

  lemma HoldingAll(m: Catalogue, wants: seq<Wanted>, made: seq<NodeId>, byPath: map<string, NodeId>, pool: Option<NodeId>,
                   s: Session, digest: Digest, maxFields: nat)
    requires Holding(m, wants, made, byPath, pool, s, digest, maxFields)
    ensures KeysLead(byPath, m) && Rows(m, wants, made, {}, map[], maxFields) && OnlyExpected(m, wants, made, byPath, pool) && Opened(m, wants, s, digest, pool)
    ensures Distinct(made)
  {
  }
}
