/** What a CSV preview holds, and that each step of the import keeps it so (crates/remoter-import/src/csv.rs:81-289). */
module CsvImport {
  import opened Base
  import opened Inheritance
  import opened Nodes
  import opened Text
  import opened Validation
  import opened Mapping
  import opened Previews
  import opened Interning
  import opened CredentialPools
  import opened CsvText
  import opened CsvRows
  import opened CsvFolders

  const POOL_NAME := "Imported credentials"

  // What the file asks for.

  /** What the usable rows ask for, in order. */
  function Wants(cells: seq<string>, rows: seq<seq<string>>, maxFields: nat): seq<Wanted> {
    if rows == [] then []
    else
      var w := Want(cells, HeaderOf(cells), rows[|rows| - 1], maxFields);
      Wants(cells, rows[..|rows| - 1], maxFields) + if w.Some? then [w.value] else []
  }

  /** The accounts the rows ask for, in order, and the names of the rows that ask. */
  function Calls(wants: seq<Wanted>): seq<Identity> {
    if wants == [] then []
    else Calls(wants[..|wants| - 1]) + if wants[|wants| - 1].account.Some? then [wants[|wants| - 1].account.value] else []
  }

  function Callers(wants: seq<Wanted>): (r: seq<string>)
    ensures |r| == |Calls(wants)|
  {
    if wants == [] then []
    else Callers(wants[..|wants| - 1]) + if wants[|wants| - 1].account.Some? then [wants[|wants| - 1].name] else []
  }

  /** The connection a name means: the last row that has it. */
  function ByName(wants: seq<Wanted>, made: seq<NodeId>): map<string, NodeId>
    requires |wants| == |made|
  {
    if wants == [] then map[]
    else
      var last := |wants| - 1;
      ByName(wants[..last], made[..last])[wants[last].name := made[last]]
  }

  function RouteOf(w: Wanted, id: NodeId, byName: map<string, NodeId>): Option<seq<NodeId>> {
    var hops := Hops(w.gateway, byName);
    if w.gateway != "" && hops.Some? && Usable(hops.value, id) then hops else None
  }

  function Chain(hops: seq<NodeId>): seq<GatewayHop> {
    MapSeq(hops, h => GatewayHop(Live(h), None))
  }

  /** The gateway of a row's connection: the route its cell names, if the whole of it resolves. */
  function GatewayFor(w: Wanted, id: NodeId, byName: map<string, NodeId>): Inherited<seq<GatewayHop>> {
    var route := RouteOf(w, id, byName);
    if route.Some? then Explicit(Chain(route.value)) else Inherit
  }

  /** The custom fields of a row's connection: a route that does not resolve is kept as text. */
  function FieldsFor(w: Wanted, id: NodeId, byName: map<string, NodeId>, maxFields: nat): map<string, string> {
    var key := CustomKey("csv", "gateway");
    if w.gateway == "" || RouteOf(w, id, byName).Some? || key.None? then w.customFields
    else Preserved(w.customFields, key.value, w.gateway, maxFields)
  }

  function RowNode(w: Wanted, id: NodeId, parent: Option<NodeId>, order: nat, credential: Inherited<NodeRef>,
                   gateway: Inherited<seq<GatewayHop>>, fields: map<string, string>): PreviewNode {
    PreviewNode(id, parent, order, w.name, w.description, w.tags, fields,
                PreviewConnection(w.protocol, w.host, PLAIN.(port := w.port, credential := credential, gateway := gateway)))
  }

  // What the preview holds.

  /** The credential of a row: none, or a live reference to a node that holds exactly its account. */
  ghost predicate Credited(m: Catalogue, account: Option<Identity>, credential: Inherited<NodeRef>) {
    if account.None? then credential == Inherit
    else
      && credential.Explicit? && credential.value.Live? && credential.value.id in m
      && m[credential.value.id].kind == AccountFor(account.value)
  }

  /** A row's connection says what the row says, where the row says. */
  ghost predicate Row(m: Catalogue, w: Wanted, id: NodeId, order: nat, gateway: Inherited<seq<GatewayHop>>, fields: map<string, string>) {
    && id in m && m[id].kind.PreviewConnection?
    && m[id] == RowNode(w, id, m[id].parentId, order, m[id].kind.fields.credential, gateway, fields)
    && Leads(m, w.path, m[id].parentId)
    && Credited(m, w.account, m[id].kind.fields.credential)
  }

  /** Each usable row has its own connection; those in `routed` have been through the second pass. */
  ghost predicate Rows(m: Catalogue, wants: seq<Wanted>, made: seq<NodeId>, routed: set<NodeId>, byName: map<string, NodeId>, maxFields: nat) {
    && |made| == |wants| && Distinct(made)
    && forall k :: 0 <= k < |wants| ==> RowAt(m, wants, made, routed, byName, maxFields, k)
  }

  ghost predicate RowAt(m: Catalogue, wants: seq<Wanted>, made: seq<NodeId>, routed: set<NodeId>, byName: map<string, NodeId>, maxFields: nat, k: nat)
    requires k < |wants| == |made|
  {
    if made[k] in routed
    then Row(m, wants[k], made[k], k, GatewayFor(wants[k], made[k], byName), FieldsFor(wants[k], made[k], byName, maxFields))
    else Row(m, wants[k], made[k], k, Inherit, wants[k].customFields)
  }

  /** A folder is a step of some row's path, remembered under that path. */
  ghost predicate StepOf(wants: seq<Wanted>, byPath: map<string, NodeId>, id: NodeId) {
    exists k, n :: 0 <= k < |wants| && 0 < n <= |wants[k].path|
                   && PrefixOf(wants[k].path[..n]) in byPath && byPath[PrefixOf(wants[k].path[..n])] == id
  }

  /** Nothing is in the preview that no row asked for. */
  ghost predicate Expected(m: Catalogue, wants: seq<Wanted>, made: seq<NodeId>, byPath: map<string, NodeId>, pool: Option<NodeId>, id: NodeId)
    requires id in m
  {
    match m[id].kind
    case PreviewConnection(_, _, _) => id in made
    case PreviewAccount(_) => true
    case PreviewFolder(_) =>
      (pool == Some(id) && IsFolder(m, id, POOL_NAME)) || (PlainFolder(m[id]) && StepOf(wants, byPath, id))
  }

  ghost predicate OnlyExpected(m: Catalogue, wants: seq<Wanted>, made: seq<NodeId>, byPath: map<string, NodeId>, pool: Option<NodeId>) {
    && (forall id :: id in m ==> m[id].id == id)
    && (forall id :: id in m ==> Expected(m, wants, made, byPath, pool, id))
  }

  /** The node made for call j. */
  ghost predicate AccountAt(m: Catalogue, id: NodeId, source: string, who: Identity, pool: Option<NodeId>) {
    && pool.Some? && id in m
    && m[id] == Plainly(id, CredentialName(source, who.username, who.domain), AccountFor(who), pool, m[id].sortOrder)
  }

  /** The pool was asked for the rows' accounts, and each call that made a credential has it in the pool's folder. */
  ghost predicate Opened(m: Catalogue, wants: seq<Wanted>, s: Session, digest: Digest, pool: Option<NodeId>) {
    && Ran(s, digest) && s.calls == Calls(wants) && s.pools[|s.calls|].made == AccountsIn(m)
    && (pool.Some? ==> IsFolder(m, pool.value, POOL_NAME))
    && forall j :: 0 <= j < |s.calls| && Opens(s.calls, digest, j) ==> AccountAt(m, s.got[j], Callers(wants)[j], s.calls[j], pool)
  }

  // Growing the catalogue keeps all of it.

  lemma {:induction false} RowStill(m: Catalogue, n: Catalogue, w: Wanted, id: NodeId, order: nat, gateway: Inherited<seq<GatewayHop>>, fields: map<string, string>)
    requires Row(m, w, id, order, gateway, fields) && Same(m, n)
    ensures Row(n, w, id, order, gateway, fields)
  {
    SameIsGrown(m, n);
    LeadsStill(m, n, w.path, m[id].parentId);
  }

  lemma {:induction false} RowsStill(m: Catalogue, n: Catalogue, wants: seq<Wanted>, made: seq<NodeId>, routed: set<NodeId>, byName: map<string, NodeId>, maxFields: nat)
    requires Rows(m, wants, made, routed, byName, maxFields) && Same(m, n)
    ensures Rows(n, wants, made, routed, byName, maxFields)
  {
    hide Row, Same, Distinct, GatewayFor, FieldsFor;
    forall k | 0 <= k < |wants| ensures RowAt(n, wants, made, routed, byName, maxFields, k) {
      assert RowAt(m, wants, made, routed, byName, maxFields, k);
      if made[k] in routed {
        RowStill(m, n, wants[k], made[k], k, GatewayFor(wants[k], made[k], byName), FieldsFor(wants[k], made[k], byName, maxFields));
      } else {
        RowStill(m, n, wants[k], made[k], k, Inherit, wants[k].customFields);
      }
    }
  }

  lemma {:induction false} OpenedStill(m: Catalogue, n: Catalogue, wants: seq<Wanted>, s: Session, digest: Digest, pool: Option<NodeId>)
    requires Opened(m, wants, s, digest, pool) && Same(m, n) && AccountsIn(n) == AccountsIn(m)
    ensures Opened(n, wants, s, digest, pool)
  {
    hide Opens, AccountsIn, Ran, CredentialName;
  }

  // A row's path.

  lemma {:induction false} StepOfStill(wants: seq<Wanted>, w: Wanted, was: map<string, NodeId>, byPath: map<string, NodeId>, id: NodeId)
    requires StepOf(wants, was, id) && Extends(was, byPath)
    ensures StepOf(wants + [w], byPath, id)
  {
    hide PrefixOf;
    var k, n :| 0 <= k < |wants| && 0 < n <= |wants[k].path|
                && PrefixOf(wants[k].path[..n]) in was && was[PrefixOf(wants[k].path[..n])] == id;
    assert (wants + [w])[k] == wants[k];
  }

  lemma {:induction false} StepOfLast(wants: seq<Wanted>, w: Wanted, byPath: map<string, NodeId>, n: nat)
    requires 0 < n <= |w.path| && PrefixOf(w.path[..n]) in byPath
    ensures StepOf(wants + [w], byPath, byPath[PrefixOf(w.path[..n])])
  {
    hide PrefixOf;
    assert (wants + [w])[|wants|] == w;
  }

  /** Creating a row's folders adds nothing but steps of its path. */
  lemma {:induction false} PathExpected(m: Catalogue, n: Catalogue, wants: seq<Wanted>, made: seq<NodeId>, was: map<string, NodeId>,
                                        byPath: map<string, NodeId>, pool: Option<NodeId>, w: Wanted, parent: Option<NodeId>)
    requires OnlyExpected(m, wants, made, was, pool) && Along(m, n, was, byPath, w.path, parent)
    requires forall id :: id in n ==> n[id].id == id
    ensures OnlyExpected(n, wants + [w], made, byPath, pool) && AccountsIn(n) == AccountsIn(m)
  {
    hide StepOf, PrefixOf, KeysLead, Leads, CleanPath, Extends, ValidateName;
    forall id | id in n ensures Expected(n, wants + [w], made, byPath, pool, id) {
      if id in m {
        assert Expected(m, wants, made, was, pool, id);
        if StepOf(wants, was, id) {
          StepOfStill(wants, w, was, byPath, id);
        }
      } else {
        var k :| 0 < k <= |w.path| && PrefixOf(w.path[..k]) in byPath && byPath[PrefixOf(w.path[..k])] == id;
        StepOfLast(wants, w, byPath, k);
      }
    }
  }

  // A row's account.

  lemma CallsSnoc(wants: seq<Wanted>, w: Wanted)
    ensures w.account.None? ==> Calls(wants + [w]) == Calls(wants) && Callers(wants + [w]) == Callers(wants)
    ensures w.account.Some? ==> Calls(wants + [w]) == Calls(wants) + [w.account.value] && Callers(wants + [w]) == Callers(wants) + [w.name]
  {
    assert (wants + [w])[..|wants|] == wants;
  }

  lemma {:induction false} OpenedUnasked(m: Catalogue, wants: seq<Wanted>, w: Wanted, s: Session, digest: Digest, pool: Option<NodeId>)
    requires Opened(m, wants, s, digest, pool) && w.account.None?
    ensures Opened(m, wants + [w], s, digest, pool)
  {
    hide AccountAt, Ran, AccountsIn, Opens, Calls, Callers;
    CallsSnoc(wants, w);
  }

  lemma AccountKind(m: Catalogue, id: NodeId, who: Identity)
    requires id in AccountsIn(m) && AccountsIn(m)[id] == who
    ensures id in m && m[id].kind == AccountFor(who)
  {
  }

  /** The pool answered a call: by a credential it had, or by one it has just made. */
  lemma {:induction false} OpenedAsked(m: Catalogue, n: Catalogue, wants: seq<Wanted>, w: Wanted, s: Session, digest: Digest,
                                       pool: Option<NodeId>, after: Option<NodeId>, id: NodeId)
    requires Opened(m, wants, s, digest, pool) && w.account.Some? && Same(m, n) && (pool.Some? ==> after == pool)
    requires after.Some? ==> IsFolder(n, after.value, POOL_NAME)
    requires var t := Extended(s, w.account.value, digest, id);
             Ran(t, digest) && t.got[|s.calls|] == id && t.pools[|s.calls| + 1].made == AccountsIn(n)
    requires !Hit(s.pools[|s.calls|], w.account.value, digest) ==> AccountAt(n, id, w.name, w.account.value, after)
    ensures Opened(n, wants + [w], Extended(s, w.account.value, digest, id), digest, after)
    ensures Credited(n, w.account, Explicit(Live(id)))
  {
    hide Ran, AccountsIn, Opens, Calls, Callers, Hit, Interned, AfterIntern, CredentialName, IsFolder;
    var who := w.account.value;
    SessionShape(s, digest);
    var t := Extended(s, who, digest, id);
    CallsSnoc(wants, w);
    assert t.calls[|s.calls|] == who && t.pools[|s.calls|] == s.pools[|s.calls|];
    LastAnswer(t, digest);
    AccountKind(n, id, who);
    forall j | 0 <= j < |t.calls| && Opens(t.calls, digest, j)
      ensures AccountAt(n, t.got[j], Callers(wants + [w])[j], t.calls[j], after)
    {
      if j < |s.calls| {
        OpensPrefix(s.calls, who, digest, j);
        assert AccountAt(m, s.got[j], Callers(wants)[j], s.calls[j], pool);
      }
    }
  }

  lemma SessionShape(s: Session, digest: Digest)
    requires Ran(s, digest)
    ensures |s.got| == |s.calls| && |s.pools| == |s.calls| + 1
  {
  }

  /** The pool adds its folder and a credential, and nothing else. */
  lemma {:induction false} AddedExpected(m: Catalogue, n: Catalogue, wants: seq<Wanted>, made: seq<NodeId>, byPath: map<string, NodeId>,
                                         pool: Option<NodeId>, after: Option<NodeId>)
    requires OnlyExpected(m, wants, made, byPath, pool) && Same(m, n) && (pool.Some? ==> after == pool)
    requires forall id :: id in n ==> n[id].id == id
    requires forall id :: id in n && id !in m ==> n[id].kind.PreviewAccount? || (after == Some(id) && IsFolder(n, id, POOL_NAME))
    ensures OnlyExpected(n, wants, made, byPath, after)
  {
    hide StepOf, PlainFolder;
    forall id | id in n ensures Expected(n, wants, made, byPath, after, id) {
      if id in m {
        assert Expected(m, wants, made, byPath, pool, id);
      }
    }
  }

  // A row's connection.

  lemma {:induction false} RowPushed(m: Catalogue, wants: seq<Wanted>, made: seq<NodeId>, byPath: map<string, NodeId>, pool: Option<NodeId>,
                                     w: Wanted, id: NodeId, parent: Option<NodeId>, credential: Inherited<NodeRef>, maxFields: nat)
    requires Rows(m, wants, made, {}, map[], maxFields) && OnlyExpected(m, wants + [w], made, byPath, pool)
    requires id !in m && Leads(m, w.path, parent) && Credited(m, w.account, credential)
    ensures var n := m[id := RowNode(w, id, parent, |wants|, credential, Inherit, w.customFields)];
            && Rows(n, wants + [w], made + [id], {}, map[], maxFields)
            && OnlyExpected(n, wants + [w], made + [id], byPath, pool)
            && AccountsIn(n) == AccountsIn(m) && Same(m, n)
  {
    hide StepOf, PlainFolder, GatewayFor, FieldsFor, Leads;
    var p := RowNode(w, id, parent, |wants|, credential, Inherit, w.customFields);
    var n := m[id := p];
    assert Same(m, n);
    RowsStill(m, n, wants, made, {}, map[], maxFields);
    SameIsGrown(m, n);
    LeadsStill(m, n, w.path, parent);
    assert Row(n, w, id, |wants|, Inherit, w.customFields);
    forall k | 0 <= k < |wants + [w]| ensures RowAt(n, wants + [w], made + [id], {}, map[], maxFields, k) {
      assert k < |wants| ==> RowAt(n, wants, made, {}, map[], maxFields, k);
    }
    assert id !in made by {
      MadeAreNodes(m, wants, made, maxFields);
    }
    forall x | x in n ensures Expected(n, wants + [w], made + [id], byPath, pool, x) {
      assert x != id ==> Expected(m, wants + [w], made, byPath, pool, x);
    }
  }

  lemma MadeAreNodes(m: Catalogue, wants: seq<Wanted>, made: seq<NodeId>, maxFields: nat)
    requires Rows(m, wants, made, {}, map[], maxFields)
    ensures forall x :: x in made ==> x in m
  {
    hide Leads, Credited, RowNode;
    forall k | 0 <= k < |made| ensures made[k] in m {
      assert RowAt(m, wants, made, {}, map[], maxFields, k);
    }
  }

  // The first pass.

  /** What the preview holds once the rows behind `wants` are in. */
  ghost predicate Holding(m: Catalogue, wants: seq<Wanted>, made: seq<NodeId>, byPath: map<string, NodeId>, pool: Option<NodeId>,
                          s: Session, digest: Digest, maxFields: nat) {
    && KeysLead(byPath, m) && Rows(m, wants, made, {}, map[], maxFields)
    && OnlyExpected(m, wants, made, byPath, pool) && Opened(m, wants, s, digest, pool)
  }

  /** The same while row w is being added: its folders are there, and the pool has been asked for `asked`. */
  ghost predicate Adding(m: Catalogue, wants: seq<Wanted>, w: Wanted, asked: seq<Wanted>, made: seq<NodeId>, byPath: map<string, NodeId>,
                         parent: Option<NodeId>, pool: Option<NodeId>, s: Session, digest: Digest, maxFields: nat) {
    && KeysLead(byPath, m) && Rows(m, wants, made, {}, map[], maxFields) && Leads(m, w.path, parent)
    && OnlyExpected(m, wants + [w], made, byPath, pool) && Opened(m, asked, s, digest, pool)
  }

  lemma {:induction false} PathAdded(m: Catalogue, n: Catalogue, wants: seq<Wanted>, w: Wanted, made: seq<NodeId>, was: map<string, NodeId>,
                                     byPath: map<string, NodeId>, parent: Option<NodeId>, pool: Option<NodeId>, s: Session, digest: Digest, maxFields: nat)
    requires Holding(m, wants, made, was, pool, s, digest, maxFields) && Along(m, n, was, byPath, w.path, parent)
    requires forall id :: id in n ==> n[id].id == id
    ensures Adding(n, wants, w, wants, made, byPath, parent, pool, s, digest, maxFields)
    ensures AccountsIn(n) == AccountsIn(m) && Same(m, n)
    ensures parent.Some? ==> parent.value in n
  {
    hide Rows, OnlyExpected, Opened, KeysLead, OnlySteps, Same, CleanPath, Extends, AccountsIn;
    PathExpected(m, n, wants, made, was, byPath, pool, w, parent);
    RowsStill(m, n, wants, made, {}, map[], maxFields);
    OpenedStill(m, n, wants, s, digest, pool);
  }

  lemma {:induction false} PoolUnasked(m: Catalogue, wants: seq<Wanted>, w: Wanted, made: seq<NodeId>, byPath: map<string, NodeId>,
                                   parent: Option<NodeId>, pool: Option<NodeId>, s: Session, digest: Digest, maxFields: nat)
    requires Adding(m, wants, w, wants, made, byPath, parent, pool, s, digest, maxFields) && w.account.None?
    ensures Adding(m, wants, w, wants + [w], made, byPath, parent, pool, s, digest, maxFields)
  {
    hide Rows, OnlyExpected, Opened, KeysLead, Leads;
    OpenedUnasked(m, wants, w, s, digest, pool);
  }

  /** The catalogue has grown by what the pool may add, and on a miss it holds the new credential. */
  ghost predicate Answered(m: Catalogue, n: Catalogue, w: Wanted, folder: Option<NodeId>, now: Option<NodeId>, hit: bool, id: NodeId)
    requires w.account.Some?
  {
    && Same(m, n) && (folder.Some? ==> now == folder) && (forall x :: x in n ==> n[x].id == x)
    && (forall x :: x in n && x !in m ==> n[x].kind.PreviewAccount? || (now == Some(x) && IsFolder(n, x, POOL_NAME)))
    && (!hit ==> AccountAt(n, id, w.name, w.account.value, now))
  }

  lemma {:induction false} PoolAsked(m: Catalogue, n: Catalogue, wants: seq<Wanted>, w: Wanted, made: seq<NodeId>, byPath: map<string, NodeId>,
                                 parent: Option<NodeId>, pool: Option<NodeId>, after: Option<NodeId>, s: Session, digest: Digest, maxFields: nat, id: NodeId)
    requires Adding(m, wants, w, wants, made, byPath, parent, pool, s, digest, maxFields)
    requires w.account.Some? && |s.pools| == |s.calls| + 1
    requires Answered(m, n, w, pool, after, Hit(s.pools[|s.calls|], w.account.value, digest), id)
    requires after.Some? ==> IsFolder(n, after.value, POOL_NAME)
    requires var t := Extended(s, w.account.value, digest, id);
             Ran(t, digest) && Ran(s, digest) && |t.got| == |s.calls| + 1 && t.got[|s.calls|] == id
             && |t.pools| == |s.calls| + 2 && t.pools[|s.calls| + 1].made == AccountsIn(n)
    ensures Adding(n, wants, w, wants + [w], made, byPath, parent, after, Extended(s, w.account.value, digest, id), digest, maxFields)
    ensures Credited(n, w.account, Explicit(Live(id))) && Same(m, n)
  {
    hide Rows, OnlyExpected, Opened, KeysLead, Leads, Same, Ran, AccountsIn, Hit, Extended, AccountAt, IsFolder, Credited;
    OpenedAsked(m, n, wants, w, s, digest, pool, after, id);
    AddedExpected(m, n, wants + [w], made, byPath, pool, after);
    RowsStill(m, n, wants, made, {}, map[], maxFields);
    SameIsGrown(m, n);
    LeadsStill(m, n, w.path, parent);
    KeysStillLead(byPath, m, n);
  }

  lemma {:induction false} RowAdded(m: Catalogue, wants: seq<Wanted>, w: Wanted, made: seq<NodeId>, byPath: map<string, NodeId>, parent: Option<NodeId>,
                                    pool: Option<NodeId>, s: Session, digest: Digest, maxFields: nat, id: NodeId, credential: Inherited<NodeRef>)
    requires Adding(m, wants, w, wants + [w], made, byPath, parent, pool, s, digest, maxFields)
    requires id !in m && Credited(m, w.account, credential)
    ensures var n := m[id := RowNode(w, id, parent, |wants|, credential, Inherit, w.customFields)];
            && Holding(n, wants + [w], made + [id], byPath, pool, s, digest, maxFields)
            && AccountsIn(n) == AccountsIn(m) && Same(m, n)
  {
    hide Rows, OnlyExpected, Opened, KeysLead, Leads, Same, AccountsIn, RowNode, Credited;
    var n := m[id := RowNode(w, id, parent, |wants|, credential, Inherit, w.customFields)];
    RowPushed(m, wants, made, byPath, pool, w, id, parent, credential, maxFields);
    SameIsGrown(m, n);
    KeysStillLead(byPath, m, n);
    OpenedStill(m, n, wants + [w], s, digest, pool);
  }

  /** Why a row stops the import. */
  ghost predicate RowFault(w: Wanted, limits: Limits, e: ImportError) {
    match e
    case TooDeep => |w.path| > limits.maxDepth
    case Rejected(fault) => w.account.Some? && IdentityFault(w.account.value) == Some(fault)
    case _ => false
  }

  /** The keys of every folder the rows name. */
  function FolderKeys(wants: seq<Wanted>): set<string> {
    if wants == [] then {} else FolderKeys(wants[..|wants| - 1]) + PrefixKeys(wants[|wants| - 1].path)
  }

  /** The nodes the pool makes for these accounts: a credential for each call that opens one, and one folder for them all. */
  function PoolNodes(calls: seq<Identity>, digest: Digest): nat {
    if calls == [] then 0 else 1 + Openings(calls, digest, |calls|)
  }

  /** The size of the preview: the distinct folders, a connection for each row, and what the pool makes. */
  function NodesNeeded(wants: seq<Wanted>, digest: Digest): nat {
    |FolderKeys(wants)| + |wants| + PoolNodes(Calls(wants), digest)
  }

  /** What the pool adds for a row. */
  function PoolGrowth(calls: seq<Identity>, w: Wanted, digest: Digest): nat {
    if w.account.None? then 0
    else (if calls == [] then 1 else 0) + if Opens(calls + [w.account.value], digest, |calls|) then 1 else 0
  }

  lemma {:induction false} NeededNext(wants: seq<Wanted>, w: Wanted, digest: Digest)
    ensures FolderKeys(wants + [w]) == FolderKeys(wants) + PrefixKeys(w.path)
    ensures NodesNeeded(wants + [w], digest)
            == NodesNeeded(wants, digest) + MissingKeys(w.path, FolderKeys(wants)) + PoolGrowth(Calls(wants), w, digest) + 1
  {
    hide PrefixKeys, Opens, Openings, Calls;
    assert (wants + [w])[..|wants|] == wants;
    var keys, more := FolderKeys(wants), PrefixKeys(w.path);
    assert keys + more == keys + (more - keys);
    assert |keys + (more - keys)| == |keys| + |more - keys|;
    CallsSnoc(wants, w);
    if w.account.Some? {
      PoolNodesNext(Calls(wants), w, digest);
    }
  }

  lemma {:induction false} PoolNodesNext(calls: seq<Identity>, w: Wanted, digest: Digest)
    requires w.account.Some?
    ensures PoolNodes(calls + [w.account.value], digest) == PoolNodes(calls, digest) + PoolGrowth(calls, w, digest)
  {
    hide Opens;
    OpeningsPrefix(calls, w.account.value, digest, |calls|);
  }

  /** More rows need no fewer nodes. */
  lemma {:induction false} NeededGrows(part: seq<Wanted>, all: seq<Wanted>, digest: Digest)
    requires part <= all
    ensures NodesNeeded(part, digest) <= NodesNeeded(all, digest)
    decreases |all|
  {
    hide NodesNeeded, FolderKeys, MissingKeys, PoolGrowth;
    var last := |all| - 1;
    if |part| < |all| {
      NeededGrows(part, all[..last], digest);
      NeededNext(all[..last], all[last], digest);
      assert all == all[..last] + [all[last]];
    } else {
      assert part == all;
    }
  }

  ghost predicate RowFits(w: Wanted, limits: Limits) {
    |w.path| <= limits.maxDepth && (w.account.Some? ==> IdentityFault(w.account.value).None?)
  }

  ghost predicate InStep(b: PreviewBuilder, pool: CredentialPool, folders: Folders, wants: seq<Wanted>, made: seq<NodeId>, maxFields: nat)
    reads b, pool, folders
  {
    && pool.Valid(b) && pool.folderName == POOL_NAME
    && folders.byPath.Keys == FolderKeys(wants) && |b.nodes| == NodesNeeded(wants, pool.digest)
    && Holding(ById(b.nodes), wants, made, folders.byPath, pool.folder, pool.session, pool.digest, maxFields)
  }

  /** Asks the pool for a row's account, if it has one. */
  method Credit(b: PreviewBuilder, pool: CredentialPool, w: Wanted, ghost wants: seq<Wanted>, ghost made: seq<NodeId>,
                ghost byPath: map<string, NodeId>, ghost parent: Option<NodeId>, ghost maxFields: nat)
    returns (r: Result<Inherited<NodeRef>, ImportError>)
    requires pool.Valid(b) && pool.folderName == POOL_NAME && (w.account.Some? ==> WellNamed(w.account.value.protocols))
    requires Adding(ById(b.nodes), wants, w, wants, made, byPath, parent, pool.folder, pool.session, pool.digest, maxFields)
    modifies b, pool
    ensures b.Valid()
    ensures r.Ok? ==>
              && pool.Valid(b) && Same(old(ById(b.nodes)), ById(b.nodes)) && Credited(ById(b.nodes), w.account, r.value)
              && Adding(ById(b.nodes), wants, w, wants + [w], made, byPath, parent, pool.folder, pool.session, pool.digest, maxFields)
              && (w.account.Some? ==> IdentityFault(w.account.value).None?)
    ensures r.Ok? ==> |b.nodes| == old(|b.nodes|) + PoolGrowth(Calls(wants), w, pool.digest)
    ensures r == Err(TooManyNodes) ==> b.maxNodes < old(|b.nodes|) + PoolGrowth(Calls(wants), w, pool.digest)
    ensures r.Err? ==> r == Err(TooManyNodes) || (w.account.Some? && r.error.Rejected? && IdentityFault(w.account.value) == Some(r.error.error))
  {
    hide Adding, ById, WellListed, Accounts, AccountsIn, Hit, Extended, IdentityFault, WellNamed, Ran, Credited, IsFolder, Calls, PoolGrowth, Same, Answered;
    ghost var m, s, folder := ById(b.nodes), pool.session, pool.folder;
    if w.account.None? {
      NoGrowth(Calls(wants), w, pool.digest);
      PoolUnasked(m, wants, w, made, byPath, parent, pool.folder, s, pool.digest, maxFields);
      NotCredited(m, w);
      return Ok(Inherit);
    }
    AddingAsked(m, wants, w, made, byPath, parent, folder, s, pool.digest, maxFields);
    var got := Ask(b, pool, w);
    if got.Err? {
      return Err(got.error);
    }
    SessionShape(s, pool.digest);
    ExtendedShape(s, w.account.value, pool.digest, got.value.id);
    PoolAsked(m, ById(b.nodes), wants, w, made, byPath, parent, folder, pool.folder, s, pool.digest, maxFields, got.value.id);
    return Ok(Explicit(got.value));
  }

  /** The pool's answer, as the catalogue shows it. */
  method Ask(b: PreviewBuilder, pool: CredentialPool, w: Wanted) returns (r: Result<NodeRef, ImportError>)
    requires pool.Valid(b) && pool.folderName == POOL_NAME && w.account.Some? && WellNamed(w.account.value.protocols)
    modifies b, pool
    ensures b.Valid()
    ensures r.Ok? ==>
              && pool.Valid(b) && r.value.Live? && IdentityFault(w.account.value).None?
              && pool.session.got != [] && pool.session == Extended(old(pool.session), w.account.value, pool.digest, r.value.id)
              && pool.session.got[|pool.session.got| - 1] == r.value.id
              && |b.nodes| == old(|b.nodes|) + PoolGrowth(old(pool.session).calls, w, pool.digest)
              && Answered(old(ById(b.nodes)), ById(b.nodes), w, old(pool.folder), pool.folder,
                          old(Hit(Pool(pool.index, AccountsIn(ById(b.nodes))), w.account.value, pool.digest)), r.value.id)
    ensures r == Err(TooManyNodes) ==> b.maxNodes < old(|b.nodes|) + PoolGrowth(old(pool.session).calls, w, pool.digest)
    ensures r.Err? ==> r == Err(TooManyNodes) || (r.error.Rejected? && IdentityFault(w.account.value) == Some(r.error.error))
  {
    hide ById, WellListed, Accounts, AccountsIn, Hit, Extended, Added, IdentityFault, WellNamed, Ran, IsFolder, PoolGrowth, Answered;
    ghost var folder, order, nextId := pool.folder, pool.nextSort, b.nextId;
    ghost var hit := Hit(Pool(pool.index, AccountsIn(ById(b.nodes))), w.account.value, pool.digest);
    GrowthIs(pool.session, w, pool.digest, folder);
    r := pool.Intern(b, w.name, w.account.value);
    if r.Ok? {
      ByIdMembers(b.nodes);
      AddedNodes(old(b.nodes), b.nodes, hit, folder, pool.folder, w, order, nextId);
      AnsweredBy(old(ById(b.nodes)), b.nodes, w, folder, pool.folder, hit, r.value.id);
    }
  }

  lemma AnsweredBy(m: Catalogue, nodes: seq<PreviewNode>, w: Wanted, folder: Option<NodeId>, now: Option<NodeId>, hit: bool, id: NodeId)
    requires w.account.Some? && Same(m, ById(nodes)) && (folder.Some? ==> now == folder)
    requires forall x :: x in ById(nodes) ==> ById(nodes)[x].id == x
    requires forall x :: x in ById(nodes) && x !in m ==> ById(nodes)[x].kind.PreviewAccount? || (now == Some(x) && IsFolder(ById(nodes), x, POOL_NAME))
    requires !hit ==> nodes != [] && nodes[|nodes| - 1].id == id && AccountAt(ById(nodes), id, w.name, w.account.value, now)
    ensures Answered(m, ById(nodes), w, folder, now, hit, id)
  {
    hide ById, IsFolder, AccountAt;
  }

  lemma NoGrowth(calls: seq<Identity>, w: Wanted, digest: Digest)
    requires w.account.None?
    ensures PoolGrowth(calls, w, digest) == 0
  {
  }

  /** A hit adds nothing, a miss a credential, and the first call the folder as well. */
  lemma {:induction false} GrowthIs(s: Session, w: Wanted, digest: Digest, folder: Option<NodeId>)
    requires Ran(s, digest) && w.account.Some? && WellNamed(w.account.value.protocols) && (folder.Some? <==> s.calls != [])
    ensures |s.pools| == |s.calls| + 1
    ensures PoolGrowth(s.calls, w, digest) == if Hit(s.pools[|s.calls|], w.account.value, digest) then 0 else if folder.Some? then 1 else 2
  {
    hide WellNamed, Hit, KeyOf, Ran;
    HitForetold(s, w.account.value, digest);
  }

  lemma AddingAsked(m: Catalogue, wants: seq<Wanted>, w: Wanted, made: seq<NodeId>, byPath: map<string, NodeId>,
                    parent: Option<NodeId>, pool: Option<NodeId>, s: Session, digest: Digest, maxFields: nat)
    requires Adding(m, wants, w, wants, made, byPath, parent, pool, s, digest, maxFields)
    ensures s.calls == Calls(wants) && Ran(s, digest)
  {
    hide Rows, OnlyExpected, KeysLead, Leads;
  }

  lemma NotCredited(m: Catalogue, w: Wanted)
    requires w.account.None?
    ensures Credited(m, w.account, Inherit) && Same(m, m)
  {
  }

  lemma ExtendedShape(s: Session, who: Identity, digest: Digest, id: NodeId)
    requires |s.got| == |s.calls| && |s.pools| == |s.calls| + 1
    ensures var t := Extended(s, who, digest, id);
            |t.got| == |t.calls| == |s.calls| + 1 && |t.pools| == |s.calls| + 2
  {
  }

  /** What the pool's additions look like from the catalogue. */
  lemma {:induction false} AddedNodes(nodes: seq<PreviewNode>, after: seq<PreviewNode>, hit: bool, folder: Option<NodeId>, now: Option<NodeId>,
                                      w: Wanted, order: nat, nextId: NodeId)
    requires w.account.Some?
    requires hit ==> after == nodes && now == folder
    requires !hit ==>
               && after == nodes + Added(folder, POOL_NAME, w.name, w.account.value, order, nextId)
               && now == Some(if folder.Some? then folder.value else nextId)
    requires forall id :: id in ById(nodes) ==> id < nextId
    ensures var m, n := ById(nodes), ById(after);
            && Same(m, n) && (folder.Some? ==> now == folder)
            && (forall x :: x in n && x !in m ==> n[x].kind.PreviewAccount? || (now == Some(x) && IsFolder(n, x, POOL_NAME)))
            && |after| == |nodes| + (if hit then 0 else if folder.Some? then 1 else 2)
            && (!hit ==> after != [] && AccountAt(n, after[|after| - 1].id, w.name, w.account.value, now))
  {
    hide CredentialName;
    if !hit {
      var name := CredentialName(w.name, w.account.value.username, w.account.value.domain);
      AddedIs(nodes, folder, POOL_NAME, w.name, w.account.value, order, nextId);
      if folder.Some? {
        ByIdAppend(nodes, Plainly(nextId, name, AccountFor(w.account.value), folder, order));
      } else {
        var p := FolderNode(nextId, POOL_NAME);
        ByIdAppend(nodes, p);
        ByIdAppend(nodes + [p], Plainly(nextId + 1, name, AccountFor(w.account.value), Some(nextId), order));
      }
    }
  }
}
