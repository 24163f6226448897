/**
 What the cells of a CSV come to, column by column: each row read against the file, and each previewed node
 against its row (crates/remoter-import/src/csv.rs:81-314, crates/remoter-import/src/mapping.rs:26-119, 281-302).
 */
module CsvMeaning {
  import opened Base
  import opened Inheritance
  import opened Nodes
  import opened Text
  import opened Validation
  import opened Mapping
  import opened Previews
  import opened Interning
  import opened CredentialPools
  import opened CsvText
  import opened CsvRows
  import opened CsvFolders
  import opened CsvImport
  import opened CsvParse

  // One row.

  /** A row with neither a username nor a password has no account; a password makes it a password account, its absence an agent's. */
  ghost predicate SaysAccount(c: RowCells, protocol: string, account: Option<Identity>) {
    if account.None? then c.username == "" && c.password == ""
    else
      && (c.username != "" || c.password != "") && account.value.username == c.username && account.value.protocols == [protocol]
      && (if c.domain == "" then account.value.domain.None? else account.value.domain == Some(c.domain))
      && (if c.password == "" then account.value.secret == Unsealed(Agent(None)) else account.value.secret == Plaintext(c.password))
  }

  /** The tags are the trimmed pieces that are tags at all. */
  lemma {:induction false} TagsExact(pieces: seq<string>)
    ensures forall t :: t in CleanTags(pieces) <==> t != "" && ValidTag(t) && exists i :: 0 <= i < |pieces| && Trim(pieces[i]) == t
  {
    hide ValidTag, Trim;
    if pieces != [] {
      TagsExact(pieces[1..]);
      assert forall i :: 0 < i < |pieces| ==> pieces[1..][i - 1] == pieces[i];
    }
  }

  /** The folders of a path are the cleaned names between its slashes, blank ones left out. */
  lemma {:induction false} PathExact(pieces: seq<string>)
    ensures forall name :: name in CleanPieces(pieces) <==> name != "" && exists i :: 0 <= i < |pieces| && CleanName(pieces[i]) == name
    ensures (forall i :: 0 <= i < |pieces| ==> CleanName(pieces[i]) != "") ==>
              |CleanPieces(pieces)| == |pieces| && forall i :: 0 <= i < |pieces| ==> CleanPieces(pieces)[i] == CleanName(pieces[i])
  {
    hide CleanName;
    if pieces != [] {
      var last := |pieces| - 1;
      PathExact(pieces[..last]);
      assert pieces == pieces[..last] + [pieces[last]];
      assert forall i :: 0 <= i < last ==> pieces[..last][i] == pieces[i];
    }
  }

  /** The port is the number the cell spells, a plus and zeros before it aside, when there is one from 1 to 65535. */
  lemma PortExact(raw: string, digits: string)
    requires Trim(raw) == digits || Trim(raw) == "+" + digits
    requires digits != [] && AllDigits(digits)
    ensures ParsePort(raw) == if 0 < Number(digits) < 0x1_0000 then Some(Number(digits)) else None
  {
    hide Trim, Number;
    assert ("+" + digits)[1..] == digits;
    assert IsDigit(digits[0]);
  }

  lemma {:induction false} NoPort(raw: string)
    requires var t := Trim(raw); t == "" || t == "+" || exists i :: 0 <= i < |t| && !IsDigit(t[i]) && (i > 0 || t[0] != '+')
    ensures ParsePort(raw).None?
  {
    hide Trim, Number;
  }

  /** What a usable row asks for, cell by cell. */
  ghost predicate Says(c: RowCells, fields: map<string, string>, w: Wanted) {
    && w.host == c.host && ValidateHost(c.host).None? && w.gateway == c.gateway && w.customFields == fields
    && w.name == CleanName(if CleanName(c.name) == "" then c.host else c.name)
    && (if c.protocol == "" then w.protocol == "ssh" else w.protocol == Lowercase(c.protocol) && ValidProtocolId(w.protocol))
    && (match w.port case Explicit(p) => ParsePort(c.port) == Some(p) case Inherit => ParsePort(c.port).None? case Default => false)
    && w.path == Segments(c.folder) && SaysAccount(c, w.protocol, w.account)
    && w.description <= c.description && (w.description == c.description || |w.description| == MAX_DESCRIPTION_LEN)
    && |w.description| <= MAX_DESCRIPTION_LEN
    && (forall t :: t in w.tags <==> t != "" && ValidTag(t) && exists i :: 0 <= i < |Split(c.tags, ';')| && Trim(Split(c.tags, ';')[i]) == t)
  }

  /** A row is usable exactly when its host is one and it names a protocol, or none; it then asks for what its cells say. */
  lemma {:induction false} RowSays(c: RowCells, fields: map<string, string>)
    ensures WantFrom(c, fields).Some? <==> ValidateHost(c.host).None? && (c.protocol == "" || ValidProtocolId(Lowercase(c.protocol)))
    ensures WantFrom(c, fields).Some? ==> Says(c, fields, WantFrom(c, fields).value)
  {
    hide ValidateHost, ValidProtocolId, Lowercase, CleanName, Segments, CleanTags, ValidTag, Trim, Split, ParsePort;
    TagsExact(Split(c.tags, ';'));
  }

  /** The cell of a documented column: empty when the column or the cell is missing, trimmed, and without its guard unless it is a password. */
  lemma {:induction false} CellSays(header: seq<string>, row: seq<string>, name: string, i: nat)
    requires Locates(HeaderOf(header).columns, header, |header|)
    ensures i < |header| && ColumnName(header[i]) == name && name != "" ==>
              Field(HeaderOf(header), row, name)
              == (if i >= |row| then "" else if name == "password" then Trim(row[i]) else Unguard(Trim(row[i])))
    ensures (forall j :: 0 <= j < |header| ==> ColumnName(header[j]) != name) ==> Field(HeaderOf(header), row, name) == ""
  {
    hide Trim, Unguard, ColumnName, ColumnsOf, UnknownColumns;
    EmptyCell();
  }

  /** The undocumented columns are the named ones that are not on the list, each once and in order. */
  lemma {:induction false} UnknownExact(cells: seq<string>, k: nat)
    requires k <= |cells|
    ensures forall i :: i in UnknownColumns(cells, k) <==> 0 <= i < k && ColumnName(cells[i]) != "" && ColumnName(cells[i]) !in COLUMNS
  {
    hide ColumnName;
    if k > 0 {
      UnknownExact(cells, k - 1);
      UnknownStep(cells, k);
    }
  }

  lemma UnknownStep(cells: seq<string>, k: nat)
    requires 0 < k <= |cells|
    ensures var before := UnknownColumns(cells, k - 1);
            UnknownColumns(cells, k) == if ColumnName(cells[k - 1]) != "" && ColumnName(cells[k - 1]) !in COLUMNS then before + [k - 1] else before
  {
    hide ColumnName;
  }

  lemma {:induction false} UnknownInOrder(cells: seq<string>, k: nat)
    requires k <= |cells|
    ensures var r := UnknownColumns(cells, k); forall i, j :: 0 <= i < j < |r| ==> r[i] < r[j]
  {
    hide ColumnName;
    if k > 0 {
      UnknownInOrder(cells, k - 1);
      UnknownStep(cells, k);
    }
  }

  /** A cell worth keeping: in a column that makes a key, and not blank. */
  ghost predicate Keepable(cells: seq<string>, row: seq<string>, column: nat, key: string) {
    && column < |cells| && column < |row| && Trim(row[column]) != ""
    && key == "csv." + ColumnName(cells[column]) && ValidKey(key)
  }

  /** Every kept value is that of a keepable cell, and with room for them all every keepable cell's key is kept. */
  lemma {:induction false} KeptExact(cells: seq<string>, unknown: seq<nat>, row: seq<string>, maxFields: nat)
    requires forall i :: 0 <= i < |unknown| ==> unknown[i] < |cells|
    ensures var kept := Kept(cells, unknown, row, maxFields);
            && (forall key :: key in kept ==> exists c :: c in unknown && Keepable(cells, row, c, key) && kept[key] == Trim(row[c]))
            && |kept| <= |unknown|
            && (|unknown| <= maxFields ==> forall c, key :: c in unknown && Keepable(cells, row, c, key) ==> key in kept)
  {
    hide Trim, ColumnName, ValidKey, Keepable;
    if unknown != [] {
      var last := |unknown| - 1;
      var rest, column := unknown[..last], unknown[last];
      KeptExact(cells, rest, row, maxFields);
      assert unknown == rest + [column];
      KeptStep(cells, unknown, row, maxFields);
    }
  }

  lemma KeptStep(cells: seq<string>, unknown: seq<nat>, row: seq<string>, maxFields: nat)
    requires unknown != [] && forall i :: 0 <= i < |unknown| ==> unknown[i] < |cells|
    ensures var last := |unknown| - 1;
            var column, before, after := unknown[last], Kept(cells, unknown[..last], row, maxFields), Kept(cells, unknown, row, maxFields);
            && (forall key :: Keepable(cells, row, column, key) && key !in before && |before| < maxFields ==> after == before[key := Trim(row[column])])
            && ((forall key :: Keepable(cells, row, column, key) ==> key in before || |before| >= maxFields) ==> after == before)
  {
    hide Trim, ColumnName, ValidKey;
    assert "csv" + "." == "csv.";
  }

  // Routes.

  /** A route resolves exactly when each of its names is known, and then leads through them in order. */
  lemma {:induction false} LookupExact(names: seq<string>, byName: map<string, NodeId>)
    ensures Lookup(names, byName).Some? <==> forall i :: 0 <= i < |names| ==> Trim(names[i]) in byName
    ensures Lookup(names, byName).Some? ==>
              |Lookup(names, byName).value| == |names| && forall i :: 0 <= i < |names| ==> Lookup(names, byName).value[i] == byName[Trim(names[i])]
  {
    hide Trim;
    if names != [] {
      LookupExact(names[1..], byName);
      assert forall i :: 0 < i < |names| ==> names[1..][i - 1] == names[i];
    }
  }

  /** A name means the last row that has it. */
  lemma {:induction false} NamesLast(wants: seq<Wanted>, made: seq<NodeId>, name: string)
    requires |wants| == |made|
    ensures name in ByName(wants, made) <==> exists k :: 0 <= k < |wants| && wants[k].name == name
    ensures name in ByName(wants, made) ==>
              exists k :: 0 <= k < |wants| && wants[k].name == name && ByName(wants, made)[name] == made[k]
                          && forall j :: k < j < |wants| ==> wants[j].name != name
  {
    if wants != [] {
      var last := |wants| - 1;
      NamesLast(wants[..last], made[..last], name);
      if wants[last].name == name {
        assert ByName(wants, made)[name] == made[last];
      } else if name in ByName(wants, made) {
        var k :| 0 <= k < last && wants[..last][k].name == name && ByName(wants[..last], made[..last])[name] == made[..last][k]
                 && forall j :: k < j < last ==> wants[..last][j].name != name;
        assert wants[k].name == name && made[..last][k] == made[k];
        forall j | k < j < |wants| ensures wants[j].name != name {
          assert j < last ==> wants[..last][j] == wants[j];
        }
      }
    }
  }

  /** The hops a cell stands for: the connection of that name, or those of the names between `>` signs. */
  ghost predicate Names(cell: string, byName: map<string, NodeId>, hops: seq<NodeId>) {
    if cell in byName then hops == [byName[cell]]
    else
      var names := Split(cell, '>');
      |hops| == |names| && forall i :: 0 <= i < |names| ==> Trim(names[i]) in byName && hops[i] == byName[Trim(names[i])]
  }

  /** A route that can be used: at most eight connections, none twice, and not the connection itself. */
  ghost predicate Passable(hops: seq<NodeId>, connection: NodeId) {
    0 < |hops| <= 8 && Distinct(hops) && connection !in hops
  }

  /**
   A connection's gateway is the passable route its cell names, each hop a live reference without a credential;
   with no such route there is no gateway, and a cell that is not blank is kept as text if there is room.
   */
  ghost predicate Routes(w: Wanted, id: NodeId, byName: map<string, NodeId>, gateway: Inherited<seq<GatewayHop>>, fields: map<string, string>, maxFields: nat) {
    match gateway
    case Explicit(chain) =>
      && w.gateway != "" && fields == w.customFields
      && exists hops :: Names(w.gateway, byName, hops) && Passable(hops, id) && |chain| == |hops|
                        && forall i :: 0 <= i < |hops| ==> chain[i].node == Live(hops[i]) && chain[i].credential.None?
    case Inherit =>
      && (w.gateway != "" ==> !exists hops :: Names(w.gateway, byName, hops) && Passable(hops, id))
      && fields == (if w.gateway == "" || |w.customFields| >= maxFields || "csv.gateway" in w.customFields then w.customFields
                    else w.customFields["csv.gateway" := w.gateway])
    case Default => false
  }

  lemma {:induction false} HopsExact(cell: string, byName: map<string, NodeId>)
    ensures Hops(cell, byName).Some? ==> Names(cell, byName, Hops(cell, byName).value)
    ensures forall hops :: Names(cell, byName, hops) ==> Hops(cell, byName) == Some(hops)
  {
    hide Trim, Split;
    LookupExact(Split(cell, '>'), byName);
    forall hops | Names(cell, byName, hops) ensures Hops(cell, byName) == Some(hops) {
      if cell !in byName {
        assert Lookup(Split(cell, '>'), byName).value == hops;
      }
    }
  }

  lemma GatewayKeyValid()
    ensures "csv" + "." + "gateway" == "csv.gateway" && ValidKey("csv.gateway")
  {
  }

  lemma {:induction false} RouteSays(w: Wanted, id: NodeId, byName: map<string, NodeId>, maxFields: nat)
    ensures Routes(w, id, byName, GatewayFor(w, id, byName), FieldsFor(w, id, byName, maxFields), maxFields)
  {
    hide Hops, Names, ValidKey;
    HopsExact(w.gateway, byName);
    GatewayKeyValid();
    var hops := Hops(w.gateway, byName);
    if hops.Some? {
      assert Usable(hops.value, id) <==> Passable(hops.value, id);
    }
  }

  // Each node of a preview.

  /** What a row's connection says: the row's own values, and nothing it does not say. */
  ghost predicate Tells(m: Catalogue, w: Wanted, p: PreviewNode, order: nat) {
    && p.name == w.name && p.description == w.description && p.tags == w.tags && p.sortOrder == order
    && p.kind.PreviewConnection? && p.kind.protocol == w.protocol && p.kind.host == w.host
    && var f := p.kind.fields;
       && f.port == w.port && f.connectTimeoutMs == Inherit && f.keepaliveSecs == Inherit && f.onConnect == Inherit && f.onDisconnect == Inherit
       && f.recording == Inherit && f.autoReconnect == Inherit && f.settings == map[]
       && match w.account
          case None => f.credential == Inherit
          case Some(who) =>
            && f.credential.Explicit? && f.credential.value.Live? && f.credential.value.id in m
            && m[f.credential.value.id].kind.PreviewAccount?
            && var c := m[f.credential.value.id].kind.credential;
               c.username == who.username && c.domain == who.domain && c.secret == who.secret && c.allowedProtocols == who.protocols
  }

  /** Every usable row has its connection, in order, which tells what the row says and takes the route the row names. */
  lemma {:induction false} PreviewTells(m: Catalogue, wants: seq<Wanted>, o: Origins, digest: Digest, maxFields: nat, k: nat)
    requires Faithful(m, wants, o, digest, maxFields) && k < |wants|
    ensures o.made[k] in m && m[o.made[k]].id == o.made[k] && Distinct(o.made)
    ensures var p := m[o.made[k]];
            && Tells(m, wants[k], p, k) && Leads(m, wants[k].path, p.parentId)
            && Routes(wants[k], p.id, ByName(wants, o.made), p.kind.fields.gateway, p.customFields, maxFields)
  {
    hide KeysLead, OnlyExpected, Opened, GatewayFor, FieldsFor, Routes, Leads, ByName;
    assert RowAt(m, wants, o.made, Elements(o.made), ByName(wants, o.made), maxFields, k);
    assert o.made[k] in Elements(o.made);
    RouteSays(wants[k], o.made[k], ByName(wants, o.made), maxFields);
  }

  // The names of credentials.

  /** A credential is called after its account, after its row when it has none, or by a stock name when neither leaves anything. */
  ghost predicate Called(source: string, username: string, domain: Option<string>, name: string) {
    var account := if username == "" then "" else if domain.Some? && domain.value != "" then domain.value + "\\" + username else username;
    var base := CleanName(if account == "" then CleanName(source) else account);
    if base == "" then name == "Imported credential"
    else if account == "" && (domain.None? || domain.value == "") then name == base + " credentials"
    else name == base
  }

  lemma CredentialIsCalled(source: string, username: string, domain: Option<string>)
    ensures Called(source, username, domain, CredentialName(source, username, domain))
  {
    hide CleanName;
  }

  /** Each call that makes a credential has it in the pool's folder, holding exactly the account that was asked for. */
  lemma {:induction false} AccountsTold(m: Catalogue, wants: seq<Wanted>, o: Origins, digest: Digest, maxFields: nat, j: nat)
    requires Faithful(m, wants, o, digest, maxFields) && j < |Calls(wants)| && Opens(Calls(wants), digest, j)
    ensures j < |o.session.got| && o.session.got[j] in m && o.pool.Some? && o.pool.value in m
    ensures var p, who := m[o.session.got[j]], Calls(wants)[j];
            && p.parentId == o.pool && Called(Callers(wants)[j], who.username, who.domain, p.name)
            && p.description == "" && p.tags == [] && p.customFields == map[] && p.kind.PreviewAccount?
            && p.kind.credential.username == who.username && p.kind.credential.domain == who.domain
            && p.kind.credential.secret == who.secret && p.kind.credential.allowedProtocols == who.protocols
    ensures var f := m[o.pool.value];
            && f.name == "Imported credentials" && f.parentId.None? && f.sortOrder == 0x7FFF_FFFF_FFFF_FFFF
            && f.kind == PreviewFolder(PLAIN) && f.description == "" && f.tags == [] && f.customFields == map[]
  {
    hide KeysLead, OnlyExpected, Rows, Opens, Calls, Callers, CredentialName, AccountsIn, Called, Stepped;
    SessionSizes(o.session, digest);
    var who := Calls(wants)[j];
    assert AccountAt(m, o.session.got[j], Callers(wants)[j], who, o.pool);
    CredentialIsCalled(Callers(wants)[j], who.username, who.domain);
  }
}
