/** What the header and each row of a CSV ask for (crates/remoter-import/src/csv.rs:81-250, 291-314). */
module CsvRows {
  import opened Base
  import opened Inheritance
  import opened Nodes
  import opened Text
  import opened Validation
  import opened Mapping
  import opened Previews
  import opened Interning
  import opened CsvText

  /** Where each column is, and the columns that are not documented ones. */
  datatype Header = Header(columns: map<string, nat>, unknown: seq<nat>)

  function ColumnName(cell: string): string {
    Lowercase(Trim(cell))
  }

  /** The undocumented columns among the first k cells, in order. */
  function UnknownColumns(cells: seq<string>, k: nat): (r: seq<nat>)
    requires k <= |cells|
    ensures forall i :: 0 <= i < |r| ==> r[i] < k
  {
    if k == 0 then []
    else UnknownColumns(cells, k - 1)
         + if ColumnName(cells[k - 1]) != "" && ColumnName(cells[k - 1]) !in COLUMNS then [k - 1] else []
  }

  function ColumnsOf(cells: seq<string>, k: nat): map<string, nat>
    requires k <= |cells|
  {
    if k == 0 then map[]
    else if ColumnName(cells[k - 1]) == "" then ColumnsOf(cells, k - 1)
    else ColumnsOf(cells, k - 1)[ColumnName(cells[k - 1]) := k - 1]
  }

  function HeaderOf(cells: seq<string>): (h: Header)
    ensures forall i :: 0 <= i < |h.unknown| ==> h.unknown[i] < |cells|
  {
    Header(ColumnsOf(cells, |cells|), UnknownColumns(cells, |cells|))
  }

  /** The columns point back at the cells they were read from, among the first k. */
  ghost predicate Locates(columns: map<string, nat>, cells: seq<string>, k: nat)
    requires k <= |cells|
  {
    && (forall i :: 0 <= i < k && ColumnName(cells[i]) != "" ==> ColumnName(cells[i]) in columns && columns[ColumnName(cells[i])] == i)
    && forall c :: c in columns ==> c != "" && columns[c] < k && ColumnName(cells[columns[c]]) == c
  }

  ghost predicate HeaderFault(cells: seq<string>, e: ImportError) {
    match e
    case DuplicateColumn(c) =>
      c != "" && exists i, j :: 0 <= i < j < |cells| && ColumnName(cells[i]) == c && ColumnName(cells[j]) == c
    case MissingColumn(c) => c in {"name", "host"} && forall i :: 0 <= i < |cells| ==> ColumnName(cells[i]) != c
    case _ => false
  }

  /** Reads the header row: refused exactly when it repeats a column or lacks a required one. */
  method ReadHeader(cells: seq<string>) returns (r: Result<Header, ImportError>)
    ensures r.Ok? ==> r.value == HeaderOf(cells) && Locates(r.value.columns, cells, |cells|)
    ensures r.Ok? <==> forall e :: !HeaderFault(cells, e)
    ensures r.Err? ==> HeaderFault(cells, r.error)
  {
    hide ColumnName, Locates, HeaderFault;
    var columns: map<string, nat>, unknown: seq<nat> := map[], [];
    NothingLocated(cells);
    var index := 0;
    while index < |cells|
      invariant 0 <= index <= |cells|
      invariant columns == ColumnsOf(cells, index) && unknown == UnknownColumns(cells, index)
      invariant Locates(columns, cells, index)
    {
      var name := ColumnName(cells[index]);
      LocatesNext(columns, cells, index);
      if name != "" {
        if name in columns {
          return Err(DuplicateColumn(name));
        }
        if name !in COLUMNS {
          unknown := unknown + [index];
        }
        columns := columns[name := index];
      }
      index := index + 1;
    }
    Missing(columns, cells);
    if "name" !in columns {
      return Err(MissingColumn("name"));
    }
    if "host" !in columns {
      return Err(MissingColumn("host"));
    }
    NoHeaderFault(columns, cells);
    return Ok(Header(columns, unknown));
  }

  lemma NothingLocated(cells: seq<string>)
    ensures Locates(map[], cells, 0)
  {
  }

  lemma LocatesNext(columns: map<string, nat>, cells: seq<string>, i: nat)
    requires i < |cells| && Locates(columns, cells, i)
    ensures var c := ColumnName(cells[i]);
            && (c == "" ==> Locates(columns, cells, i + 1))
            && (c != "" && c !in columns ==> Locates(columns[c := i], cells, i + 1))
            && (c != "" && c in columns ==> HeaderFault(cells, DuplicateColumn(c)))
  {
    hide ColumnName;
    var c := ColumnName(cells[i]);
    assert c in columns ==> ColumnName(cells[columns[c]]) == c && columns[c] < i;
  }

  lemma NoHeaderFault(columns: map<string, nat>, cells: seq<string>)
    requires Locates(columns, cells, |cells|) && "name" in columns && "host" in columns
    ensures forall e :: !HeaderFault(cells, e)
  {
    hide ColumnName;
    assert ColumnName(cells[columns["name"]]) == "name" && ColumnName(cells[columns["host"]]) == "host";
  }

  lemma Missing(columns: map<string, nat>, cells: seq<string>)
    requires Locates(columns, cells, |cells|)
    ensures forall c :: c in {"name", "host"} && c !in columns ==> HeaderFault(cells, MissingColumn(c))
  {
    hide ColumnName;
  }

  // One row.

  /** A cell, trimmed and, except for a password, with the guard apostrophe taken off. */
  function Field(h: Header, row: seq<string>, name: string): string {
    var cell := if name in h.columns && h.columns[name] < |row| then row[h.columns[name]] else "";
    if name == "password" then Trim(cell) else FieldValue(cell)
  }

  lemma {:induction false} ColumnIsSame(s: string)
    requires s != [] && forall i :: 0 <= i < |s| ==> IsLower(s[i])
    ensures ColumnName(s) == s
  {
    TrimNothing(s);
  }

  lemma CellOf(h: Header, row: seq<string>, name: string)
    ensures name in h.columns && h.columns[name] < |row| && name != "password" ==> Field(h, row, name) == FieldValue(row[h.columns[name]])
    ensures name in h.columns && h.columns[name] < |row| && name == "password" ==> Field(h, row, name) == Trim(row[h.columns[name]])
    ensures name !in h.columns ==> Field(h, row, name) == ""
  {
    hide FieldValue, Trim;
    EmptyCell();
  }

  lemma EmptyCell()
    ensures FieldValue("") == "" && Trim("") == ""
  {
  }

  /** What a row asks for. */
  datatype Wanted = Wanted(
    name: string,
    host: string,
    protocol: string,
    port: Inherited<Port>,
    path: seq<string>,
    account: Option<Identity>,
    description: string,
    tags: seq<string>,
    customFields: map<string, string>,
    gateway: string)

  /** The documented cells of a row. */
  datatype RowCells = RowCells(
    name: string,
    folder: string,
    protocol: string,
    host: string,
    port: string,
    username: string,
    domain: string,
    password: string,
    description: string,
    tags: string,
    gateway: string)

  function CellsOf(h: Header, row: seq<string>): RowCells {
    RowCells(Field(h, row, "name"), Field(h, row, "folder"), Field(h, row, "protocol"), Field(h, row, "host"), Field(h, row, "port"),
             Field(h, row, "username"), Field(h, row, "domain"), Field(h, row, "password"), Field(h, row, "description"),
             Field(h, row, "tags"), Field(h, row, "gateway"))
  }

  function RowName(c: RowCells): string {
    var name := CleanName(c.name);
    if name == "" then CleanName(c.host) else name
  }

  /** The protocol of a row: `ssh` when it names none, nothing when what it names is not one. */
  function RowProtocol(raw: string): Option<string> {
    if raw == "" then Some("ssh")
    else if ValidProtocolId(Lowercase(raw)) then Some(Lowercase(raw))
    else None
  }

  lemma RowProtocolValid(raw: string)
    ensures RowProtocol(raw).Some? ==> ValidProtocolId(RowProtocol(raw).value)
  {
    hide Lowercase, ValidProtocolId;
    SshIsValid();
  }

  lemma SshIsValid()
    ensures ValidProtocolId("ssh")
  {
  }

  /** The names a `/`-separated path goes through. */
  function CleanPieces(pieces: seq<string>): seq<string> {
    if pieces == [] then []
    else
      var name := CleanName(pieces[|pieces| - 1]);
      CleanPieces(pieces[..|pieces| - 1]) + if name == "" then [] else [name]
  }

  function Segments(path: string): seq<string> {
    CleanPieces(Split(path, '/'))
  }

  function RowAccount(c: RowCells, protocol: string): Option<Identity> {
    if c.username == "" && c.password == "" then None
    else Some(Identity(c.username, if c.domain == "" then None else Some(c.domain),
                       if c.password == "" then Unsealed(Agent(None)) else Plaintext(c.password), [protocol]))
  }

  function CleanTags(pieces: seq<string>): (r: seq<string>)
    ensures forall i :: 0 <= i < |r| ==> ValidTag(r[i])
  {
    if pieces == [] then []
    else (if Trim(pieces[0]) != "" && ValidTag(Trim(pieces[0])) then [Trim(pieces[0])] else []) + CleanTags(pieces[1..])
  }

  /** The undocumented cells of a row, each under its column's key. */
  function Kept(cells: seq<string>, unknown: seq<nat>, row: seq<string>, maxFields: nat): map<string, string>
    requires forall i :: 0 <= i < |unknown| ==> unknown[i] < |cells|
  {
    if unknown == [] then map[]
    else
      var column := unknown[|unknown| - 1];
      var rest := Kept(cells, unknown[..|unknown| - 1], row, maxFields);
      var key := CustomKey("csv", ColumnName(cells[column]));
      if column >= |row| || Trim(row[column]) == "" || key.None? then rest
      else Preserved(rest, key.value, Trim(row[column]), maxFields)
  }

  /** The loop over the undocumented columns of one row. */
  method KeepUnknown(cells: seq<string>, unknown: seq<nat>, row: seq<string>, maxFields: nat) returns (fields: map<string, string>)
    requires forall i :: 0 <= i < |unknown| ==> unknown[i] < |cells|
    ensures fields == Kept(cells, unknown, row, maxFields)
  {
    fields := map[];
    var i := 0;
    while i < |unknown|
      invariant 0 <= i <= |unknown| && fields == Kept(cells, unknown[..i], row, maxFields)
    {
      var column := unknown[i];
      assert unknown[..i + 1][..i] == unknown[..i];
      if column < |row| && Trim(row[column]) != "" {
        var key := CustomKey("csv", ColumnName(cells[column]));
        if key.Some? {
          fields := Preserved(fields, key.value, Trim(row[column]), maxFields);
        }
      }
      i := i + 1;
    }
    assert unknown[..i] == unknown;
  }

  ghost predicate KeysValid(fields: map<string, string>) {
    forall key :: key in fields ==> ValidKey(key)
  }

  /** Every preserved key is one the domain model accepts, and there are no more than the ceiling. */
  lemma {:induction false} KeptIsValid(cells: seq<string>, unknown: seq<nat>, row: seq<string>, maxFields: nat)
    requires forall i :: 0 <= i < |unknown| ==> unknown[i] < |cells|
    ensures KeysValid(Kept(cells, unknown, row, maxFields)) && |Kept(cells, unknown, row, maxFields)| <= maxFields
  {
    hide ValidKey, CustomKey;
    if unknown != [] {
      KeptIsValid(cells, unknown[..|unknown| - 1], row, maxFields);
    }
  }

  /** What a row asks for, or nothing when it is blank, has no usable host or names no protocol. */
  function WantFrom(c: RowCells, fields: map<string, string>): Option<Wanted> {
    var protocol := RowProtocol(c.protocol);
    if ValidateHost(c.host).Some? || protocol.None? then None
    else
      var port := ParsePort(c.port);
      Some(Wanted(RowName(c), c.host, protocol.value, if port.Some? then Explicit(port.value) else Inherit,
                  Segments(c.folder), RowAccount(c, protocol.value),
                  CleanDescription(c.description), CleanTags(Split(c.tags, ';')), fields, c.gateway))
  }

  function Want(cells: seq<string>, h: Header, row: seq<string>, maxFields: nat): Option<Wanted>
    requires forall i :: 0 <= i < |h.unknown| ==> h.unknown[i] < |cells|
  {
    WantFrom(CellsOf(h, row), Kept(cells, h.unknown, row, maxFields))
  }

  method ReadRow(cells: seq<string>, h: Header, row: seq<string>, maxFields: nat) returns (w: Option<Wanted>)
    requires forall i :: 0 <= i < |h.unknown| ==> h.unknown[i] < |cells|
    ensures w == Want(cells, h, row, maxFields)
  {
    hide CellsOf, ValidateHost, RowProtocol, RowAccount, CleanTags, Kept, ParsePort, Segments, CleanName;
    var c := CellsOf(h, row);
    var name := CleanName(c.name);
    if name == "" {
      name := CleanName(c.host);
    }
    if name == "" && c.host == "" {
      EmptyHost();
      return None;
    }
    if ValidateHost(c.host).Some? {
      return None;
    }
    var protocol := RowProtocol(c.protocol);
    if protocol.None? {
      return None;
    }
    var fields := KeepUnknown(cells, h.unknown, row, maxFields);
    var port := ParsePort(c.port);
    return Some(Wanted(name, c.host, protocol.value, if port.Some? then Explicit(port.value) else Inherit,
                       Segments(c.folder), RowAccount(c, protocol.value),
                       CleanDescription(c.description), CleanTags(Split(c.tags, ';')), fields, c.gateway));
  }

  lemma EmptyHost()
    ensures ValidateHost("").Some?
  {
  }

  ghost predicate CleanPath(path: seq<string>) {
    forall i :: 0 <= i < |path| ==> '/' !in path[i] && ValidateName(path[i]).None?
  }

  /** Everything about a row that the domain model would check. */
  ghost predicate Sane(w: Wanted) {
    && ValidateName(w.name).None? && ValidateHost(w.host).None? && ValidProtocolId(w.protocol)
    && w.port != Explicit(0) && !w.port.Default?
    && CleanPath(w.path)
    && (w.account.Some? ==> w.account.value.protocols == [w.protocol] && SecretIsPlain(w.account.value.secret))
    && |w.description| <= MAX_DESCRIPTION_LEN
    && (forall i :: 0 <= i < |w.tags| ==> ValidTag(w.tags[i]))
    && KeysValid(w.customFields)
  }

  predicate SecretIsPlain(secret: PreviewSecret) {
    secret.Plaintext? || secret == Unsealed(Agent(None))
  }

  lemma {:induction false} PiecesAreClean(pieces: seq<string>)
    requires forall i :: 0 <= i < |pieces| ==> '/' !in pieces[i]
    ensures CleanPath(CleanPieces(pieces))
  {
    hide CleanName, ValidateName;
    if pieces != [] {
      var last := |pieces| - 1;
      PiecesAreClean(pieces[..last]);
      CleanNameValid(pieces[last]);
    }
  }

  lemma {:induction false} SegmentsAreClean(path: string)
    ensures CleanPath(Segments(path))
  {
    forall i | 0 <= i < |Split(path, '/')| ensures '/' !in Split(path, '/')[i] {
      if '/' in Split(path, '/')[i] {
        SplitPiece(path, '/', i, '/');
        assert false;
      }
    }
    PiecesAreClean(Split(path, '/'));
  }

  /** A row that is read asks for nothing the domain model refuses. */
  lemma {:induction false} WantIsSane(c: RowCells, fields: map<string, string>)
    requires KeysValid(fields)
    ensures WantFrom(c, fields).Some? ==> Sane(WantFrom(c, fields).value)
  {
    hide ValidateHost, ValidateName, CleanTags, ParsePort, Segments, CleanName, CleanPath, ValidTag, KeysValid, ValidProtocolId, RowProtocol, Split;
    CleanNameValid(c.name);
    CleanNameValid(c.host);
    if ValidateHost(c.host).None? {
      HostNamesItself(c.host);
    }
    RowProtocolValid(c.protocol);
    SegmentsAreClean(c.folder);
  }

  lemma {:induction false} RowIsSane(cells: seq<string>, h: Header, row: seq<string>, maxFields: nat)
    requires forall i :: 0 <= i < |h.unknown| ==> h.unknown[i] < |cells|
    ensures Want(cells, h, row, maxFields).Some? ==>
              Sane(Want(cells, h, row, maxFields).value) && Want(cells, h, row, maxFields).value.path == Segments(CellsOf(h, row).folder)
  {
    hide CellsOf, Kept, KeysValid, Sane, ValidateHost, RowProtocol, RowName, RowAccount, ParsePort, CleanTags, Segments, Split, CleanDescription;
    KeptIsValid(cells, h.unknown, row, maxFields);
    WantIsSane(CellsOf(h, row), Kept(cells, h.unknown, row, maxFields));
  }

  // Routes.

  function Lookup(names: seq<string>, byName: map<string, NodeId>): Option<seq<NodeId>> {
    if names == [] then Some([])
    else
      var rest := Lookup(names[1..], byName);
      if Trim(names[0]) in byName && rest.Some? then Some([byName[Trim(names[0])]] + rest.value) else None
  }

  /** The hops a cell names: the whole cell as one name, or else a `>`-separated route. */
  function Hops(cell: string, byName: map<string, NodeId>): Option<seq<NodeId>> {
    if cell in byName then Some([byName[cell]]) else Lookup(Split(cell, '>'), byName)
  }

  /** A route the domain model allows for a connection. */
  predicate Usable(hops: seq<NodeId>, connection: NodeId) {
    && 0 < |hops| <= MAX_GATEWAY_HOPS && connection !in hops
    && forall i, j :: 0 <= i < j < |hops| ==> hops[i] != hops[j]
  }

  method Route(cell: string, byName: map<string, NodeId>, connection: NodeId) returns (r: Option<seq<NodeId>>)
    ensures var hops := Hops(cell, byName);
            r == if hops.Some? && Usable(hops.value, connection) then hops else None
  {
    var found := Hops(cell, byName);
    if found.None? {
      return None;
    }
    var hops := found.value;
    if |hops| == 0 || |hops| > MAX_GATEWAY_HOPS {
      return None;
    }
    var seen: set<NodeId>, i := {}, 0;
    while i < |hops|
      invariant 0 <= i <= |hops|
      invariant forall x :: x in seen <==> x in hops[..i]
      invariant connection !in hops[..i] && forall a, b :: 0 <= a < b < i ==> hops[a] != hops[b]
    {
      assert hops[..i + 1] == hops[..i] + [hops[i]];
      if hops[i] == connection || hops[i] in seen {
        return None;
      }
      seen := seen + {hops[i]};
      i := i + 1;
    }
    assert hops[..i] == hops;
    return found;
  }

  lemma {:induction false} LookedUp(names: seq<string>, byName: map<string, NodeId>)
    ensures Lookup(names, byName).Some? ==> forall x :: x in Lookup(names, byName).value ==> x in byName.Values
  {
    if names != [] {
      LookedUp(names[1..], byName);
    }
  }
}
