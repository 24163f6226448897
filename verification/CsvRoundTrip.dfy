/**
 What the exporter writes for a connection, the importer reads as that connection
 (crates/remoter-import/src/export/csv.rs:30-101, crates/remoter-import/src/csv.rs:135-250).
 */
module CsvRoundTrip {
  import opened Base
  import opened Inheritance
  import opened Nodes
  import opened Text
  import opened Validation
  import opened Mapping
  import opened Previews
  import opened Interning
  import opened CsvText
  import opened CsvRows

  /** What the exporter knows of a connection: its own columns, its folders and its effective values. */
  datatype Exportable = Exportable(
    name: string,
    path: seq<string>,
    protocol: string,
    host: string,
    port: Option<Port>,
    username: string,
    domain: string,
    description: string,
    tags: seq<string>,
    gateway: string)

  function Digits(n: nat): string {
    if n < 10 then ['0' + n as char] else Digits(n / 10) + ['0' + (n % 10) as char]
  }

  function PortText(port: Option<Port>): string {
    if port.Some? then Digits(port.value) else ""
  }

  /** The values of the documented columns, in order; the password is never written. */
  function ValuesOf(x: Exportable): seq<string> {
    [x.name, Join(x.path, '/'), x.protocol, x.host, PortText(x.port), x.username, x.domain, "", x.description, Join(x.tags, ';'), x.gateway]
  }

  /** The rules the domain model has for these values. */
  ghost predicate Exports(x: Exportable) {
    && ValidateName(x.name).None? && ValidProtocolId(x.protocol) && ValidateHost(x.host).None? && x.port != Some(0)
    && |x.description| <= MAX_DESCRIPTION_LEN
    && (forall i :: 0 <= i < |x.path| ==> ValidateName(x.path[i]).None?)
    && (forall i :: 0 <= i < |x.tags| ==> ValidTag(x.tags[i]))
  }

  // Numbers.

  lemma {:induction false} DigitsAreNumber(n: nat)
    ensures Digits(n) != [] && AllDigits(Digits(n)) && Number(Digits(n)) == n
  {
    if n >= 10 {
      DigitsAreNumber(n / 10);
      assert Digits(n)[..|Digits(n)| - 1] == Digits(n / 10);
    } else {
      assert Digits(n)[..0] == [];
    }
  }

  lemma {:induction false} PortReturns(port: Option<Port>)
    requires port != Some(0)
    ensures Trimmed(PortText(port)) && ParsePort(PortText(port)) == port
  {
    hide Digits, Number;
    TrimNothing(PortText(port));
    if port.Some? {
      DigitsAreNumber(port.value);
      var d := Digits(port.value);
      assert IsDigit(d[0]) && IsDigit(d[|d| - 1]);
    }
  }

  // Lists.

  /** Every part split at a separator, in order: what a list turns into when it is written with that separator. */
  function Pieces(parts: seq<string>, c: char): seq<string> {
    if parts == [] then [] else Split(parts[0], c) + Pieces(parts[1..], c)
  }

  /** The pieces trimmed, and the blank ones dropped. */
  function Filled(pieces: seq<string>): seq<string> {
    if pieces == [] then []
    else
      var piece := Trim(pieces[|pieces| - 1]);
      Filled(pieces[..|pieces| - 1]) + if piece == "" then [] else [piece]
  }

  lemma SplitStep(s: string, c: char)
    requires s != []
    ensures var rest := Split(s[1..], c);
            Split(s, c) == if s[0] == c then [[]] + rest else [[s[0]] + rest[0]] + rest[1..]
  {
  }

  lemma ConsAppend<T>(x: T, a: seq<T>, b: seq<T>)
    ensures [x] + (a + b) == ([x] + a) + b
  {
  }

  lemma SplitNothing(c: char)
    ensures Split([], c) == [[]]
  {
  }

  lemma {:induction false} SplitAppend(a: string, b: string, c: char)
    ensures Split(a + [c] + b, c) == Split(a, c) + Split(b, c)
  {
    hide Split;
    var text, more := a + [c] + b, Split(b, c);
    SplitStep(text, c);
    if a == [] {
      assert text[1..] == b;
      SplitNothing(c);
    } else {
      var rest := Split(a[1..], c);
      SplitAppend(a[1..], b, c);
      assert text[1..] == a[1..] + [c] + b;
      SplitStep(a, c);
      if a[0] == c {
        ConsAppend([], rest, more);
      } else {
        assert (rest + more)[0] == rest[0] && (rest + more)[1..] == rest[1..] + more;
        ConsAppend([a[0]] + rest[0], rest[1..], more);
      }
    }
  }

  lemma {:induction false} SplitOfJoin(parts: seq<string>, c: char)
    requires parts != []
    ensures Split(Join(parts, c), c) == Pieces(parts, c)
    decreases |parts|
  {
    if |parts| == 1 {
      assert parts[1..] == [];
    } else {
      SplitAppend(parts[0], Join(parts[1..], c), c);
      SplitOfJoin(parts[1..], c);
    }
  }

  /** A character at the end belongs to the last piece. */
  lemma {:induction false} SplitSnoc(s: string, x: char, c: char)
    requires x != c
    ensures Split(s + [x], c) == WithLast(Split(s, c), x)
  {
    hide Split, WithLast;
    SplitNothing(c);
    SplitStep(s + [x], c);
    if s == [] {
      assert (s + [x])[1..] == [];
      LastOfOne([], x);
      var none: seq<string> := [[]];
      assert none[1..] == [] && [x] + [] == [x] && [] + [x] == [x];
    } else {
      var rest := Split(s[1..], c);
      SplitSnoc(s[1..], x, c);
      assert (s + [x])[1..] == s[1..] + [x];
      SplitStep(s, c);
      LastOfMore(s[0], rest, x);
    }
  }

  /** The pieces with one more character at the end of the last. */
  function WithLast(pieces: seq<string>, x: char): (r: seq<string>)
    requires pieces != []
    ensures |r| == |pieces|
  {
    pieces[..|pieces| - 1] + [pieces[|pieces| - 1] + [x]]
  }

  lemma LastOfOne(piece: string, x: char)
    ensures WithLast([piece], x) == [piece + [x]]
  {
  }

  lemma LastOfMore(y: char, rest: seq<string>, x: char)
    requires rest != []
    ensures [[]] + WithLast(rest, x) == WithLast([[]] + rest, x)
    ensures [[y] + WithLast(rest, x)[0]] + WithLast(rest, x)[1..] == WithLast([[y] + rest[0]] + rest[1..], x)
  {
    var last := |rest| - 1;
    var t := WithLast(rest, x);
    assert ([[]] + rest)[..last + 1] == [[]] + rest[..last];
    var more := [[y] + rest[0]] + rest[1..];
    if last == 0 {
      assert [y] + (rest[0] + [x]) == ([y] + rest[0]) + [x];
      assert rest[1..] == [] && t[1..] == [] && more == [[y] + rest[0]];
    } else {
      assert t[0] == rest[0] && t[1..] == rest[1..last] + [rest[last] + [x]];
      assert more[..last] == [[y] + rest[0]] + rest[1..last];
    }
  }

  // Cleaning a name does not see white space at its ends.

  lemma TrimStartStep(s: string)
    ensures TrimStart(s) == if s != [] && IsWhitespace(s[0]) then TrimStart(s[1..]) else s
  {
    hide IsWhitespace;
  }

  lemma {:induction false} TrimStartSnoc(s: string, x: char)
    requires IsWhitespace(x)
    ensures TrimStart(s + [x]) == if TrimStart(s) == [] then [] else TrimStart(s) + [x]
  {
    hide IsWhitespace, TrimStart;
    TrimStartStep(s + [x]);
    TrimStartStep(s);
    TrimStartStep([]);
    if s != [] && IsWhitespace(s[0]) {
      TrimStartSnoc(s[1..], x);
      assert (s + [x])[1..] == s[1..] + [x];
    } else if s == [] {
      assert (s + [x])[1..] == [];
    }
  }

  lemma {:induction false} TrimEndSpace(s: string, x: char)
    requires IsWhitespace(x)
    ensures Trim(s + [x]) == Trim(s)
  {
    TrimStartSnoc(s, x);
    if TrimStart(s) != [] {
      assert (TrimStart(s) + [x])[..|TrimStart(s)|] == TrimStart(s);
    }
  }

  lemma {:induction false} WithoutControlsSnoc(s: string, x: char)
    ensures WithoutControls(s + [x]) == WithoutControls(s) + if IsControl(x) then [] else [x]
  {
    hide IsControl;
    if s == [] {
      assert s + [x] == [x] && [x][1..] == [];
    } else {
      WithoutControlsSnoc(s[1..], x);
      assert (s + [x])[1..] == s[1..] + [x];
    }
  }

  lemma {:induction false} EndSpaceIgnored(s: string, x: char)
    requires IsWhitespace(x)
    ensures CleanName(s + [x]) == CleanName(s)
  {
    hide Trim, WithoutControls;
    WithoutControlsSnoc(s, x);
    TrimEndSpace(WithoutControls(s), x);
    assert WithoutControls(s) + [] == WithoutControls(s);
  }

  lemma {:induction false} StartSpaceIgnored(x: char, s: string)
    requires IsWhitespace(x)
    ensures CleanName([x] + s) == CleanName(s)
  {
    assert ([x] + s)[1..] == s;
    assert !IsControl(x) ==> ([x] + WithoutControls(s))[1..] == WithoutControls(s);
  }

  lemma {:induction false} CleanAppend(a: seq<string>, b: seq<string>)
    ensures CleanPieces(a + b) == CleanPieces(a) + CleanPieces(b)
    decreases |b|
  {
    hide CleanName;
    if b == [] {
      assert a + b == a;
    } else {
      var last := |b| - 1;
      CleanAppend(a, b[..last]);
      assert (a + b)[..|a| + last] == a + b[..last];
    }
  }

  lemma {:induction false} CleanOne(piece: string)
    ensures CleanPieces([piece]) == if CleanName(piece) == "" then [] else [CleanName(piece)]
  {
    hide CleanName;
    assert [piece][..0] == [];
  }

  lemma {:induction false} EndSpaceDropped(s: string, x: char, c: char)
    requires IsWhitespace(x) && x != c
    ensures CleanPieces(Split(s + [x], c)) == CleanPieces(Split(s, c))
  {
    hide CleanName, Split, CleanPieces;
    var pieces := Split(s, c);
    var last := |pieces| - 1;
    SplitSnoc(s, x, c);
    assert Split(s + [x], c) == pieces[..last] + [pieces[last] + [x]];
    EndSpaceIgnored(pieces[last], x);
    CleanAppend(pieces[..last], [pieces[last]]);
    CleanAppend(pieces[..last], [pieces[last] + [x]]);
    CleanOne(pieces[last]);
    CleanOne(pieces[last] + [x]);
    assert pieces == pieces[..last] + [pieces[last]];
  }

  lemma {:induction false} StartSpaceDropped(x: char, s: string, c: char)
    requires IsWhitespace(x) && x != c
    ensures CleanPieces(Split([x] + s, c)) == CleanPieces(Split(s, c))
  {
    hide CleanName, CleanPieces;
    var pieces := Split(s, c);
    assert ([x] + s)[1..] == s;
    assert Split([x] + s, c) == [[x] + pieces[0]] + pieces[1..];
    StartSpaceIgnored(x, pieces[0]);
    CleanAppend([pieces[0]], pieces[1..]);
    CleanAppend([[x] + pieces[0]], pieces[1..]);
    CleanOne(pieces[0]);
    CleanOne([x] + pieces[0]);
    assert pieces == [pieces[0]] + pieces[1..];
  }

  lemma {:induction false} StartTrimmed(s: string, c: char)
    requires !IsWhitespace(c)
    ensures CleanPieces(Split(TrimStart(s), c)) == CleanPieces(Split(s, c))
  {
    hide CleanPieces, Split;
    if s != [] && IsWhitespace(s[0]) {
      StartTrimmed(s[1..], c);
      StartSpaceDropped(s[0], s[1..], c);
      assert s == [s[0]] + s[1..];
    }
  }

  lemma {:induction false} EndTrimmed(s: string, c: char)
    requires !IsWhitespace(c)
    ensures CleanPieces(Split(TrimEnd(s), c)) == CleanPieces(Split(s, c))
  {
    hide CleanPieces, Split;
    if s != [] && IsWhitespace(s[|s| - 1]) {
      var last := |s| - 1;
      EndTrimmed(s[..last], c);
      EndSpaceDropped(s[..last], s[last], c);
      assert s == s[..last] + [s[last]];
    }
  }

  lemma NothingTrimmed(s: string)
    requires s == []
    ensures CleanName(s) == [] && Trim(s) == []
  {
  }

  lemma {:induction false} NothingListed(s: string)
    requires s == []
    ensures Segments(s) == [] && CleanTags(Split(s, ';')) == []
  {
    hide CleanName, Trim;
    NothingTrimmed(s);
    assert Split(s, '/') == [s] && Split(s, ';') == [s];
    assert [s][..0] == [] && [s][1..] == [];
  }

  /** The pieces of a string are no longer than it, and have no characters of their own. */
  lemma {:induction false} PieceBounds(s: string, c: char, i: nat)
    requires i < |Split(s, c)|
    ensures |Split(s, c)[i]| <= |s| && forall x :: x in Split(s, c)[i] ==> x in s
  {
    if s != [] {
      if s[0] == c {
        if i > 0 {
          PieceBounds(s[1..], c, i - 1);
        }
      } else {
        PieceBounds(s[1..], c, i);
      }
    }
  }

  lemma {:induction false} CleanFills(pieces: seq<string>)
    requires forall i :: 0 <= i < |pieces| ==> |pieces[i]| <= MAX_NAME_LEN && !HasControl(pieces[i])
    ensures CleanPieces(pieces) == Filled(pieces)
  {
    hide CleanName, Trim, HasControl;
    if pieces != [] {
      CleanFills(pieces[..|pieces| - 1]);
      CleanAgain(pieces[|pieces| - 1]);
    }
  }

  lemma {:induction false} NamePieces(path: seq<string>)
    requires forall i :: 0 <= i < |path| ==> ValidateName(path[i]).None?
    ensures forall k :: 0 <= k < |Pieces(path, '/')| ==> |Pieces(path, '/')[k]| <= MAX_NAME_LEN && !HasControl(Pieces(path, '/')[k])
    decreases |path|
  {
    hide Split, HasControl, ValidateName;
    if path != [] {
      NamePieces(path[1..]);
      forall k | 0 <= k < |Split(path[0], '/')| ensures |Split(path[0], '/')[k]| <= MAX_NAME_LEN && !HasControl(Split(path[0], '/')[k]) {
        PieceBounds(path[0], '/', k);
        PartOfName(path[0], Split(path[0], '/')[k]);
      }
    }
  }

  lemma PartOfName(name: string, part: string)
    requires ValidateName(name).None? && |part| <= |name| && forall x :: x in part ==> x in name
    ensures |part| <= MAX_NAME_LEN && !HasControl(part)
  {
    assert forall i :: 0 <= i < |part| ==> part[i] in part;
  }

  /** The folders come back as their names, split at the separator, trimmed, the blank ones dropped. */
  lemma {:induction false} PathReturns(path: seq<string>)
    requires forall i :: 0 <= i < |path| ==> ValidateName(path[i]).None?
    ensures Segments(Trim(Join(path, '/'))) == Filled(Pieces(path, '/'))
  {
    hide CleanPieces, ValidateName, Split, HasControl;
    var text := Join(path, '/');
    StartTrimmed(text, '/');
    EndTrimmed(TrimStart(text), '/');
    if path == [] {
      NothingListed(text);
    } else {
      SplitOfJoin(path, '/');
      NamePieces(path);
      CleanFills(Pieces(path, '/'));
    }
  }

  /** A list of parts that are trimmed and do not hold the separator is kept as it is. */
  lemma {:induction false} PartsKept(parts: seq<string>, c: char)
    requires forall i :: 0 <= i < |parts| ==> parts[i] != "" && Trimmed(parts[i]) && c !in parts[i]
    ensures Pieces(parts, c) == parts && Filled(parts) == parts
  {
    PiecesKept(parts, c);
    FilledKept(parts);
  }

  lemma {:induction false} PiecesKept(parts: seq<string>, c: char)
    requires forall i :: 0 <= i < |parts| ==> c !in parts[i]
    ensures Pieces(parts, c) == parts
  {
    if parts != [] {
      SplitAlone(parts[0], c);
      PiecesKept(parts[1..], c);
      assert parts == [parts[0]] + parts[1..];
    }
  }

  lemma {:induction false} FilledKept(parts: seq<string>)
    requires forall i :: 0 <= i < |parts| ==> parts[i] != "" && Trimmed(parts[i])
    ensures Filled(parts) == parts
  {
    hide Trim;
    if parts != [] {
      var last := |parts| - 1;
      FilledKept(parts[..last]);
      TrimNothing(parts[last]);
      assert parts == parts[..last] + [parts[last]];
    }
  }

  // Tags: no white space in them, so nothing to trim.

  ghost predicate Spaceless(s: string) {
    forall i :: 0 <= i < |s| ==> !IsWhitespace(s[i])
  }

  /** A piece of a valid tag: valid as well, unless it is empty. */
  ghost predicate TagPiece(s: string) {
    Spaceless(s) && (s != "" ==> ValidTag(s))
  }

  lemma {:induction false} TagPieces(tags: seq<string>)
    requires forall i :: 0 <= i < |tags| ==> ValidTag(tags[i])
    ensures forall k :: 0 <= k < |Pieces(tags, ';')| ==> TagPiece(Pieces(tags, ';')[k])
    decreases |tags|
  {
    hide Split, ValidTag, TagPiece;
    if tags != [] {
      TagPieces(tags[1..]);
      forall k | 0 <= k < |Split(tags[0], ';')| ensures TagPiece(Split(tags[0], ';')[k]) {
        PieceBounds(tags[0], ';', k);
        PartOfTag(tags[0], Split(tags[0], ';')[k]);
      }
    }
  }

  lemma PartOfTag(tag: string, part: string)
    requires ValidTag(tag) && |part| <= |tag| && forall x :: x in part ==> x in tag
    ensures TagPiece(part)
  {
    forall i | 0 <= i < |part| ensures !IsControl(part[i]) && !IsWhitespace(part[i]) && part[i] != ',' {
      assert part[i] in part;
    }
  }

  lemma {:induction false} TagsFilled(pieces: seq<string>)
    requires forall k :: 0 <= k < |pieces| ==> TagPiece(pieces[k])
    ensures CleanTags(pieces) == Filled(pieces)
    decreases |pieces|
  {
    hide Trim, ValidTag;
    if pieces != [] {
      var last := |pieces| - 1;
      TagsFilled(pieces[..last]);
      TrimNothing(pieces[last]);
      CleanTagsAppend(pieces[..last], [pieces[last]]);
      assert pieces == pieces[..last] + [pieces[last]] && [pieces[last]][1..] == [];
    }
  }

  lemma CleanTagsStep(pieces: seq<string>)
    requires pieces != []
    ensures var tag := Trim(pieces[0]);
            CleanTags(pieces) == (if tag != "" && ValidTag(tag) then [tag] else []) + CleanTags(pieces[1..])
  {
    hide Trim, ValidTag;
  }

  lemma {:induction false} CleanTagsAppend(a: seq<string>, b: seq<string>)
    ensures CleanTags(a + b) == CleanTags(a) + CleanTags(b)
  {
    hide Trim, ValidTag, CleanTags;
    if a == [] {
      assert a + b == b;
      NoTagsClean();
    } else {
      CleanTagsAppend(a[1..], b);
      CleanTagsStep(a);
      CleanTagsStep(a + b);
      assert (a + b)[1..] == a[1..] + b;
    }
  }

  lemma NoTagsClean()
    ensures CleanTags([]) == []
  {
  }

  lemma {:induction false} SpacelessJoin(tags: seq<string>)
    requires forall i :: 0 <= i < |tags| ==> ValidTag(tags[i])
    ensures Spaceless(Join(tags, ';'))
    decreases |tags|
  {
    if |tags| > 1 {
      SpacelessJoin(tags[1..]);
    }
  }

  /** The tags come back as they were, split where they hold the separator, the blank pieces dropped. */
  lemma {:induction false} TagsReturn(tags: seq<string>)
    requires forall i :: 0 <= i < |tags| ==> ValidTag(tags[i])
    ensures CleanTags(Split(Trim(Join(tags, ';')), ';')) == Filled(Pieces(tags, ';'))
  {
    hide Split, CleanTags, ValidTag, Trim, TagPiece;
    var text := Join(tags, ';');
    SpacelessJoin(tags);
    TrimNothing(text);
    if tags == [] {
      NothingListed(text);
    } else {
      SplitOfJoin(tags, ';');
      TagPieces(tags);
      TagsFilled(Pieces(tags, ';'));
    }
  }

  // Hosts and protocols.

  lemma {:induction false} LastPiece(s: string, c: char)
    ensures var pieces := Split(s, c);
            var last := pieces[|pieces| - 1];
            last != [] ==> s != [] && s[|s| - 1] == last[|last| - 1]
  {
    if s != [] {
      LastPiece(s[1..], c);
    }
  }

  lemma {:induction false} DnsEnd(host: string)
    requires ValidDnsName(host)
    ensures !IsWhitespace(host[|host| - 1])
  {
    var name := if host != [] && host[|host| - 1] == '.' then host[..|host| - 1] else host;
    var labels := Split(name, '.');
    LastPiece(name, '.');
    assert forall i :: 0 <= i < |labels| ==> ValidLabel(labels[i]);
    var last := labels[|labels| - 1];
    assert last != [] && IsAlphanumeric(last[|last| - 1]);
  }

  lemma {:induction false} HostIsTrimmed(host: string)
    requires ValidateHost(host).None?
    ensures Trimmed(host)
  {
    if host[0] != '[' {
      if ValidIpv4(host) {
        var octets := Split(host, '.');
        FirstPiece(host, '.');
        LastPiece(host, '.');
        assert ValidOctet(octets[0]) && ValidOctet(octets[3]);
        assert IsDigit(host[0]) && IsDigit(host[|host| - 1]);
      } else {
        DnsStart(host);
        DnsEnd(host);
      }
    }
  }

  lemma ProtocolReturns(protocol: string)
    requires ValidProtocolId(protocol)
    ensures Trimmed(protocol) && protocol != "" && Lowercase(protocol) == protocol
  {
  }

  // The row.

  lemma {:induction false} ColumnsLocate(cells: seq<string>, k: nat)
    requires k <= |cells| && forall i :: 0 <= i < |cells| ==> ColumnName(cells[i]) == cells[i] != ""
    requires forall i, j :: 0 <= i < j < |cells| ==> cells[i] != cells[j]
    ensures forall i :: 0 <= i < k ==> cells[i] in ColumnsOf(cells, k) && ColumnsOf(cells, k)[cells[i]] == i
    ensures (forall i :: 0 <= i < |cells| ==> cells[i] in COLUMNS) ==> UnknownColumns(cells, k) == []
  {
    hide ColumnName;
    if k > 0 {
      ColumnsLocate(cells, k - 1);
    }
  }

  lemma {:induction false} DocumentedHeader()
    ensures HeaderOf(COLUMNS).unknown == []
    ensures forall i :: 0 <= i < |COLUMNS| ==> COLUMNS[i] in HeaderOf(COLUMNS).columns && HeaderOf(COLUMNS).columns[COLUMNS[i]] == i
  {
    hide ColumnName, ColumnsOf, UnknownColumns;
    forall i | 0 <= i < |COLUMNS| ensures ColumnName(COLUMNS[i]) == COLUMNS[i] != "" {
      ColumnIsSame(COLUMNS[i]);
    }
    ColumnsLocate(COLUMNS, |COLUMNS|);
  }

  /** The importer reads from the exporter's cell for a column the value that was exported, trimmed. */
  lemma {:induction false} CellReturns(x: Exportable, i: nat)
    requires i < |COLUMNS|
    ensures Field(HeaderOf(COLUMNS), ExportedRow(ValuesOf(x)), COLUMNS[i]) == Trim(ValuesOf(x)[i])
  {
    hide HeaderOf, FieldValue, Exported, Trim;
    DocumentedHeader();
    var row := ExportedRow(ValuesOf(x));
    assert row[i] == Exported(ValuesOf(x)[i]);
    CellOf(HeaderOf(COLUMNS), row, COLUMNS[i]);
    ExportedField(ValuesOf(x)[i]);
    if COLUMNS[i] == "password" {
      assert i == 7;
      EmptyExport();
    }
  }

  lemma EmptyExport()
    ensures Trim(Exported("")) == "" == Trim("")
  {
  }

  /** The account an exported row asks for: the agent's, since no password is written. */
  function AccountOf(x: Exportable): Option<Identity> {
    if Trim(x.username) == "" then None
    else Some(Identity(Trim(x.username), if Trim(x.domain) == "" then None else Some(Trim(x.domain)), Unsealed(Agent(None)), [x.protocol]))
  }

  /** The name an exported row comes back under: its own, or its host's when it is only white space. */
  function NameOf(x: Exportable): string {
    if Trim(x.name) == "" then CleanName(x.host) else Trim(x.name)
  }

  /** An exported row asks for the connection it was written for, as far as the columns can carry it. */
  lemma {:induction false} ExportedRowReturns(x: Exportable, maxFields: nat)
    requires Exports(x)
    ensures Want(COLUMNS, HeaderOf(COLUMNS), ExportedRow(ValuesOf(x)), maxFields) ==
            Some(Wanted(NameOf(x), x.host, x.protocol, if x.port.Some? then Explicit(x.port.value) else Inherit, Filled(Pieces(x.path, '/')),
                        AccountOf(x), Trim(x.description), Filled(Pieces(x.tags, ';')), map[], Trim(x.gateway)))
  {
    hide Field, HeaderOf, ExportedRow, Trim, CleanName, ValidateHost, ValidateName, ValidProtocolId, ValidTag, ParsePort, Segments, CleanTags, Split, Join, Trimmed, Lowercase, PortText, Filled, Pieces;
    var h, row, v := HeaderOf(COLUMNS), ExportedRow(ValuesOf(x)), ValuesOf(x);
    DocumentedHeader();
    forall i | 0 <= i < |COLUMNS| ensures Field(h, row, COLUMNS[i]) == Trim(v[i]) {
      CellReturns(x, i);
    }
    Named(h, row, v);
    NameReturns(x.name);
    PathReturns(x.path);
    ProtocolReturns(x.protocol);
    TrimNothing(v[2]);
    HostIsTrimmed(x.host);
    TrimNothing(v[3]);
    PortReturns(x.port);
    TrimNothing(v[4]);
    EmptyExport();
    DescriptionReturns(x.description);
    TagsReturn(x.tags);
  }

  /** The columns by name. */
  lemma Named(h: Header, row: seq<string>, v: seq<string>)
    requires |v| == |COLUMNS| && forall i :: 0 <= i < |COLUMNS| ==> Field(h, row, COLUMNS[i]) == Trim(v[i])
    ensures CellsOf(h, row) == RowCells(Trim(v[0]), Trim(v[1]), Trim(v[2]), Trim(v[3]), Trim(v[4]), Trim(v[5]), Trim(v[6]),
                                        Trim(v[7]), Trim(v[8]), Trim(v[9]), Trim(v[10]))
  {
    hide Field, Trim;
    assert COLUMNS[0] == "name" && COLUMNS[1] == "folder" && COLUMNS[2] == "protocol" && COLUMNS[3] == "host";
    assert COLUMNS[4] == "port" && COLUMNS[5] == "username" && COLUMNS[6] == "domain" && COLUMNS[7] == "password";
    assert COLUMNS[8] == "description" && COLUMNS[9] == "tags" && COLUMNS[10] == "gateway";
  }

  lemma {:induction false} NameReturns(name: string)
    requires ValidateName(name).None?
    ensures CleanName(Trim(name)) == Trim(name)
  {
    CleanAgain(name);
  }

  lemma DescriptionReturns(description: string)
    requires |description| <= MAX_DESCRIPTION_LEN
    ensures CleanDescription(Trim(description)) == Trim(description)
  {
  }
}
