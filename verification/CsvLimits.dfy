/** Two files the importer accepts and the domain model does not. */
module CsvLimits {
  import opened Base
  import opened Inheritance
  import opened Nodes
  import opened Text
  import opened Validation
  import opened Mapping
  import opened Previews
  import opened Interning
  import opened CsvText
  import opened CsvRows
  import opened CsvFolders
  import opened CsvImport
  import opened CsvParse
  import opened CsvAcceptance

  /** `Limits::new` (crates/remoter-import/src/limits.rs:46-59), the fields the CSV importer reads. */
  const DEFAULT_LIMITS := Limits(64, 200_000, 65_536, 100_000, 128)

  /** `Limits::small` (crates/remoter-import/src/limits.rs:66-80), which the fuzz targets use. */
  const SMALL_LIMITS := Limits(16, 2_000, 4_096, 2_000, 16)

  const HEADER := ["name", "host", "folder", "password"]

  function Repeat(n: nat): string {
    if n == 0 then "" else "a" + Repeat(n - 1)
  }

  /** a/a/…/a. */
  function Deep(n: nat): string
    requires n > 0
  {
    if n == 1 then "a" else "a" + "/" + Deep(n - 1)
  }

  lemma {:induction false} RepeatIs(n: nat)
    ensures |Repeat(n)| == n && forall i :: 0 <= i < n ==> Repeat(n)[i] == 'a'
  {
    if n > 0 {
      RepeatIs(n - 1);
    }
  }

  lemma {:induction false} DeepIs(n: nat)
    requires n > 0
    ensures |Deep(n)| == 2 * n - 1 && Deep(n)[0] == 'a' && Deep(n)[2 * n - 2] == 'a'
    ensures forall i :: 0 <= i < |Deep(n)| ==> Deep(n)[i] in "a/"
    ensures Split(Deep(n), '/') == seq(n, _ => "a")
  {
    if n > 1 {
      DeepIs(n - 1);
      assert "a" + "/" + Deep(n - 1) == "a" + ['/'] + Deep(n - 1);
      SplitWord("a", Deep(n - 1), '/');
      assert seq(n, _ => "a") == ["a"] + seq(n - 1, _ => "a");
    } else {
      SplitAlone("a", '/');
    }
  }

  lemma {:induction false} CleanLevels(n: nat)
    ensures |CleanPieces(seq(n, _ => "a"))| == n
  {
    hide CleanName;
    if n > 0 {
      CleanLevels(n - 1);
      assert seq(n, _ => "a")[..n - 1] == seq(n - 1, _ => "a");
      CleanIsSame("a");
    }
  }

  lemma {:induction false} CleanIsSame(s: string)
    requires |s| <= MAX_NAME_LEN && forall i :: 0 <= i < |s| ==> s[i] == 'a'
    ensures CleanName(s) == s
  {
    assert !HasControl(s);
    TrimNothing(s);
  }

  lemma ValueIsSame(s: string)
    requires s != [] && s[0] in "ah" && !IsWhitespace(s[|s| - 1])
    ensures FieldValue(s) == s
  {
    hide Trim, FormulaLike;
    TrimNothing(s);
  }

  lemma {:induction false} HeaderIs()
    ensures ColumnsOf(HEADER, |HEADER|) == map["name" := 0, "host" := 1, "folder" := 2, "password" := 3] && UnknownColumns(HEADER, |HEADER|) == []
  {
    hide ColumnName;
    forall i | 0 <= i < 4 ensures ColumnName(HEADER[i]) == HEADER[i] && HEADER[i] != "" && HEADER[i] in COLUMNS {
      ColumnIsSame(HEADER[i]);
    }
    ColumnsStep(HEADER, 1);
    ColumnsStep(HEADER, 2);
    ColumnsStep(HEADER, 3);
    ColumnsStep(HEADER, 4);
  }

  lemma ColumnsStep(cells: seq<string>, k: nat)
    requires 0 < k <= |cells| && ColumnName(cells[k - 1]) == cells[k - 1] != "" && cells[k - 1] in COLUMNS
    ensures ColumnsOf(cells, 0) == map[] && UnknownColumns(cells, 0) == []
    ensures ColumnsOf(cells, k) == ColumnsOf(cells, k - 1)[cells[k - 1] := k - 1] && UnknownColumns(cells, k) == UnknownColumns(cells, k - 1)
  {
    hide ColumnName;
  }

  /** One row: a name of some length, a folder of some depth, a password and no account. */
  function Table(length: nat, depth: nat): (rows: seq<seq<string>>)
    requires depth > 0
    ensures forall i :: 0 <= i < |rows| ==> rows[i] != []
  {
    [HEADER, [Repeat(length), "h", Deep(depth), "p"]]
  }

  lemma {:induction false} RowIs(length: nat, depth: nat, maxFields: nat)
    requires 0 < length <= MAX_NAME_LEN && depth > 0
    ensures var w := Want(HEADER, HeaderOf(HEADER), Table(length, depth)[1], maxFields);
            && w.Some? && w.value.name == Repeat(length) && |w.value.path| == depth
            && w.value.account == Some(Identity("", None, Plaintext("p"), ["ssh"]))
  {
    hide Field, FieldValue, Trim, CleanName, CleanPieces, ValidateHost, ValidProtocolId, ColumnsOf, UnknownColumns, ParsePort, CleanTags, Split, Deep, Repeat, CleanDescription;
    var h, row := HeaderOf(HEADER), Table(length, depth)[1];
    HeaderIs();
    OneLetterHost();
    RepeatIs(length);
    DeepIs(depth);
    ValueIsSame(Repeat(length));
    ValueIsSame("h");
    ValueIsSame(Deep(depth));
    CleanIsSame(Repeat(length));
    CleanLevels(depth);
    TrimNothing("p");
    CellOf(h, row, "name");
    CellOf(h, row, "host");
    CellOf(h, row, "folder");
    CellOf(h, row, "password");
    CellOf(h, row, "username");
    CellOf(h, row, "domain");
    CellOf(h, row, "protocol");
    assert CellsOf(h, row).name == Repeat(length) && CellsOf(h, row).host == "h" && CellsOf(h, row).folder == Deep(depth);
  }

  lemma {:induction false} AsciiLength(s: string)
    requires forall i :: 0 <= i < |s| ==> s[i] < '\U{80}'
    ensures Utf8Length(s) == |s|
  {
    if s != [] {
      AsciiLength(s[..|s| - 1]);
    }
  }

  function FileOf(length: nat, depth: nat): string
    requires depth > 0
  {
    Lines(Table(length, depth), "\n", ',')
  }

  /** Limits that have room for the file. */
  predicate RoomFor(limits: Limits, length: nat, depth: nat) {
    && 0 < length <= MAX_NAME_LEN && 0 < depth <= limits.maxDepth
    && limits.maxItems >= 2 && limits.maxValueBytes >= 2 * depth + MAX_NAME_LEN && limits.maxNodes >= depth + 3
  }

  /** The reader gets the table back, and it has one usable row. */
  lemma {:induction false} FileAsks(limits: Limits, length: nat, depth: nat)
    requires RoomFor(limits, length, depth)
    ensures ReadAll(FileOf(length, depth), limits) == Ok(Table(length, depth))
    ensures var wants := Asked(FileOf(length, depth), limits);
            && |wants| == 1 && wants[0].name == Repeat(length) && |wants[0].path| == depth
            && wants[0].account == Some(Identity("", None, Plaintext("p"), ["ssh"]))
  {
    hide Lines, Word, Within, Deep, Repeat, Want, HeaderOf, ReadAll;
    var rows := Table(length, depth);
    HeaderIsWords();
    WordHeaderTells(rows, "\n", ',');
    CellsFit(limits, length, depth);
    ReadUndoesPrint(rows, "\n", ',', limits);
    RowIs(length, depth, limits.maxCustomFields);
    assert rows[1..] == [rows[1]];
    OneWant(HEADER, rows[1], limits.maxCustomFields);
  }

  lemma OneWant(cells: seq<string>, row: seq<string>, maxFields: nat)
    ensures var w := Want(cells, HeaderOf(cells), row, maxFields);
            Wants(cells, [row], maxFields) == if w.Some? then [w.value] else []
  {
    hide Want, HeaderOf;
    assert [row][..0] == [];
  }

  lemma HeaderIsWords()
    ensures forall i :: 0 <= i < |HEADER| ==> Word(HEADER[i])
  {
  }

  lemma {:induction false} CellsFit(limits: Limits, length: nat, depth: nat)
    requires RoomFor(limits, length, depth)
    ensures forall i, j :: 0 <= i < 2 && 0 <= j < |Table(length, depth)[i]| ==> Within(Table(length, depth)[i][j], limits)
  {
    hide Deep, Repeat, Utf8Length;
    RepeatIs(length);
    DeepIs(depth);
    var rows := Table(length, depth);
    forall i, j | 0 <= i < 2 && 0 <= j < |rows[i]| ensures Within(rows[i][j], limits) {
      AsciiLength(rows[i][j]);
    }
  }

  lemma {:induction false} HeaderHasNoFault()
    ensures forall e :: !HeaderFault(HEADER, e)
  {
    hide ColumnName, HeaderFault, Locates;
    HeaderIs();
    forall i | 0 <= i < 4 ensures ColumnName(HEADER[i]) == HEADER[i] {
      ColumnIsSame(HEADER[i]);
    }
    HeaderLocates(ColumnsOf(HEADER, |HEADER|));
    NoHeaderFault(ColumnsOf(HEADER, |HEADER|), HEADER);
  }

  lemma HeaderLocates(columns: map<string, nat>)
    requires columns == map["name" := 0, "host" := 1, "folder" := 2, "password" := 3]
    requires forall i :: 0 <= i < 4 ==> ColumnName(HEADER[i]) == HEADER[i]
    ensures Locates(columns, HEADER, |HEADER|)
  {
    hide ColumnName;
  }

  /** One row needs its folders, its connection, and a credential in the pool's folder. */
  lemma {:induction false} OneRowNeeds(wants: seq<Wanted>, digest: Digest)
    requires |wants| == 1 && wants[0].account.Some?
    ensures NodesNeeded(wants, digest) <= |wants[0].path| + 3
  {
    hide PrefixKeys, Opens;
    assert wants == [] + [wants[0]] && wants[..0] == [];
    NeededNext([], wants[0], digest);
    KeysBound(wants[0].path, |wants[0].path|);
    assert wants[0].path[..|wants[0].path|] == wants[0].path;
    assert PrefixKeys(wants[0].path) - {} == PrefixKeys(wants[0].path);
    assert NodesNeeded([], digest) == 0;
  }

  lemma {:induction false} KeysBound(path: seq<string>, k: nat)
    requires k <= |path|
    ensures |PrefixKeys(path[..k])| <= k
  {
    hide PrefixOf;
    if k > 0 {
      KeysBound(path, k - 1);
      assert path[..k] == path[..k - 1] + [path[k - 1]];
      PrefixKeysSnoc(path[..k - 1], path[k - 1]);
    } else {
      assert PrefixKeys(path[..0]) == {};
    }
  }

  /** There is nothing in the file for the parse to refuse. */
  lemma {:induction false} FileParses(limits: Limits, digest: Digest, length: nat, depth: nat)
    requires RoomFor(limits, length, depth)
    ensures forall e :: !ParseFault(FileOf(length, depth), limits, digest, e)
  {
    hide Lines, Deep, Repeat, HeaderFault, ReadAll, NodesNeeded, FileOf, Wants;
    FileAsks(limits, length, depth);
    HeaderHasNoFault();
    var wants := Asked(FileOf(length, depth), limits);
    OneRowNeeds(wants, digest);
    forall e ensures !ParseFault(FileOf(length, depth), limits, digest, e) {
      NoRowsFault(wants, limits, digest, e);
    }
  }

  /**
   The default depth limit is one too many: this file parses, and no preview of it is a tree,
   because its connection is one level too deep.
   */
  lemma {:induction false} DefaultDepthMissesByOne(digest: Digest)
    ensures forall e :: !ParseFault(FileOf(1, 64), DEFAULT_LIMITS, digest, e)
    ensures forall nodes, now, seal: Seal ::
              PreviewOf(FileOf(1, 64), DEFAULT_LIMITS, digest, nodes) && (forall id :: seal(id) != []) ==> !Accepted(nodes, now, seal)
  {
    hide PreviewOf, Accepted, ParseFault, FileOf, Asked, Repeat;
    FileParses(DEFAULT_LIMITS, digest, 1, 64);
    FileAsks(DEFAULT_LIMITS, 1, 64);
    assert !Shallow(Asked(FileOf(1, 64), DEFAULT_LIMITS));
    forall nodes, now, seal: Seal | PreviewOf(FileOf(1, 64), DEFAULT_LIMITS, digest, nodes) && (forall id :: seal(id) != [])
      ensures !Accepted(nodes, now, seal)
    {
      PreviewAccepted(FileOf(1, 64), DEFAULT_LIMITS, digest, nodes, now, seal);
    }
  }

  lemma {:induction false} SuffixTooLong(wants: seq<Wanted>, digest: Digest)
    requires |wants| == 1 && wants[0].name == Repeat(244) && wants[0].account == Some(Identity("", None, Plaintext("p"), ["ssh"]))
    ensures Overlong(wants, digest)
  {
    hide Repeat, Trim, KeyOf;
    assert wants[..0] == [];
    RepeatIs(244);
    TrimNothing(Repeat(244));
    assert Calls(wants) == [wants[0].account.value] && Callers(wants) == [wants[0].name];
    assert Overflows(wants, digest, 0);
  }

  /**
   A row with a password, no account and a name of 244 characters: the file parses under any limits that
   have room for it, the fuzz targets' and the default ones among them, and no preview of it is accepted.
   */
  lemma {:induction false} SuffixOverflows(limits: Limits, digest: Digest)
    requires RoomFor(limits, 244, 1)
    ensures forall e :: !ParseFault(FileOf(244, 1), limits, digest, e)
    ensures forall nodes, now, seal: Seal ::
              PreviewOf(FileOf(244, 1), limits, digest, nodes) && (forall id :: seal(id) != []) ==> !Accepted(nodes, now, seal)
    ensures RoomFor(SMALL_LIMITS, 244, 1) && RoomFor(DEFAULT_LIMITS, 244, 1)
  {
    hide PreviewOf, Accepted, ParseFault, FileOf, Asked, Repeat, Overlong;
    FileParses(limits, digest, 244, 1);
    FileAsks(limits, 244, 1);
    SuffixTooLong(Asked(FileOf(244, 1), limits), digest);
    forall nodes, now, seal: Seal | PreviewOf(FileOf(244, 1), limits, digest, nodes) && (forall id :: seal(id) != [])
      ensures !Accepted(nodes, now, seal)
    {
      PreviewAccepted(FileOf(244, 1), limits, digest, nodes, now, seal);
    }
  }
}
