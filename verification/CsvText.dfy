/**
 The CSV reader (crates/remoter-import/src/csv.rs:323-487) against the two printers whose output
 it has to read back: the audit log's (crates/remoter-ipc/src/audit.rs:340-404) and the
 exporter's (crates/remoter-import/src/export/csv.rs:164-202). The format is section 2 of RFC 4180.
 */
module CsvText {
  import opened Base
  import opened Text

  datatype Limits = Limits(maxDepth: nat, maxItems: nat, maxValueBytes: nat, maxNodes: nat, maxCustomFields: nat)

  datatype ReadError = ValueTooLong | TooManyItems | Truncated

  /** What the reader has built so far, and which of its states it is in. */
  datatype Reader = Reader(records: seq<seq<string>>, record: seq<string>, field: string, quoted: bool, started: bool)

  const START := Reader([], [], "", false, false)

  function EndField(st: Reader): Reader {
    st.(record := st.record + [st.field], field := "", started := false)
  }

  function EndRecord(st: Reader): Reader {
    var done := EndField(st);
    done.(records := st.records + [done.record], record := [])
  }

  /** One character outside quotes. */
  function Plain(st: Reader, c: char, delimiter: char, limits: Limits): Result<Reader, ReadError> {
    if c == '"' && !st.started then Ok(st.(quoted := true, started := true))
    else if c == delimiter then Ok(EndField(st))
    else if c == '\r' then Ok(st)
    else if c == '\n' then if |st.records| >= limits.maxItems then Err(TooManyItems) else Ok(EndRecord(st))
    else if Utf8Length(st.field + [c]) > limits.maxValueBytes then Err(ValueTooLong)
    else Ok(st.(field := st.field + [c], started := true))
  }

  /** One character inside quotes; `pair` says that a quote is followed by another. */
  function Quoted(st: Reader, c: char, pair: bool, limits: Limits): Result<Reader, ReadError> {
    var next := if c == '"' && !pair then st.(quoted := false) else st.(field := st.field + [c]);
    if Utf8Length(next.field) > limits.maxValueBytes then Err(ValueTooLong) else Ok(next)
  }

  predicate PairAt(text: string) {
    |text| > 1 && text[0] == '"' && text[1] == '"'
  }

  function Scan(text: string, st: Reader, delimiter: char, limits: Limits): Result<Reader, ReadError>
    decreases |text|
  {
    if text == [] then Ok(st)
    else if st.quoted then
      match Quoted(st, text[0], PairAt(text), limits)
      case Err(e) => Err(e)
      case Ok(next) => Scan(if PairAt(text) then text[2..] else text[1..], next, delimiter, limits)
    else
      match Plain(st, text[0], delimiter, limits)
      case Err(e) => Err(e)
      case Ok(next) => Scan(text[1..], next, delimiter, limits)
  }

  function Finish(st: Reader): Result<seq<seq<string>>, ReadError> {
    if st.quoted then Err(Truncated)
    else if st.started || st.record != [] then Ok(EndRecord(st).records)
    else Ok(st.records)
  }

  /** The text up to its first line break. */
  function HeaderLine(text: string): string {
    if text == [] || text[0] == '\n' then [] else [text[0]] + HeaderLine(text[1..])
  }

  /** The candidate that occurs most often in the header, the last of equals; a comma when none does. */
  function Delimiter(text: string): char {
    var header := HeaderLine(text);
    var commas, semicolons, tabs := Count(header, ','), Count(header, ';'), Count(header, '\t');
    if commas == 0 && semicolons == 0 && tabs == 0 then ','
    else if tabs >= commas && tabs >= semicolons then '\t'
    else if semicolons >= commas then ';'
    else ','
  }

  function ReadAll(text: string, limits: Limits): Result<seq<seq<string>>, ReadError> {
    match Scan(text, START, Delimiter(text), limits)
    case Ok(st) => Finish(st)
    case Err(e) => Err(e)
  }

  /** `read`: one pass with one character of lookahead. */
  method Read(text: string, limits: Limits) returns (r: Result<seq<seq<string>>, ReadError>)
    ensures r == ReadAll(text, limits)
  {
    hide Plain, Quoted, Delimiter, Finish, PairAt;
    var delimiter := Delimiter(text);
    var st, i := START, 0;
    assert text[0..] == text;
    while i < |text|
      invariant 0 <= i <= |text|
      invariant Scan(text[i..], st, delimiter, limits) == Scan(text, START, delimiter, limits)
    {
      var pair := st.quoted && PairAt(text[i..]);
      var next := if st.quoted then Quoted(st, text[i], pair, limits) else Plain(st, text[i], delimiter, limits);
      PairIsTwo(text, i);
      assert text[i..][1..] == text[i + 1..] && (pair ==> text[i..][2..] == text[i + 2..]);
      if next.Err? {
        return Err(next.error);
      }
      st, i := next.value, if pair then i + 2 else i + 1;
    }
    return Finish(st);
  }

  lemma PairIsTwo(text: string, i: nat)
    requires i < |text|
    ensures PairAt(text[i..]) ==> i + 2 <= |text|
  {
  }

  // The delimiter.

  predicate IsDelimiter(d: char) {
    d == ',' || d == ';' || d == '\t'
  }

  /** Where a candidate stands among equals: the later one wins. */
  function Rank(d: char): nat {
    if d == ',' then 0 else if d == ';' then 1 else 2
  }

  /**
   The delimiter is a candidate that no other outnumbers in the first line, and among equals the last of comma,
   semicolon and tab; without any of them it is a comma.
   */
  lemma DelimiterIsCommonest(text: string, other: char)
    requires IsDelimiter(other) && other != Delimiter(text)
    ensures var line, d := HeaderLine(text), Delimiter(text);
            && IsDelimiter(d)
            && (Count(line, other) < Count(line, d) || (Count(line, other) == Count(line, d) && (Rank(other) < Rank(d) || Count(line, d) == 0)))
            && (d != ',' ==> Count(line, d) > 0)
  {
    hide HeaderLine, Count;
  }

  // Printing.

  predicate Special(s: string, d: char) {
    d in s || '"' in s || '\n' in s || '\r' in s
  }

  function Doubled(s: string): string {
    if s == [] then [] else (if s[0] == '"' then "\"\"" else [s[0]]) + Doubled(s[1..])
  }

  /** The text of a cell: in quotes if anything in it would end it early. */
  function Cell(content: string, d: char): string {
    if Special(content, d) then "\"" + Doubled(content) + "\"" else content
  }

  function Cells(row: seq<string>, d: char): string
    requires row != []
  {
    if |row| == 1 then Cell(row[0], d) else Cell(row[0], d) + [d] + Cells(row[1..], d)
  }

  function Lines(rows: seq<seq<string>>, ending: string, d: char): string
    requires forall i :: 0 <= i < |rows| ==> rows[i] != []
  {
    if rows == [] then [] else Cells(rows[0], d) + ending + Lines(rows[1..], ending, d)
  }

  predicate IsLineEnding(ending: string) {
    ending == "\n" || ending == "\r\n"
  }

  predicate Within(content: string, limits: Limits) {
    Utf8Length(content) <= limits.maxValueBytes
  }

  // Reading back one field.

  lemma {:induction false} Utf8Prefix(a: string, b: string)
    ensures Utf8Length(a) <= Utf8Length(a + b)
    decreases |b|
  {
    if b == [] {
      assert a + b == a;
    } else {
      Utf8Prefix(a, b[..|b| - 1]);
      assert (a + b)[..|a + b| - 1] == a + b[..|b| - 1];
    }
  }

  lemma PlainStep(text: string, st: Reader, next: Reader, d: char, limits: Limits)
    requires text != [] && !st.quoted && Plain(st, text[0], d, limits) == Ok(next)
    ensures Scan(text, st, d, limits) == Scan(text[1..], next, d, limits)
  {
    hide Plain;
  }

  /** Text that an unquoted field may hold: no delimiter and no line break, and no quote to start with. */
  predicate Loose(s: string, started: bool, d: char) {
    d !in s && '\n' !in s && '\r' !in s && (started || s == [] || s[0] != '"')
  }

  lemma PlainChar(st: Reader, c: char, d: char, limits: Limits)
    requires c != d && c != '\r' && c != '\n' && (st.started || c != '"')
    ensures Plain(st, c, d, limits)
            == if Utf8Length(st.field + [c]) <= limits.maxValueBytes then Ok(st.(field := st.field + [c], started := true)) else Err(ValueTooLong)
  {
    hide Utf8Length;
  }

  /** Unquoted text is taken as it is, quotes inside it included, or is too long. */
  lemma {:induction false} PlainScanned(s: string, rest: string, st: Reader, d: char, limits: Limits)
    requires !st.quoted && Loose(s, st.started, d) && Within(st.field, limits)
    ensures Scan(s + rest, st, d, limits)
            == if Within(st.field + s, limits) then Scan(rest, st.(field := st.field + s, started := st.started || s != []), d, limits)
               else Err(ValueTooLong)
    decreases |s|
  {
    hide Plain, Utf8Length;
    if s == [] {
      assert s + rest == rest && st.field + s == st.field;
    } else {
      var next := st.(field := st.field + [s[0]], started := true);
      assert (s + rest)[1..] == s[1..] + rest && (s + rest)[0] == s[0];
      assert st.field + s == next.field + s[1..];
      Utf8Prefix(next.field, s[1..]);
      assert s[0] in s;
      PlainChar(st, s[0], d, limits);
      if Within(next.field, limits) {
        PlainScanned(s[1..], rest, next, d, limits);
      }
    }
  }

  /** Quoted text is taken as it is, up to its closing quote, or is too long. */
  lemma {:induction false} QuotedScanned(s: string, rest: string, st: Reader, d: char, limits: Limits)
    requires st.quoted && (rest == [] || rest[0] != '"') && Within(st.field, limits)
    ensures Scan(Doubled(s) + "\"" + rest, st, d, limits)
            == if Within(st.field + s, limits) then Scan(rest, st.(field := st.field + s, quoted := false), d, limits) else Err(ValueTooLong)
    decreases |s|
  {
    hide Utf8Length;
    var text := Doubled(s) + "\"" + rest;
    if s == [] {
      assert text == "\"" + rest && text[1..] == rest && st.field + s == st.field;
      assert Quoted(st, text[0], PairAt(text), limits) == Ok(st.(quoted := false));
    } else {
      var next := st.(field := st.field + [s[0]]);
      assert st.field + s == next.field + s[1..];
      Utf8Prefix(next.field, s[1..]);
      QuotedStep(s, rest);
      if Within(next.field, limits) {
        QuotedScanned(s[1..], rest, next, d, limits);
        assert Quoted(st, text[0], PairAt(text), limits) == Ok(next);
      } else {
        assert Quoted(st, text[0], PairAt(text), limits) == Err(ValueTooLong);
      }
    }
  }

  /** A doubled quote takes two characters, anything else one. */
  lemma QuotedStep(s: string, rest: string)
    requires s != []
    ensures var text := Doubled(s) + "\"" + rest;
            && text != [] && text[0] == s[0] && (PairAt(text) <==> s[0] == '"')
            && (if PairAt(text) then text[2..] else text[1..]) == Doubled(s[1..]) + "\"" + rest
  {
    var text := Doubled(s) + "\"" + rest;
    var tail := Doubled(s[1..]) + "\"" + rest;
    if s[0] == '"' {
      assert text == "\"\"" + tail;
    } else {
      assert text == [s[0]] + tail;
    }
  }

  lemma {:induction false} CellScanned(content: string, rest: string, st: Reader, d: char, limits: Limits)
    requires IsDelimiter(d) && !st.quoted && !st.started && st.field == "" && (rest == [] || rest[0] != '"')
    ensures Scan(Cell(content, d) + rest, st, d, limits)
            == if Within(content, limits) then Scan(rest, st.(field := content, started := content != []), d, limits) else Err(ValueTooLong)
  {
    hide Scan, Doubled, Utf8Length, Cell, Special, Plain;
    assert st.field + content == content;
    NothingFits(limits);
    if Special(content, d) {
      var open := st.(quoted := true, started := true);
      OpenQuote(content, rest, st, d, limits);
      PlainStep(Cell(content, d) + rest, st, open, d, limits);
      QuotedScanned(content, rest, open, d, limits);
    } else {
      PlainCell(content, d);
      PlainScanned(content, rest, st, d, limits);
    }
  }

  lemma NothingFits(limits: Limits)
    ensures Within("", limits)
  {
  }

  lemma PlainCell(content: string, d: char)
    requires !Special(content, d)
    ensures Cell(content, d) == content && Loose(content, false, d)
  {
  }

  lemma OpenQuote(content: string, rest: string, st: Reader, d: char, limits: Limits)
    requires Special(content, d) && IsDelimiter(d) && !st.started
    ensures var text := Cell(content, d) + rest;
            && text != [] && text[1..] == Doubled(content) + "\"" + rest && content != []
            && Plain(st, text[0], d, limits) == Ok(st.(quoted := true, started := true))
  {
    hide Doubled, Utf8Length;
    assert Cell(content, d) + rest == "\"" + (Doubled(content) + "\"" + rest);
  }

  // Reading back rows.

  ghost predicate CellsFit(row: seq<string>, limits: Limits) {
    forall i :: 0 <= i < |row| ==> Within(row[i], limits)
  }

  lemma {:induction false} CellsScanned(row: seq<string>, rest: string, st: Reader, d: char, limits: Limits)
    requires IsDelimiter(d) && row != [] && !st.quoted && !st.started && st.field == "" && (rest == [] || rest[0] != '"')
    ensures var last := row[|row| - 1];
            Scan(Cells(row, d) + rest, st, d, limits)
            == if CellsFit(row, limits) then Scan(rest, st.(record := st.record + row[..|row| - 1], field := last, started := last != []), d, limits)
               else Err(ValueTooLong)
    decreases |row|
  {
    hide Within, Cell, Scan;
    if |row| == 1 {
      CellScanned(row[0], rest, st, d, limits);
      assert st.record + row[..0] == st.record;
    } else {
      var more := [d] + Cells(row[1..], d) + rest;
      assert Cells(row, d) + rest == Cell(row[0], d) + more;
      CellScanned(row[0], more, st, d, limits);
      FitsStep(row, limits);
      if Within(row[0], limits) {
        var at := st.(field := row[0], started := row[0] != []);
        assert more[0] == d && more[1..] == Cells(row[1..], d) + rest;
        DelimiterStep(at, d, limits);
        PlainStep(more, at, EndField(at), d, limits);
        CellsScanned(row[1..], rest, EndField(at), d, limits);
        assert st.record + [row[0]] + row[1..][..|row| - 2] == st.record + row[..|row| - 1];
      }
    }
  }

  lemma FitsStep(row: seq<string>, limits: Limits)
    requires row != []
    ensures CellsFit(row, limits) <==> Within(row[0], limits) && CellsFit(row[1..], limits)
  {
    hide Within;
    assert forall i :: 0 < i < |row| ==> row[1..][i - 1] == row[i];
  }

  lemma DelimiterStep(st: Reader, d: char, limits: Limits)
    requires IsDelimiter(d)
    ensures Plain(st, d, d, limits) == Ok(EndField(st))
  {
  }

  lemma {:induction false} LineScanned(row: seq<string>, ending: string, rest: string, records: seq<seq<string>>, d: char, limits: Limits)
    requires IsDelimiter(d) && row != [] && IsLineEnding(ending)
    ensures Scan(Cells(row, d) + ending + rest, START.(records := records), d, limits)
            == if !CellsFit(row, limits) then Err(ValueTooLong)
               else if |records| >= limits.maxItems then Err(TooManyItems)
               else Scan(rest, START.(records := records + [row]), d, limits)
  {
    hide CellsFit, Cells, Scan;
    var st, more := START.(records := records), ending + rest;
    assert Cells(row, d) + ending + rest == Cells(row, d) + more;
    CellsScanned(row, more, st, d, limits);
    var last := row[|row| - 1];
    var at := st.(record := row[..|row| - 1], field := last, started := last != []);
    assert st.record + row[..|row| - 1] == row[..|row| - 1];
    assert row[..|row| - 1] + [last] == row;
    BreakScanned(ending, rest, at, d, limits);
  }

  /** A line break ends the record, with or without a carriage return before it. */
  lemma BreakScanned(ending: string, rest: string, at: Reader, d: char, limits: Limits)
    requires IsDelimiter(d) && IsLineEnding(ending) && !at.quoted
    ensures Scan(ending + rest, at, d, limits)
            == if |at.records| >= limits.maxItems then Err(TooManyItems) else Scan(rest, EndRecord(at), d, limits)
  {
    assert ("\n" + rest)[1..] == rest;
    if ending == "\r\n" {
      assert (ending + rest)[1..] == "\n" + rest;
      PlainStep(ending + rest, at, at, d, limits);
    }
  }

  ghost predicate RowsFit(rows: seq<seq<string>>, limits: Limits) {
    forall i :: 0 <= i < |rows| ==> CellsFit(rows[i], limits)
  }

  /**
   What becomes of printed rows: they are read as they are, or the first row that is one too many, or has a
   value that is too long, is reported.
   */
  ghost function Reading(rows: seq<seq<string>>, records: seq<seq<string>>, limits: Limits): Result<seq<seq<string>>, ReadError>
    decreases |rows|
  {
    if rows == [] then Ok(records)
    else if !CellsFit(rows[0], limits) then Err(ValueTooLong)
    else if |records| >= limits.maxItems then Err(TooManyItems)
    else Reading(rows[1..], records + [rows[0]], limits)
  }

  lemma {:induction false} ReadingExact(rows: seq<seq<string>>, records: seq<seq<string>>, limits: Limits)
    ensures Reading(rows, records, limits) == Ok(records + rows) <==> RowsFit(rows, limits) && (rows == [] || |records| + |rows| <= limits.maxItems)
    ensures Reading(rows, records, limits).Ok? ==> Reading(rows, records, limits) == Ok(records + rows)
    ensures Reading(rows, records, limits) == Err(ValueTooLong) ==> !RowsFit(rows, limits)
    ensures Reading(rows, records, limits) != Err(Truncated)
    ensures Reading(rows, records, limits) == Err(TooManyItems) ==> |records| + |rows| > limits.maxItems
    decreases |rows|
  {
    hide CellsFit;
    if rows == [] {
      assert records + rows == records;
    } else {
      ReadingExact(rows[1..], records + [rows[0]], limits);
      assert records + [rows[0]] + rows[1..] == records + rows;
      assert forall i :: 0 < i < |rows| ==> rows[1..][i - 1] == rows[i];
    }
  }

  lemma {:induction false} LinesScanned(rows: seq<seq<string>>, ending: string, rest: string, records: seq<seq<string>>, d: char, limits: Limits)
    requires IsDelimiter(d) && IsLineEnding(ending)
    requires forall i :: 0 <= i < |rows| ==> rows[i] != []
    ensures Scan(Lines(rows, ending, d) + rest, START.(records := records), d, limits)
            == match Reading(rows, records, limits)
               case Ok(all) => Scan(rest, START.(records := all), d, limits)
               case Err(e) => Err(e)
    decreases |rows|
  {
    hide CellsFit, Cells, Scan;
    if rows == [] {
      assert Lines(rows, ending, d) + rest == rest;
    } else {
      var more := Lines(rows[1..], ending, d) + rest;
      assert Lines(rows, ending, d) + rest == Cells(rows[0], d) + ending + more;
      LineScanned(rows[0], ending, more, records, d, limits);
      LinesScanned(rows[1..], ending, rest, records + [rows[0]], d, limits);
    }
  }

  /**
   The reader undoes the printer: rows of arbitrary text, printed under a header that uses the delimiter, come
   back as they are if and only if they are within the limits, and otherwise a limit is what is reported.
   */
  lemma {:induction false} ReadUndoesPrint(rows: seq<seq<string>>, ending: string, d: char, limits: Limits)
    requires IsLineEnding(ending) && forall i :: 0 <= i < |rows| ==> rows[i] != []
    requires Delimiter(Lines(rows, ending, d)) == d
    ensures ReadAll(Lines(rows, ending, d), limits) == Ok(rows) <==> |rows| <= limits.maxItems && RowsFit(rows, limits)
    ensures ReadAll(Lines(rows, ending, d), limits) == Err(ValueTooLong) ==> !RowsFit(rows, limits)
    ensures ReadAll(Lines(rows, ending, d), limits) == Err(TooManyItems) ==> |rows| > limits.maxItems
    ensures ReadAll(Lines(rows, ending, d), limits).Ok? ==> ReadAll(Lines(rows, ending, d), limits) == Ok(rows)
    ensures ReadAll(Lines(rows, ending, d), limits) != Err(Truncated)
  {
    hide RowsFit, Delimiter, Lines, Reading;
    DelimiterIsOne(Lines(rows, ending, d));
    LinesScanned(rows, ending, "", [], d, limits);
    ReadingExact(rows, [], limits);
    assert Lines(rows, ending, d) + "" == Lines(rows, ending, d);
    assert [] + rows == rows && START.(records := []) == START;
  }

  lemma DelimiterIsOne(text: string)
    ensures IsDelimiter(Delimiter(text))
  {
  }

  /** The last line needs no line break, unless there is nothing else to tell that it is there. */
  lemma {:induction false} LastBreakOptional(rows: seq<seq<string>>, last: seq<string>, ending: string, d: char, limits: Limits)
    requires IsLineEnding(ending) && (forall i :: 0 <= i < |rows| ==> rows[i] != []) && last != []
    requires Delimiter(Lines(rows, ending, d) + Cells(last, d)) == d
    requires |rows| <= limits.maxItems && RowsFit(rows, limits) && CellsFit(last, limits)
    ensures ReadAll(Lines(rows, ending, d) + Cells(last, d), limits) == Ok(if last == [""] then rows else rows + [last])
  {
    hide CellsFit, Delimiter, Lines, Cells, Reading, RowsFit;
    var text := Lines(rows, ending, d) + Cells(last, d);
    DelimiterIsOne(text);
    LinesScanned(rows, ending, Cells(last, d), [], d, limits);
    ReadingExact(rows, [], limits);
    assert [] + rows == rows && START.(records := []) == START;
    var st := START.(records := rows);
    CellsScanned(last, "", st, d, limits);
    assert Cells(last, d) + "" == Cells(last, d);
    var end := last[|last| - 1];
    var at := st.(record := [] + last[..|last| - 1], field := end, started := end != []);
    ScanNothing(at, d, limits);
    assert [] + last[..|last| - 1] + [end] == last;
  }

  lemma ScanNothing(st: Reader, d: char, limits: Limits)
    ensures Scan("", st, d, limits) == Ok(st)
  {
  }

  lemma {:induction false} UnclosedScanned(s: string, st: Reader, d: char, limits: Limits)
    requires st.quoted && Within(st.field + s, limits)
    ensures Scan(Doubled(s), st, d, limits) == Ok(st.(field := st.field + s))
    decreases |s|
  {
    hide Utf8Length;
    if s == [] {
      assert st.field + s == st.field;
    } else {
      var text, next := Doubled(s), st.(field := st.field + [s[0]]);
      assert st.field + s == next.field + s[1..];
      Utf8Prefix(next.field, s[1..]);
      UnclosedScanned(s[1..], next, d, limits);
      if s[0] == '"' {
        assert text == "\"\"" + Doubled(s[1..]) && PairAt(text) && text[2..] == Doubled(s[1..]);
      } else {
        assert text == [s[0]] + Doubled(s[1..]) && !PairAt(text) && text[1..] == Doubled(s[1..]);
      }
    }
  }

  /** A quote that is never closed is reported, whatever was read before it. */
  lemma {:induction false} UnclosedIsTruncated(rows: seq<seq<string>>, s: string, ending: string, d: char, limits: Limits)
    requires IsLineEnding(ending) && (forall i :: 0 <= i < |rows| ==> rows[i] != [])
    requires Delimiter(Lines(rows, ending, d) + ("\"" + Doubled(s))) == d
    requires |rows| <= limits.maxItems && RowsFit(rows, limits) && Within(s, limits)
    ensures ReadAll(Lines(rows, ending, d) + ("\"" + Doubled(s)), limits) == Err(Truncated)
  {
    hide CellsFit, Delimiter, Lines, Reading, RowsFit, Within, Doubled, Scan;
    var tail := "\"" + Doubled(s);
    DelimiterIsOne(Lines(rows, ending, d) + tail);
    LinesScanned(rows, ending, tail, [], d, limits);
    ReadingExact(rows, [], limits);
    assert [] + rows == rows && START.(records := []) == START;
    var st := START.(records := rows);
    var open := st.(quoted := true, started := true);
    assert tail[0] == '"' && tail[1..] == Doubled(s);
    PlainStep(tail, st, open, d, limits);
    assert open.field + s == s;
    UnclosedScanned(s, open, d, limits);
  }

  // Headers of plain words.

  predicate Word(s: string) {
    s != [] && forall i :: 0 <= i < |s| ==> IsAlphanumeric(s[i])
  }

  lemma {:induction false} CountWord(s: string, c: char)
    requires Word(s) && !IsAlphanumeric(c)
    ensures Count(s, c) == 0
  {
    if |s| > 1 {
      CountWord(s[1..], c);
    } else {
      assert s[1..] == [];
    }
  }

  lemma {:induction false} CountAppend(a: string, b: string, c: char)
    ensures Count(a + b, c) == Count(a, c) + Count(b, c)
  {
    if a == [] {
      assert a + b == b;
    } else {
      CountAppend(a[1..], b, c);
      assert (a + b)[1..] == a[1..] + b;
    }
  }

  lemma {:induction false} WordRow(header: seq<string>, c: char, d: char)
    requires header != [] && (forall i :: 0 <= i < |header| ==> Word(header[i])) && !IsAlphanumeric(c) && IsDelimiter(d)
    ensures Count(Cells(header, d), c) == if c == d then |header| - 1 else 0
    ensures '\n' !in Cells(header, d)
    decreases |header|
  {
    hide IsAlphanumeric, Word;
    WordIsPlain(header[0], d);
    CountWord(header[0], c);
    if |header| > 1 {
      WordRow(header[1..], c, d);
      CountAppend(Cell(header[0], d) + [d], Cells(header[1..], d), c);
      CountAppend(Cell(header[0], d), [d], c);
      CountOne(c, d);
    }
  }

  lemma CountOne(c: char, d: char)
    ensures Count([d], c) == if c == d then 1 else 0
  {
    assert [d][1..] == [];
  }

  lemma WordIsPlain(s: string, d: char)
    requires Word(s) && IsDelimiter(d)
    ensures Cell(s, d) == s && '\n' !in s
  {
  }

  lemma {:induction false} HeaderLineIs(line: string, rest: string)
    requires '\n' !in line && (rest == [] || rest[0] == '\n')
    ensures HeaderLine(line + rest) == line
  {
    if line == [] {
      assert line + rest == rest;
    } else {
      assert line[0] in line;
      HeaderLineIs(line[1..], rest);
      assert (line + rest)[1..] == line[1..] + rest;
    }
  }

  /**
   A table whose header is a row of words is read with the delimiter it was printed with, whatever its other
   rows hold; a header of a single word does not show it, and is read with commas.
   */
  lemma {:induction false} WordHeaderTells(rows: seq<seq<string>>, ending: string, d: char)
    requires rows != [] && (forall i :: 0 <= i < |rows| ==> rows[i] != []) && IsLineEnding(ending) && IsDelimiter(d)
    requires forall i :: 0 <= i < |rows[0]| ==> Word(rows[0][i])
    ensures Delimiter(Lines(rows, ending, d)) == if |rows[0]| > 1 then d else ','
  {
    hide Word, Cells, Count;
    var line := Cells(rows[0], d);
    var rest := Lines(rows[1..], ending, d);
    WordRow(rows[0], ',', d);
    WordRow(rows[0], ';', d);
    WordRow(rows[0], '\t', d);
    if ending == "\n" {
      assert Lines(rows, ending, d) == line + ("\n" + rest);
      HeaderLineIs(line, "\n" + rest);
    } else {
      assert Lines(rows, ending, d) == (line + "\r") + ("\n" + rest);
      HeaderLineIs(line + "\r", "\n" + rest);
      CountReturn(line);
    }
  }

  lemma CountReturn(line: string)
    ensures Count(line + "\r", ',') == Count(line, ',') && Count(line + "\r", ';') == Count(line, ';')
    ensures Count(line + "\r", '\t') == Count(line, '\t')
  {
    CountAppend(line, "\r", ',');
    CountAppend(line, "\r", ';');
    CountAppend(line, "\r", '\t');
    assert "\r"[1..] == [];
  }

  // The formula guard.

  function SkipApostrophes(s: string): string {
    if s != [] && s[0] == '\'' then SkipApostrophes(s[1..]) else s
  }

  predicate FormulaLike(value: string) {
    var s := SkipApostrophes(value);
    s != [] && s[0] in "=+-@\t\r"
  }

  function Unguard(value: string): string {
    if value != [] && value[0] == '\'' && FormulaLike(value[1..]) then value[1..] else value
  }

  /** The exporter's guard. */
  function Guarded(value: string): string {
    if FormulaLike(value) then "'" + value else value
  }

  /** The audit log's guard, which does not look behind apostrophes. */
  function Neutralised(value: string): string {
    if value != [] && value[0] in "=+-@" then "'" + value else value
  }

  /** Taking the guard off undoes putting it on, for every string. */
  lemma UnguardUndoesGuard(value: string)
    ensures Unguard(Guarded(value)) == value
  {
    assert ("'" + value)[1..] == value;
  }

  /** The weaker guard is undone exactly on values that are not apostrophes before a formula character. */
  lemma UnguardUndoesNeutralised(value: string)
    ensures Unguard(Neutralised(value)) == value <==> !(value != [] && value[0] == '\'' && FormulaLike(value))
  {
    assert ("'" + value)[1..] == value;
  }

  // The two printers.

  const AUDIT_HEADER := ["id", "at", "event", "outcome", "category", "warning", "nodeId", "nodeName", "sessionId", "detail", "machine", "account", "os"]

  function NeutralisedRow(row: seq<string>): seq<string> {
    MapSeq(row, Neutralised)
  }

  function NeutralisedRows(rows: seq<seq<string>>): seq<seq<string>> {
    MapSeq(rows, NeutralisedRow)
  }

  /** `render_csv`: the header, then each entry's fields. */
  method RenderCsv(entries: seq<seq<string>>) returns (out: string)
    requires forall i :: 0 <= i < |entries| ==> entries[i] != []
    ensures out == Lines([AUDIT_HEADER] + NeutralisedRows(entries), "\n", ',')
  {
    hide Cells, NeutralisedRow;
    var rows := [AUDIT_HEADER] + NeutralisedRows(entries);
    assert forall i :: 0 <= i < |rows| ==> rows[i] != [] by { NonemptyRows(entries); }
    out := Lines([AUDIT_HEADER], "\n", ',');
    for k := 0 to |entries|
      invariant out == Lines(rows[..k + 1], "\n", ',')
    {
      LinesAppend(rows[..k + 1], NeutralisedRow(entries[k]), "\n");
      assert rows[..k + 2] == rows[..k + 1] + [NeutralisedRow(entries[k])];
      out := out + Cells(NeutralisedRow(entries[k]), ',') + "\n";
    }
    assert rows[..|entries| + 1] == rows;
  }

  lemma NonemptyRows(entries: seq<seq<string>>)
    requires forall i :: 0 <= i < |entries| ==> entries[i] != []
    ensures forall i :: 0 <= i < |entries| ==> NeutralisedRow(entries[i]) != [] && NeutralisedRows(entries)[i] == NeutralisedRow(entries[i])
  {
  }

  lemma {:induction false} LinesAppend(rows: seq<seq<string>>, row: seq<string>, ending: string)
    requires row != [] && forall i :: 0 <= i < |rows| ==> rows[i] != []
    ensures Lines(rows + [row], ending, ',') == Lines(rows, ending, ',') + Cells(row, ',') + ending
  {
    hide Cells;
    if rows == [] {
      assert rows + [row] == [row];
      assert [row][1..] == [];
    } else {
      assert (rows + [row])[1..] == rows[1..] + [row];
      LinesAppend(rows[1..], row, ending);
    }
  }

  /** `push_field`: quotes around, the guard first, every inner quote doubled. */
  method PushField(out: string, value: string) returns (r: string)
    ensures r == out + Cell(Guarded(Trim(value)), ',')
  {
    hide Trim, FormulaLike, Special, Doubled, Cell, Guarded;
    var trimmed := Trim(value);
    var quoted := Special(trimmed, ',');
    var guard := if FormulaLike(trimmed) then "'" else "";
    var mark := if quoted then "\"" else "";
    r := out + mark + guard;
    NothingDoubled();
    for i := 0 to |trimmed|
      invariant r == out + mark + guard + Doubled(trimmed[..i])
    {
      DoubledAppend(trimmed[..i], trimmed[i]);
      assert trimmed[..i + 1] == trimmed[..i] + [trimmed[i]];
      r := r + if trimmed[i] == '"' then "\"\"" else [trimmed[i]];
    }
    assert trimmed[..|trimmed|] == trimmed;
    GuardedCell(trimmed);
    r := r + mark;
    assert r == out + (mark + guard + Doubled(trimmed) + mark);
  }

  lemma NothingDoubled()
    ensures Doubled([]) == []
  {
  }

  lemma {:induction false} DoubledAppend(s: string, c: char)
    ensures Doubled(s + [c]) == Doubled(s) + if c == '"' then "\"\"" else [c]
  {
    if s == [] {
      assert s + [c] == [c] && [c][1..] == [];
    } else {
      assert (s + [c])[1..] == s[1..] + [c];
      DoubledAppend(s[1..], c);
    }
  }

  lemma {:induction false} DoubledPlain(s: string)
    requires '"' !in s
    ensures Doubled(s) == s
  {
    if s != [] {
      DoubledPlain(s[1..]);
    }
  }

  /** The guard needs no quoting of its own, so it may be written before the quoting is decided. */
  lemma GuardedCell(s: string)
    ensures Cell(Guarded(s), ',') ==
            (if Special(s, ',') then "\"" else "") + (if FormulaLike(s) then "'" else "") + Doubled(s) + (if Special(s, ',') then "\"" else "")
  {
    hide FormulaLike, Doubled, Special;
    SpecialBehindGuard(s);
    if !Special(s, ',') {
      PlainDoubled(s);
      PlainDoubled("'" + s);
    }
  }

  lemma PlainDoubled(s: string)
    requires !Special(s, ',')
    ensures Doubled(s) == s
  {
    DoubledPlain(s);
  }

  lemma SpecialBehindGuard(s: string)
    ensures (Special("'" + s, ',') <==> Special(s, ',')) && Doubled("'" + s) == "'" + Doubled(s)
  {
    assert ("'" + s)[1..] == s;
  }

  /** What the importer makes of a field: trimmed, and its guard taken off. */
  function FieldValue(field: string): string {
    Unguard(Trim(field))
  }

  lemma {:induction false} GuardedIsTrimmed(s: string)
    requires Trim(s) == s
    ensures Trim(Guarded(s)) == Guarded(s)
  {
    if FormulaLike(s) {
      assert s != [];
      TrimmedEnds(s);
      var g := "'" + s;
      assert !IsWhitespace(g[0]) && !IsWhitespace(g[|g| - 1]);
    }
  }

  lemma TrimmedEnds(s: string)
    requires s != [] && Trim(s) == s
    ensures !IsWhitespace(s[0]) && !IsWhitespace(s[|s| - 1])
  {
  }

  /** Exported text comes back: the importer reads from an exported cell what the exporter was given, trimmed. */
  lemma {:induction false} ExportedValueReturns(value: string)
    ensures FieldValue(Guarded(Trim(value))) == Trim(value)
  {
    TrimTwice(value);
    GuardedIsTrimmed(Trim(value));
    UnguardUndoesGuard(Trim(value));
  }

  /** The audit log reads back as its header and its neutralised entries. */
  lemma {:induction false} AuditLogReadsBack(entries: seq<seq<string>>, limits: Limits)
    requires |entries| < limits.maxItems && limits.maxValueBytes >= 9
    requires forall i :: 0 <= i < |entries| ==> entries[i] != []
    requires forall i, j :: 0 <= i < |entries| && 0 <= j < |entries[i]| ==> Within(Neutralised(entries[i][j]), limits)
    ensures forall i :: 0 <= i < |entries| + 1 ==> ([AUDIT_HEADER] + NeutralisedRows(entries))[i] != []
    ensures ReadAll(Lines([AUDIT_HEADER] + NeutralisedRows(entries), "\n", ','), limits) == Ok([AUDIT_HEADER] + NeutralisedRows(entries))
  {
    hide Within, Word, Lines, Neutralised;
    var rows := [AUDIT_HEADER] + NeutralisedRows(entries);
    NonemptyRows(entries);
    AuditHeaderIsWords(limits);
    WordHeaderTells(rows, "\n", ',');
    forall i, j | 0 <= i < |rows| && 0 <= j < |rows[i]| ensures Within(rows[i][j], limits) {
      if i > 0 {
        assert rows[i] == NeutralisedRow(entries[i - 1]);
        assert rows[i][j] == Neutralised(entries[i - 1][j]);
      }
    }
    ReadUndoesPrint(rows, "\n", ',', limits);
  }

  lemma AuditHeaderIsWords(limits: Limits)
    requires limits.maxValueBytes >= 9
    ensures forall i :: 0 <= i < |AUDIT_HEADER| ==> Word(AUDIT_HEADER[i]) && Within(AUDIT_HEADER[i], limits)
  {
    forall i | 0 <= i < |AUDIT_HEADER| ensures Word(AUDIT_HEADER[i]) && Within(AUDIT_HEADER[i], limits) {
      assert |AUDIT_HEADER[i]| <= 9;
      WordLength(AUDIT_HEADER[i]);
    }
  }

  lemma {:induction false} WordLength(s: string)
    requires forall i :: 0 <= i < |s| ==> IsAlphanumeric(s[i])
    ensures Utf8Length(s) == |s|
  {
    if s != [] {
      WordLength(s[..|s| - 1]);
    }
  }

  // The exporter's whole table.

  const COLUMNS := ["name", "folder", "protocol", "host", "port", "username", "domain", "password", "description", "tags", "gateway"]

  function Exported(value: string): string {
    Guarded(Trim(value))
  }

  function ExportedRow(row: seq<string>): seq<string> {
    MapSeq(row, Exported)
  }

  function ExportedRows(rows: seq<seq<string>>): seq<seq<string>> {
    MapSeq(rows, ExportedRow)
  }

  /** The text of a row's first `k` fields. */
  function CellsUpTo(row: seq<string>, k: nat): string
    requires k <= |row|
  {
    if k == 0 then "" else CellsUpTo(row, k - 1) + (if k > 1 then "," else "") + Cell(row[k - 1], ',')
  }

  lemma {:induction false} CellsAreAll(row: seq<string>, k: nat)
    requires 0 < k <= |row|
    ensures CellsUpTo(row, k) == Cells(row[..k], ',')
    decreases k
  {
    hide Cell;
    if k == 1 {
      assert CellsUpTo(row, 0) == "" && row[..1] == [row[0]];
      assert CellsUpTo(row, 1) == "" + "" + Cell(row[0], ',');
    } else {
      CellsAreAll(row, k - 1);
      CellsSnoc(row[..k - 1], row[k - 1]);
      assert row[..k] == row[..k - 1] + [row[k - 1]];
    }
  }

  lemma {:induction false} CellsSnoc(row: seq<string>, last: string)
    requires row != []
    ensures Cells(row + [last], ',') == Cells(row, ',') + "," + Cell(last, ',')
    decreases |row|
  {
    hide Cell;
    assert (row + [last])[0] == row[0] && (row + [last])[1..] == row[1..] + [last];
    if |row| == 1 {
      assert row[1..] + [last] == [last];
    } else {
      CellsSnoc(row[1..], last);
      assert Cells(row + [last], ',') == Cell(row[0], ',') + "," + (Cells(row[1..], ',') + "," + Cell(last, ','));
    }
  }

  /** `push_row`: the fields joined by commas, ended by a carriage return and a line feed. */
  method PushRow(out: string, fields: seq<string>) returns (r: string)
    ensures r == out + (if fields == [] then "" else Cells(ExportedRow(fields), ',')) + "\r\n"
  {
    hide Cell, Guarded, Trim;
    r := out;
    for i := 0 to |fields|
      invariant r == out + CellsUpTo(ExportedRow(fields), i)
    {
      ghost var done := CellsUpTo(ExportedRow(fields), i);
      if i > 0 {
        r := r + ",";
      }
      r := PushField(r, fields[i]);
      assert r == out + (done + (if i > 0 then "," else "") + Cell(Exported(fields[i]), ','));
    }
    if fields != [] {
      CellsAreAll(ExportedRow(fields), |fields|);
      assert ExportedRow(fields)[..|fields|] == ExportedRow(fields);
    }
    r := r + "\r\n";
  }

  /**
   An exported table reads back: the reader returns its rows, and the importer takes from
   every cell the value that was exported, trimmed.
   */
  lemma {:induction false} ExportReadsBack(table: seq<seq<string>>, limits: Limits)
    requires |table| < limits.maxItems && limits.maxValueBytes >= 11
    requires forall i :: 0 <= i < |table| ==> table[i] != []
    requires forall i, j :: 0 <= i < |table| && 0 <= j < |table[i]| ==> Within(Exported(table[i][j]), limits)
    ensures forall i :: 0 <= i < |table| + 1 ==> ([COLUMNS] + ExportedRows(table))[i] != []
    ensures ReadAll(Lines([COLUMNS] + ExportedRows(table), "\r\n", ','), limits) == Ok([COLUMNS] + ExportedRows(table))
    ensures forall i, j :: 0 <= i < |table| && 0 <= j < |table[i]| ==>
              FieldValue(ExportedRows(table)[i][j]) == Trim(table[i][j])
  {
    hide Within, Word, Lines, Exported, FieldValue, Trim;
    var rows := [COLUMNS] + ExportedRows(table);
    forall i | 0 <= i < |table| ensures rows[i + 1] == ExportedRow(table[i]) && rows[i + 1] != [] {
    }
    ColumnsAreWords(limits);
    WordHeaderTells(rows, "\r\n", ',');
    forall i, j | 0 <= i < |rows| && 0 <= j < |rows[i]| ensures Within(rows[i][j], limits) {
      if i > 0 {
        assert rows[i] == ExportedRow(table[i - 1]);
        assert rows[i][j] == Exported(table[i - 1][j]);
      }
    }
    ReadUndoesPrint(rows, "\r\n", ',', limits);
    forall i, j | 0 <= i < |table| && 0 <= j < |table[i]| ensures FieldValue(ExportedRows(table)[i][j]) == Trim(table[i][j]) {
      assert ExportedRows(table)[i] == ExportedRow(table[i]);
      ExportedField(table[i][j]);
    }
  }

  lemma ExportedField(value: string)
    ensures FieldValue(Exported(value)) == Trim(value)
  {
    ExportedValueReturns(value);
  }

  lemma ColumnsAreWords(limits: Limits)
    requires limits.maxValueBytes >= 11
    ensures forall i :: 0 <= i < |COLUMNS| ==> Word(COLUMNS[i]) && Within(COLUMNS[i], limits)
  {
    forall i | 0 <= i < |COLUMNS| ensures Word(COLUMNS[i]) && Within(COLUMNS[i], limits) {
      assert |COLUMNS[i]| <= 11;
      WordLength(COLUMNS[i]);
    }
  }
}
