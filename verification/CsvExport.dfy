/** The CSV export of apps/web/components/admin/VulnerabilitiesTable.tsx: `csvEscape` and
    `buildCsv`, against a reader written from section 2 of RFC 4180. */
module CsvExport {
  import opened Optional
  import opened Text

  datatype Advisory = Advisory(severity: string, package: string, title: string,
                               versionRange: Option<string>, url: Option<string>)

  const HEADERS: seq<string> := ["severity", "package", "title", "version_range", "url"]

  // ---------------------------------------------------------------- the writer

  /** The characters of the test `/[",\r\n]/`. */
  predicate IsSpecial(c: char) {
    c == '"' || c == ',' || c == '\r' || c == '\n'
  }

  predicate NeedsQuoting(value: string) {
    value != "" && (IsSpecial(value[0]) || NeedsQuoting(value[1..]))
  }

  /** `value.replace(/"/g, '""')` */
  function Doubled(value: string): string {
    if value == "" then ""
    else (if value[0] == '"' then "\"\"" else [value[0]]) + Doubled(value[1..])
  }

  function CsvEscape(value: Option<string>): string {
    match value
    case None => ""
    case Some(v) => if NeedsQuoting(v) then "\"" + Doubled(v) + "\"" else v
  }

  function Cells(a: Advisory): seq<Option<string>> {
    [Some(a.severity), Some(a.package), Some(a.title), a.versionRange, a.url]
  }

  function Escaped(cells: seq<Option<string>>): seq<string> {
    if cells == [] then [] else [CsvEscape(cells[0])] + Escaped(cells[1..])
  }

  function Line(cells: seq<Option<string>>): string {
    Join(Escaped(cells), ",")
  }

  function RowLines(rows: seq<Advisory>): seq<string> {
    if rows == [] then [] else RowLines(rows[..|rows| - 1]) + [Line(Cells(rows[|rows| - 1]))]
  }

  function Csv(rows: seq<Advisory>): string {
    Join([Join(HEADERS, ",")] + RowLines(rows), "\r\n")
  }

  method BuildCsv(rows: seq<Advisory>) returns (csv: string)
    ensures csv == Csv(rows)
  {
    var header := Join(HEADERS, ",");
    var lines := [header];
    for i := 0 to |rows|
      invariant lines == [header] + RowLines(rows[..i])
    {
      var a := rows[i];
      var cells := [Some(a.severity), Some(a.package), Some(a.title), a.versionRange, a.url];
      lines := lines + [Join(Escaped(cells), ",")];
      assert rows[..i + 1][..i] == rows[..i];
    }
    assert rows[..|rows|] == rows;
    csv := Join(lines, "\r\n");
  }

  // ---------------------------------------------------------------- the reader of RFC 4180

  datatype Field = Field(value: string, rest: string) | BadField

  datatype Record = Record(fields: seq<string>, rest: string) | BadRecord

  function Prefixed(c: char, f: Field): Field {
    if f.BadField? then f else f.(value := [c] + f.value)
  }

  /** The inside of a quoted field, up to and including the closing quote. */
  function ReadQuoted(s: string): (f: Field)
    ensures f.Field? ==> |f.rest| <= |s|
  {
    if s == "" then BadField
    else if s[0] != '"' then Prefixed(s[0], ReadQuoted(s[1..]))
    else if |s| >= 2 && s[1] == '"' then Prefixed('"', ReadQuoted(s[2..]))
    else Field("", s[1..])
  }

  function ReadPlain(s: string): (f: Field)
    ensures f.Field? && |f.rest| <= |s|
  {
    if s == "" || IsSpecial(s[0]) then Field("", s) else Prefixed(s[0], ReadPlain(s[1..]))
  }

  function ReadField(s: string): Field {
    if s != "" && s[0] == '"' then ReadQuoted(s[1..]) else ReadPlain(s)
  }

  /** Fields separated by commas. */
  function ReadRecord(s: string): (r: Record)
    ensures r.Record? ==> |r.rest| <= |s|
    decreases |s|
  {
    var f := ReadField(s);
    if f.BadField? then BadRecord
    else if f.rest == "" || f.rest[0] != ',' then Record([f.value], f.rest)
    else
      var r := ReadRecord(f.rest[1..]);
      if r.BadRecord? then BadRecord else Record([f.value] + r.fields, r.rest)
  }

  /** Records separated by CRLF; the last one may or may not be followed by CRLF. */
  function ReadFile(s: string): Option<seq<seq<string>>>
    decreases |s|
  {
    var r := ReadRecord(s);
    if r.BadRecord? then None
    else if r.rest == "" || r.rest == "\r\n" then Some([r.fields])
    else if |r.rest| >= 2 && r.rest[0] == '\r' && r.rest[1] == '\n' then
      var more := ReadFile(r.rest[2..]);
      if more.None? then None else Some([r.fields] + more.value)
    else None
  }

  // ---------------------------------------------------------------- what is quoted, and what stands where

  lemma {:induction false} NeedsQuotingIff(value: string)
    ensures NeedsQuoting(value) <==> '"' in value || ',' in value || '\r' in value || '\n' in value
  {
    if value != "" {
      NeedsQuotingIff(value[1..]);
      assert value == [value[0]] + value[1..];
    }
  }

  /** A cell is printed as it is, unless it holds a quote, a comma, CR or LF; then it is wrapped in quotes. */
  lemma PlainCellsStayPlain(value: string)
    ensures CsvEscape(None) == ""
    ensures var printed := CsvEscape(Some(value));
            if '"' in value || ',' in value || '\r' in value || '\n' in value
            then |printed| >= 2 + |value| && printed[0] == printed[|printed| - 1] == '"'
            else printed == value
  {
    NeedsQuotingIff(value);
    DoubledIsNoShorter(value);
  }

  lemma {:induction false} DoubledIsNoShorter(value: string)
    ensures |Doubled(value)| >= |value|
  {
    if value != "" {
      DoubledIsNoShorter(value[1..]);
    }
  }

  // ---------------------------------------------------------------- round trip

  function Value(cell: Option<string>): string {
    if cell.None? then "" else cell.value
  }

  function Values(cells: seq<Option<string>>): seq<string> {
    if cells == [] then [] else [Value(cells[0])] + Values(cells[1..])
  }

  /** The table that the export shows: five cells a row, a missing one as an empty one. */
  function Table(rows: seq<Advisory>): seq<seq<string>> {
    if rows == [] then [] else Table(rows[..|rows| - 1]) + [Values(Cells(rows[|rows| - 1]))]
  }

  lemma {:induction false} ReadQuotedInvertsDoubled(v: string, rest: string)
    requires rest == "" || rest[0] != '"'
    ensures ReadQuoted(Doubled(v) + "\"" + rest) == Field(v, rest)
  {
    var s := Doubled(v) + "\"" + rest;
    if v == "" {
      assert s == "\"" + rest && s[1..] == rest;
    } else {
      ReadQuotedInvertsDoubled(v[1..], rest);
      var inner := Doubled(v[1..]) + "\"" + rest;
      if v[0] == '"' {
        assert s == "\"\"" + inner && s[2..] == inner;
      } else {
        assert s == [v[0]] + inner && s[1..] == inner;
      }
    }
  }

  lemma {:induction false} ReadPlainKeepsPlain(v: string, rest: string)
    requires !NeedsQuoting(v) && (rest == "" || IsSpecial(rest[0]))
    ensures ReadPlain(v + rest) == Field(v, rest)
  {
    if v == "" {
      assert v + rest == rest;
    } else {
      ReadPlainKeepsPlain(v[1..], rest);
      assert (v + rest)[1..] == v[1..] + rest;
    }
  }

  lemma ReadQuotedField(v: string, rest: string)
    requires rest == "" || rest[0] != '"'
    ensures ReadField("\"" + Doubled(v) + "\"" + rest) == Field(v, rest)
  {
    ReadQuotedInvertsDoubled(v, rest);
    var inside := Doubled(v) + "\"" + rest;
    var s := "\"" + Doubled(v) + "\"" + rest;
    Regroup("\"", Doubled(v), "\"", rest);
    assert s[1..] == inside;
    assert ReadField(s) == ReadQuoted(s[1..]);
  }

  lemma Regroup(a: string, b: string, c: string, d: string)
    ensures a + b + c + d == a + (b + c + d)
  {
  }

  lemma ReadPlainField(v: string, rest: string)
    requires !NeedsQuoting(v) && (rest == "" || rest[0] == ',' || rest[0] == '\r')
    ensures ReadField(v + rest) == Field(v, rest)
  {
    ReadPlainKeepsPlain(v, rest);
    if v == "" {
      assert v + rest == rest;
    } else {
      assert (v + rest)[0] == v[0];
    }
  }

  lemma ReadFieldInvertsEscape(cell: Option<string>, rest: string)
    requires rest == "" || rest[0] == ',' || rest[0] == '\r'
    ensures ReadField(CsvEscape(cell) + rest) == Field(Value(cell), rest)
  {
    if NeedsQuoting(Value(cell)) {
      ReadQuotedField(Value(cell), rest);
    } else {
      ReadPlainField(Value(cell), rest);
    }
  }

  lemma {:induction false} ReadRecordInvertsLine(cells: seq<Option<string>>, rest: string)
    requires cells != [] && (rest == "" || rest[0] == '\r')
    ensures ReadRecord(Line(cells) + rest) == Record(Values(cells), rest)
  {
    if |cells| == 1 {
      ReadFieldInvertsEscape(cells[0], rest);
      assert Escaped(cells) == [CsvEscape(cells[0])] && Values(cells) == [Value(cells[0])];
    } else {
      ReadRecordInvertsLine(cells[1..], rest);
      OneFieldMore(CsvEscape(cells[0]), Escaped(cells[1..]), rest);
      ReadFieldInvertsEscape(cells[0], "," + (Line(cells[1..]) + rest));
      CommaThenRecord(Line(cells) + rest, Value(cells[0]), Line(cells[1..]) + rest);
    }
  }

  lemma OneFieldMore(first: string, others: seq<string>, rest: string)
    requires others != []
    ensures Join([first] + others, ",") + rest == first + ("," + (Join(others, ",") + rest))
  {
    assert ([first] + others)[1..] == others;
  }

  lemma CommaThenRecord(s: string, value: string, more: string)
    requires ReadField(s) == Field(value, "," + more) && ReadRecord(more).Record?
    ensures ReadRecord(s) == Record([value] + ReadRecord(more).fields, ReadRecord(more).rest)
  {
    assert ("," + more)[1..] == more;
  }

  /** `line` is read as `values` wherever it stands in a file. */
  ghost predicate Reads(line: string, values: seq<string>) {
    forall rest :: rest == "" || rest[0] == '\r' ==> ReadRecord(line + rest) == Record(values, rest)
  }

  lemma LineReads(cells: seq<Option<string>>)
    requires cells != []
    ensures Reads(Line(cells), Values(cells))
  {
    forall rest: string | rest == "" || rest[0] == '\r'
      ensures ReadRecord(Line(cells) + rest) == Record(Values(cells), rest)
    {
      ReadRecordInvertsLine(cells, rest);
    }
  }

  lemma CrlfThenFile(s: string, values: seq<string>, more: string)
    requires ReadRecord(s) == Record(values, "\r\n" + more) && more != "" && ReadFile(more).Some?
    ensures ReadFile(s) == Some([values] + ReadFile(more).value)
  {
    var rest := "\r\n" + more;
    assert rest[2..] == more;
    assert |rest| > 2;
  }

  ghost predicate FileReads(s: string, table: seq<seq<string>>) {
    s != "" && ReadFile(s) == Some(table)
  }

  ghost predicate LineIsRead(line: string, values: seq<string>) {
    line != "" && Reads(line, values)
  }

  /** A file of one line, and a file that goes on after its first line. */
  lemma FileOfOneLine(line: string, values: seq<string>)
    requires LineIsRead(line, values)
    ensures FileReads(line, [values])
  {
    var rest := "";
    assert ReadRecord(line + rest) == Record(values, rest);
    assert line + rest == line;
  }

  lemma FileGoesOn(line: string, values: seq<string>, more: string, table: seq<seq<string>>)
    requires LineIsRead(line, values) && FileReads(more, table)
    ensures FileReads(line + ("\r\n" + more), [values] + table)
  {
    var rest := "\r\n" + more;
    assert rest[0] == '\r';
    assert ReadRecord(line + rest) == Record(values, rest);
    CrlfThenFile(line + rest, values, more);
  }

  lemma {:induction false} ReadFileInvertsJoin(lines: seq<string>, table: seq<seq<string>>)
    requires lines != [] && |lines| == |table|
    requires forall i :: 0 <= i < |lines| ==> LineIsRead(lines[i], table[i])
    ensures FileReads(Join(lines, "\r\n"), table)
    decreases |lines|
  {
    if |lines| == 1 {
      FileOfOneLine(lines[0], table[0]);
      assert table == [table[0]];
    } else {
      var more := Join(lines[1..], "\r\n");
      ReadFileInvertsJoin(lines[1..], table[1..]);
      FileGoesOn(lines[0], table[0], more, table[1..]);
      assert Join(lines, "\r\n") == lines[0] + ("\r\n" + more);
      assert table == [table[0]] + table[1..];
    }
  }

  lemma {:induction false} RowsRead(rows: seq<Advisory>)
    ensures |RowLines(rows)| == |Table(rows)| == |rows|
    ensures forall i :: 0 <= i < |rows| ==> LineIsRead(RowLines(rows)[i], Table(rows)[i])
  {
    if rows != [] {
      var cells := Cells(rows[|rows| - 1]);
      RowsRead(rows[..|rows| - 1]);
      LineReads(cells);
      OneFieldMore(CsvEscape(cells[0]), Escaped(cells[1..]), "");
      assert Line(cells) == Line(cells) + "";
    }
  }

  lemma {:induction false} WordIsPlain(v: string)
    requires IsWord(v)
    ensures !NeedsQuoting(v)
  {
    if v != "" {
      WordIsPlain(v[1..]);
    }
  }

  function Wrapped(words: seq<string>): seq<Option<string>> {
    if words == [] then [] else [Some(words[0])] + Wrapped(words[1..])
  }

  lemma {:induction false} PlainWords(words: seq<string>)
    requires forall i :: 0 <= i < |words| ==> !NeedsQuoting(words[i])
    ensures Escaped(Wrapped(words)) == words && Values(Wrapped(words)) == words
  {
    if words != [] {
      PlainWords(words[1..]);
      assert Wrapped(words)[1..] == Wrapped(words[1..]);
    }
  }

  lemma PlainWordsRead(words: seq<string>)
    requires words != [] && forall i :: 0 <= i < |words| ==> !NeedsQuoting(words[i])
    ensures Reads(Join(words, ","), words)
  {
    PlainWords(words);
    LineReads(Wrapped(words));
  }

  predicate IsWord(v: string) {
    forall i :: 0 <= i < |v| ==> v[i] == '_' || 'a' <= v[i] <= 'z'
  }

  lemma HeadersAreWords()
    ensures forall i :: 0 <= i < |HEADERS| ==> IsWord(HEADERS[i])
  {
    assert IsWord("severity") && IsWord("package") && IsWord("title") && IsWord("version_range") && IsWord("url");
  }

  lemma HeaderReads()
    ensures Reads(Join(HEADERS, ","), HEADERS)
  {
    HeadersAreWords();
    forall i | 0 <= i < |HEADERS|
      ensures !NeedsQuoting(HEADERS[i])
    {
      WordIsPlain(HEADERS[i]);
    }
    PlainWordsRead(HEADERS);
  }

  /** Reading the exported file by RFC 4180 gives back the header and every row's five cells,
      whatever characters the cells hold. */
  lemma CsvRoundTrip(rows: seq<Advisory>)
    ensures ReadFile(Csv(rows)) == Some([HEADERS] + Table(rows))
  {
    HeaderReads();
    OneFieldMore(HEADERS[0], HEADERS[1..], "");
    RowsRead(rows);
    ReadFileInvertsJoin([Join(HEADERS, ",")] + RowLines(rows), [HEADERS] + Table(rows));
  }

  /** The field of an advisory that belongs under a header. */
  ghost function FieldUnder(header: string, a: Advisory): Option<string> {
    if header == "severity" then Some(a.severity)
    else if header == "package" then Some(a.package)
    else if header == "title" then Some(a.title)
    else if header == "version_range" then a.versionRange
    else if header == "url" then a.url
    else None
  }

  /** In row i of the table the field that the header names stands under each header. */
  lemma {:induction false} CellsStandUnderHeaders(rows: seq<Advisory>, i: nat, column: nat)
    requires i < |rows| && column < |HEADERS|
    ensures |Table(rows)| == |rows| && |Table(rows)[i]| == |HEADERS|
    ensures Table(rows)[i][column] == match FieldUnder(HEADERS[column], rows[i])
                                      case None => ""
                                      case Some(value) => value
  {
    var n := |rows| - 1;
    RowsOfTable(rows);
    if i < n {
      CellsStandUnderHeaders(rows[..n], i, column);
    } else {
      ValuesAt(Cells(rows[n]), column);
    }
  }

  lemma {:induction false} RowsOfTable(rows: seq<Advisory>)
    ensures |Table(rows)| == |rows|
  {
    if rows != [] {
      RowsOfTable(rows[..|rows| - 1]);
    }
  }

  lemma {:induction false} ValuesAt(cells: seq<Option<string>>, k: nat)
    requires k < |cells|
    ensures |Values(cells)| == |cells| && Values(cells)[k] == if cells[k].None? then "" else cells[k].value
  {
    if |cells| > 1 {
      ValuesAt(cells[1..], if k > 0 then k - 1 else 0);
    }
  }

  /** Two exports are the same text only if they show the same table. */
  lemma CsvIsInjective(rows: seq<Advisory>, rows': seq<Advisory>)
    requires Csv(rows) == Csv(rows')
    ensures Table(rows) == Table(rows')
  {
    CsvRoundTrip(rows);
    CsvRoundTrip(rows');
    assert ([HEADERS] + Table(rows))[1..] == Table(rows) && ([HEADERS] + Table(rows'))[1..] == Table(rows');
  }
}
