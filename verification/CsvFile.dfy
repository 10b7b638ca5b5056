/** A whole CSV file: rows written one a line (src/stats/csv.rs), and `SharedCSV::new` reading the
    file line by line (src/bridge/data.rs). */
module CsvFile {
  import opened Wrappers
  import opened Text
  import opened Csv

  datatype Table = Table(headers: seq<string>, rows: seq<seq<string>>)

  // ---------------------------------------------------------------- lines

  function LineEnd(content: string): (n: nat)
    ensures n <= |content| && '\n' !in content[..n] && (n < |content| ==> content[n] == '\n')
  {
    if content == "" || content[0] == '\n' then 0
    else
      var n := LineEnd(content[1..]);
      assert content[..n + 1] == [content[0]] + content[1..][..n];
      n + 1
  }

  function StripCr(line: string): string {
    if line != "" && line[|line| - 1] == '\r' then line[..|line| - 1] else line
  }

  /** `str::lines`: a carriage return is dropped only before a line feed. */
  function Lines(content: string): seq<string>
    decreases |content|
  {
    var n := LineEnd(content);
    if content == "" then []
    else if n == |content| then [content]
    else [StripCr(content[..n])] + Lines(content[n + 1..])
  }

  // ---------------------------------------------------------------- reading

  function Parsed(line: string): seq<string> {
    Fields(line, "", false)
  }

  /** Rows of the lines that are not blank. */
  function RowsOf(lines: seq<string>): seq<seq<string>> {
    if lines == [] then []
    else
      var front, last := RowsOf(lines[..|lines| - 1]), lines[|lines| - 1];
      if Trim(last) == "" then front else front + [Parsed(last)]
  }

  function ReadTable(content: string): Result<Table, string> {
    var lines := Lines(content);
    if lines == [] then Err("CSV file is empty") else Ok(Table(Parsed(lines[0]), RowsOf(lines[1..])))
  }

  lemma NoLines(content: string)
    ensures Lines(content) == [] <==> content == ""
  {
  }

  method ReadCsv(content: string) returns (r: Result<Table, string>)
    ensures r == ReadTable(content)
    ensures r.Err? <==> content == ""
    ensures r.Ok? ==> r.value.headers == Fields(Lines(content)[0], "", false) && r.value.rows == RowsOf(Lines(content)[1..])
  {
    NoLines(content);
    hide Fields, Trim, Lines;
    var lines := Lines(content);
    if lines == [] {
      return Err("CSV file is empty");
    }
    var headers := ParseCsvLine(lines[0]);
    var rows: seq<seq<string>> := [];
    for k := 1 to |lines|
      invariant rows == RowsOf(lines[1..k])
    {
      assert lines[1..k + 1][..k - 1] == lines[1..k];
      if Trim(lines[k]) != "" {
        var row := ParseCsvLine(lines[k]);
        rows := rows + [row];
      }
    }
    assert lines[1..|lines|] == lines[1..];
    r := Ok(Table(headers, rows));
  }

  // ---------------------------------------------------------------- every file

  /** Pieces of text with a line feed after each. */
  function Ended(pieces: seq<string>): string {
    if pieces == [] then "" else pieces[0] + "\n" + Ended(pieces[1..])
  }

  lemma LineEndIs(line: string, rest: string)
    requires '\n' !in line
    ensures LineEnd(line + "\n" + rest) == |line| && LineEnd(line) == |line|
  {
    var content := line + "\n" + rest;
    var n := LineEnd(content);
    assert content[|line|] == '\n' && content[|line|] !in content[..n];
    assert forall i :: 0 <= i < |line| ==> content[i] == line[i];
    assert forall i :: 0 <= i < |line| ==> line[i] != '\n';
  }

  /** A text with a line feed is its first line and the lines of the rest, with one carriage return
      before the line feed dropped; a text without one is a line itself unless it is empty. */
  lemma OneMoreLine(line: string, rest: string)
    requires '\n' !in line
    ensures Lines(line) == if line == "" then [] else [line]
    ensures Lines(line + "\n" + rest) ==
            [if line != "" && line[|line| - 1] == '\r' then line[..|line| - 1] else line] + Lines(rest)
  {
    LineEndIs(line, rest);
    var content := line + "\n" + rest;
    assert content[..|line|] == line && content[|line| + 1..] == rest;
  }

  /** Every text is some pieces ended by line feeds and a last one that is not. */
  lemma {:induction false} EveryText(content: string) returns (pieces: seq<string>, last: string)
    ensures content == Ended(pieces) + last && '\n' !in last && forall i :: 0 <= i < |pieces| ==> '\n' !in pieces[i]
    decreases |content|
  {
    var n := LineEnd(content);
    if n == |content| {
      pieces, last := [], content;
    } else {
      var rest: seq<string>;
      rest, last := EveryText(content[n + 1..]);
      pieces := [content[..n]] + rest;
      assert content == content[..n] + "\n" + content[n + 1..];
      assert content == Ended(pieces) + last;
    }
  }

  /** The lines of every text: the pieces between line feeds, each without one carriage return at
      its end, and the last piece as it is unless it is empty. */
  lemma {:induction false} LinesOfPieces(pieces: seq<string>, last: string)
    requires '\n' !in last && forall i :: 0 <= i < |pieces| ==> '\n' !in pieces[i]
    ensures var lines := Lines(Ended(pieces) + last);
            && |lines| == |pieces| + (if last == "" then 0 else 1)
            && (forall i :: 0 <= i < |pieces| ==>
                  lines[i] == if pieces[i] != "" && pieces[i][|pieces[i]| - 1] == '\r' then pieces[i][..|pieces[i]| - 1] else pieces[i])
            && (last != "" ==> lines[|pieces|] == last)
    decreases |pieces|
  {
    hide Lines;
    if pieces == [] {
      OneMoreLine(last, "");
      assert Ended(pieces) + last == last;
    } else {
      assert Ended(pieces) + last == pieces[0] + "\n" + (Ended(pieces[1..]) + last);
      OneMoreLine(pieces[0], Ended(pieces[1..]) + last);
      LinesOfPieces(pieces[1..], last);
      assert forall i :: 0 < i < |pieces| ==> pieces[i] == pieces[1..][i - 1];
    }
  }

  /** The rows of any lines: `at` picks every line that is not white space only, in order, and the
      rows are those lines parsed. */
  lemma {:induction false} RowsAre(lines: seq<string>) returns (at: seq<nat>)
    ensures |at| == |RowsOf(lines)| && forall i, j :: 0 <= i < j < |at| ==> at[i] < at[j]
    ensures forall i :: 0 <= i < |at| ==> at[i] < |lines| && RowsOf(lines)[i] == Fields(lines[at[i]], "", false)
    ensures forall k: nat :: k < |lines| ==> (k in at <==> exists c :: c in lines[k] && !IsWhitespace(c))
    decreases |lines|
  {
    hide Fields, Trim, IsWhitespace;
    if lines == [] {
      at := [];
    } else {
      var front, last := lines[..|lines| - 1], lines[|lines| - 1];
      at := RowsAre(front);
      TrimsToNothing(last);
      assert Blank(last) <==> !exists c :: c in last && !IsWhitespace(c);
      if Trim(last) != "" {
        at := at + [|lines| - 1];
      }
      forall k: nat | k < |lines| ensures k in at <==> exists c :: c in lines[k] && !IsWhitespace(c) {
        if k < |front| {
          assert front[k] == lines[k];
        }
      }
    }
  }

  // ---------------------------------------------------------------- writing

  function Row(fields: seq<string>): string {
    Join(Escaped(fields), ",")
  }

  function WrittenFile(rows: seq<seq<string>>): string {
    if rows == [] then "" else Row(rows[0]) + "\n" + WrittenFile(rows[1..])
  }

  function RowTexts(rows: seq<seq<string>>): seq<string> {
    seq(|rows|, i requires 0 <= i < |rows| => Row(rows[i]))
  }

  function TrimRows(rows: seq<seq<string>>): seq<seq<string>> {
    seq(|rows|, i requires 0 <= i < |rows| => TrimAll(rows[i]))
  }

  predicate NoLf(fields: seq<string>) {
    forall i :: 0 <= i < |fields| ==> '\n' !in fields[i]
  }

  /** A row that is written as white space only. */
  predicate BlankRow(fields: seq<string>) {
    fields == [] || (|fields| == 1 && Blank(fields[0]) && !NeedsQuotes(fields[0]))
  }

  lemma {:induction false} DoubleQuotesParts(s: string, c: char)
    requires c != '"'
    ensures c in DoubleQuotes(s) <==> c in s
    decreases |s|
  {
    if s != "" {
      DoubleQuotesParts(s[1..], c);
      assert s == [s[0]] + s[1..];
    }
  }

  lemma EscapeEnds(value: string)
    ensures CsvEscape(value) != "" ==> CsvEscape(value)[|CsvEscape(value)| - 1] != '\r'
    ensures '\n' in CsvEscape(value) <==> '\n' in value
  {
    DoubleQuotesParts(value, '\n');
  }

  lemma RowOf(fields: seq<string>)
    ensures fields == [] ==> Row(fields) == ""
    ensures |fields| == 1 ==> Row(fields) == CsvEscape(fields[0])
    ensures |fields| > 1 ==> Row(fields) == CsvEscape(fields[0]) + ("," + Row(fields[1..]))
  {
    if |fields| > 1 {
      assert Escaped(fields)[1..] == Escaped(fields[1..]);
      assert Row(fields) == CsvEscape(fields[0]) + "," + Row(fields[1..]);
    }
  }

  lemma {:induction false} RowShape(fields: seq<string>)
    ensures NoLf(fields) ==> '\n' !in Row(fields)
    ensures Row(fields) != "" ==> Row(fields)[|Row(fields)| - 1] != '\r'
    ensures |fields| > 1 ==> ',' in Row(fields)
    decreases |fields|
  {
    hide Row, CsvEscape;
    RowOf(fields);
    if fields != [] {
      EscapeEnds(fields[0]);
      if |fields| > 1 {
        RowShape(fields[1..]);
      }
    }
  }

  lemma TrimsToNothing(s: string)
    ensures Trim(s) == "" <==> Blank(s)
  {
    if Blank(s) {
      TrimPadded(s, "", "");
      assert s + "" + "" == s;
    } else {
      var n := TrimStartShape(s);
      var m := TrimEndShape(TrimStart(s));
      assert s == s[..n] + TrimStart(s);
    }
  }

  lemma BlankRowIff(fields: seq<string>)
    ensures Trim(Row(fields)) == "" <==> BlankRow(fields)
  {
    TrimsToNothing(Row(fields));
    RowShape(fields);
    if |fields| > 1 {
      var i :| 0 <= i < |Row(fields)| && Row(fields)[i] == ',';
      assert !IsWhitespace(Row(fields)[i]);
    } else if |fields| == 1 {
      assert Row(fields) == CsvEscape(fields[0]);
      if NeedsQuotes(fields[0]) {
        assert !IsWhitespace(Row(fields)[0]);
      }
    }
  }

  lemma WrittenNext(rows: seq<seq<string>>)
    ensures rows == [] ==> Lines(WrittenFile(rows)) == RowTexts(rows)
    ensures rows != [] ==> WrittenFile(rows) == Row(rows[0]) + "\n" + WrittenFile(rows[1..])
    ensures rows != [] ==> RowTexts(rows) == [Row(rows[0])] + RowTexts(rows[1..])
  {
    hide Row;
  }

  lemma {:induction false} WrittenLines(rows: seq<seq<string>>)
    requires forall i :: 0 <= i < |rows| ==> NoLf(rows[i])
    ensures Lines(WrittenFile(rows)) == RowTexts(rows)
    decreases |rows|
  {
    hide *;
    WrittenNext(rows);
    if rows != [] {
      RowShape(rows[0]);
      OneMoreLine(Row(rows[0]), WrittenFile(rows[1..]));
      WrittenLines(rows[1..]);
    }
  }

  lemma {:induction false} RowsRead(rows: seq<seq<string>>)
    ensures |RowsOf(RowTexts(rows))| <= |rows|
    ensures |RowsOf(RowTexts(rows))| == |rows| <==> forall i :: 0 <= i < |rows| ==> !BlankRow(rows[i])
    ensures |RowsOf(RowTexts(rows))| == |rows| ==> RowsOf(RowTexts(rows)) == TrimRows(rows)
    decreases |rows|
  {
    hide Row, Fields, Trim, BlankRow, TrimAll;
    if rows != [] {
      var front, last := rows[..|rows| - 1], rows[|rows| - 1];
      assert RowTexts(rows)[..|rows| - 1] == RowTexts(front);
      RowsRead(front);
      assert forall i :: 0 <= i < |front| ==> front[i] == rows[i];
      BlankRowIff(last);
      if !BlankRow(last) {
        OneRowRead(last);
        assert TrimRows(rows) == TrimRows(front) + [TrimAll(last)];
      }
    }
  }

  lemma OneRowRead(fields: seq<string>)
    ensures fields != [] ==> Parsed(Row(fields)) == TrimAll(fields)
    ensures fields == [] ==> BlankRow(fields)
  {
    if fields != [] {
      FieldsRoundTrip(fields);
    }
  }

  /** A file whose fields hold no line feed, and whose rows are not blank, reads back with every
      field trimmed: header first, then the rows. */
  lemma {:induction false} FileRoundTrip(rows: seq<seq<string>>)
    requires rows != [] && rows[0] != [] && forall i :: 0 <= i < |rows| ==> NoLf(rows[i])
    requires forall i :: 0 < i < |rows| ==> !BlankRow(rows[i])
    ensures ReadTable(WrittenFile(rows)) == Ok(Table(TrimAll(rows[0]), TrimRows(rows[1..])))
  {
    hide Row, Fields, BlankRow, NoLf, TrimAll, RowsOf, Lines, WrittenFile;
    WrittenLines(rows);
    OneRowRead(rows[0]);
    assert RowTexts(rows)[1..] == RowTexts(rows[1..]);
    RowsRead(rows[1..]);
  }

  // ---------------------------------------------------------------- exactly when

  /** What a parsed field can be. */
  predicate CleanFields(fields: seq<string>) {
    fields != [] && forall i :: 0 <= i < |fields| ==> Trimmed(fields[i]) && '\n' !in fields[i]
  }

  lemma TrimIsClean(s: string)
    requires '\n' !in s
    ensures Trimmed(Trim(s)) && '\n' !in Trim(s)
  {
    TrimIsTrimmed(s);
    var n := TrimStartShape(s);
    var m := TrimEndShape(TrimStart(s));
  }

  lemma {:induction false} ParsedIsClean(rest: string, current: string, inQuotes: bool)
    requires '\n' !in rest && '\n' !in current
    ensures CleanFields(Fields(rest, current, inQuotes))
    decreases |rest|
  {
    TrimIsClean(current);
    hide Trim;
    if rest != "" {
      assert forall c :: c in rest[1..] ==> c in rest;
      if inQuotes && rest[0] == '"' && |rest| > 1 && rest[1] == '"' {
        assert forall c :: c in rest[2..] ==> c in rest;
        ParsedIsClean(rest[2..], current + "\"", true);
      } else if inQuotes {
        ParsedIsClean(rest[1..], if rest[0] == '"' then current else current + [rest[0]], rest[0] != '"');
      } else if rest[0] == ',' {
        ParsedIsClean(rest[1..], "", false);
      } else {
        ParsedIsClean(rest[1..], if rest[0] == '"' then current else current + [rest[0]], rest[0] == '"');
      }
    }
  }

  lemma {:induction false} LinesHaveNoLf(content: string)
    ensures forall i :: 0 <= i < |Lines(content)| ==> '\n' !in Lines(content)[i]
    decreases |content|
  {
    var n := LineEnd(content);
    if n < |content| {
      LinesHaveNoLf(content[n + 1..]);
    } else {
      assert content[..n] == content;
    }
  }

  lemma {:induction false} RowsAreClean(lines: seq<string>)
    requires forall i :: 0 <= i < |lines| ==> '\n' !in lines[i]
    ensures forall i :: 0 <= i < |RowsOf(lines)| ==> CleanFields(RowsOf(lines)[i])
    decreases |lines|
  {
    hide Fields, CleanFields, Trim;
    if lines != [] {
      RowsAreClean(lines[..|lines| - 1]);
      ParsedIsClean(lines[|lines| - 1], "", false);
    }
  }

  /** The file reads back as it was written. */
  predicate Unchanged(rows: seq<seq<string>>) {
    rows != [] && ReadTable(WrittenFile(rows)) == Ok(Table(rows[0], rows[1..]))
  }

  lemma CleanIsKept(fields: seq<string>)
    requires CleanFields(fields)
    ensures NoLf(fields) && TrimAll(fields) == fields && (BlankRow(fields) <==> fields == [""])
  {
    forall i | 0 <= i < |fields| ensures Trim(fields[i]) == fields[i] {
      TrimIsTrimmed(fields[i]);
    }
  }

  /** A written file reads back unchanged if and only if it has a header, every row has a field,
      every field is trimmed and holds no line feed, and no row after the header is a single
      empty field. */
  lemma UnchangedIff(rows: seq<seq<string>>)
    ensures Unchanged(rows) <==>
            && rows != [] && (forall i :: 0 <= i < |rows| ==> CleanFields(rows[i]))
            && (forall i :: 0 < i < |rows| ==> rows[i] != [""])
  {
    hide Row, Fields, CleanFields, BlankRow, NoLf, TrimAll, RowsOf, Lines, WrittenFile;
    if Unchanged(rows) {
      var lines := Lines(WrittenFile(rows));
      LinesHaveNoLf(WrittenFile(rows));
      ParsedIsClean(lines[0], "", false);
      RowsAreClean(lines[1..]);
      assert forall i :: 0 < i < |rows| ==> rows[i] == rows[1..][i - 1];
    }
    if rows != [] && forall i :: 0 <= i < |rows| ==> CleanFields(rows[i]) {
      CleanFile(rows);
    }
  }

  lemma CleanFile(rows: seq<seq<string>>)
    requires rows != [] && forall i :: 0 <= i < |rows| ==> CleanFields(rows[i])
    ensures Unchanged(rows) <==> forall i :: 0 < i < |rows| ==> rows[i] != [""]
  {
    hide Row, Fields, CleanFields, BlankRow, NoLf, TrimAll, RowsOf, Lines, WrittenFile;
    forall i | 0 <= i < |rows|
      ensures NoLf(rows[i]) && TrimAll(rows[i]) == rows[i] && (BlankRow(rows[i]) <==> rows[i] == [""])
    {
      CleanIsKept(rows[i]);
    }
    WrittenLines(rows);
    HeaderIsThere(rows[0]);
    OneRowRead(rows[0]);
    assert RowTexts(rows)[1..] == RowTexts(rows[1..]);
    RowsRead(rows[1..]);
    assert TrimRows(rows[1..]) == rows[1..];
    assert forall i :: 0 < i < |rows| ==> rows[i] == rows[1..][i - 1];
  }

  lemma HeaderIsThere(fields: seq<string>)
    requires CleanFields(fields)
    ensures fields != []
  {
  }
}
