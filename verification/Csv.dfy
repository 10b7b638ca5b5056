/** CSV writing (src/stats/csv.rs) and reading (src/bridge/data.rs), after RFC 4180 section 2. */
module Csv {
  import opened Text

  // ---------------------------------------------------------------- writing

  function DoubleQuotes(s: string): string {
    if s == "" then "" else (if s[0] == '"' then "\"\"" else [s[0]]) + DoubleQuotes(s[1..])
  }

  predicate NeedsQuotes(value: string) {
    ',' in value || '"' in value || '\n' in value || '\r' in value
  }

  function CsvEscape(value: string): string {
    if NeedsQuotes(value) then "\"" + DoubleQuotes(value) + "\"" else value
  }

  /** A value is quoted exactly if it holds a comma, a quote or a line break character; inside the
      quotes every quote is doubled and nothing else is changed. */
  lemma EscapedIs(value: string)
    ensures CsvEscape(value) == value <==> ',' !in value && '"' !in value && '\n' !in value && '\r' !in value
    ensures CsvEscape(value) != value ==> CsvEscape(value) == "\"" + DoubleQuotes(value) + "\""
  {
    if NeedsQuotes(value) {
      DoubledLength(value);
    }
  }

  lemma {:induction false} DoubledLength(s: string)
    ensures |DoubleQuotes(s)| >= |s|
    decreases |s|
  {
    if s != "" {
      DoubledLength(s[1..]);
    }
  }

  // ---------------------------------------------------------------- reading

  /** The fields still to come from `rest`, with `current` collected so far. */
  function Fields(rest: string, current: string, inQuotes: bool): seq<string>
    decreases |rest|
  {
    if rest == "" then [Trim(current)]
    else if inQuotes then
      if rest[0] != '"' then Fields(rest[1..], current + [rest[0]], true)
      else if |rest| > 1 && rest[1] == '"' then Fields(rest[2..], current + "\"", true)
      else Fields(rest[1..], current, false)
    else if rest[0] == ',' then [Trim(current)] + Fields(rest[1..], "", false)
    else if rest[0] == '"' then Fields(rest[1..], current, true)
    else Fields(rest[1..], current + [rest[0]], false)
  }

  method ParseCsvLine(line: string) returns (fields: seq<string>)
    ensures fields == Fields(line, "", false)
    // the lookahead agrees with quote parity, on malformed lines too
    ensures fields == FieldsByParity(line, 0)
    ensures |fields| == 1 + EvenCommas(line, 0)
  {
    fields := [];
    var current, inQuotes, k := "", false, 0;
    while k < |line|
      invariant 0 <= k <= |line|
      invariant fields + Fields(line[k..], current, inQuotes) == Fields(line, "", false)
      decreases |line| - k
    {
      var c := line[k];
      ghost var rest := line[k..];
      assert rest[1..] == line[k + 1..];
      k := k + 1;
      if inQuotes {
        if c == '"' {
          if k < |line| && line[k] == '"' {
            assert rest[2..] == line[k + 1..];
            current := current + "\"";
            k := k + 1;
          } else {
            inQuotes := false;
          }
        } else {
          current := current + [c];
        }
      } else {
        match c {
          case ',' =>
            fields := fields + [Trim(current)];
            current := "";
          case '"' =>
            inQuotes := true;
          case _ =>
            current := current + [c];
        }
      }
    }
    assert line[|line|..] == "";
    fields := fields + [Trim(current)];
    FieldCount(line, 0, "", false);
    FieldsAreByParity(line);
    assert line[0..] == line;
  }

  // ---------------------------------------------------------------- quote parity

  function Quotes(s: string): nat {
    if s == "" then 0 else Quotes(s[..|s| - 1]) + if s[|s| - 1] == '"' then 1 else 0
  }

  /** Commas from position `from` on that an even number of quotes precedes. */
  function EvenCommas(line: string, from: nat): nat
    requires from <= |line|
    decreases |line| - from
  {
    if from == |line| then 0
    else (if line[from] == ',' && Quotes(line[..from]) % 2 == 0 then 1 else 0) + EvenCommas(line, from + 1)
  }

  lemma QuotesNext(line: string, k: nat)
    requires k < |line|
    ensures Quotes(line[..k + 1]) == Quotes(line[..k]) + if line[k] == '"' then 1 else 0
  {
    assert line[..k + 1][..k] == line[..k];
  }

  lemma {:induction false} FieldCount(line: string, from: nat, current: string, inQuotes: bool)
    requires from <= |line| && inQuotes == (Quotes(line[..from]) % 2 == 1)
    ensures |Fields(line[from..], current, inQuotes)| == 1 + EvenCommas(line, from)
    decreases |line| - from
  {
    var rest := line[from..];
    if rest != "" {
      QuotesNext(line, from);
      assert rest[1..] == line[from + 1..];
      if inQuotes && rest[0] == '"' && |rest| > 1 && rest[1] == '"' {
        QuotesNext(line, from + 1);
        assert rest[2..] == line[from + 2..];
        FieldCount(line, from + 2, current + "\"", true);
      } else if inQuotes {
        FieldCount(line, from + 1, if rest[0] == '"' then current else current + [rest[0]], rest[0] != '"');
      } else if rest[0] == ',' {
        FieldCount(line, from + 1, "", false);
      } else {
        FieldCount(line, from + 1, if rest[0] == '"' then current else current + [rest[0]], rest[0] == '"');
      }
    }
  }

  // ---------------------------------------------------------------- field by field

  /** An even number of quotes stands before position `k`. */
  predicate Outside(line: string, k: nat)
    requires k <= |line|
  {
    Quotes(line[..k]) % 2 == 0
  }

  /** A comma outside quotes. */
  predicate EndsAt(line: string, k: nat)
    requires k < |line|
  {
    line[k] == ',' && Outside(line, k)
  }

  /** A character that belongs to its field: any but a quote, or the second quote of a pair. */
  predicate KeptAt(line: string, k: nat)
    requires k < |line|
  {
    if line[k] == '"' then k > 0 && line[k - 1] == '"' && Outside(line, k) else !EndsAt(line, k)
  }

  /** The characters kept between two positions. */
  function KeptText(line: string, from: nat, to: nat): string
    requires from <= to <= |line|
  {
    if from == to then "" else KeptText(line, from, to - 1) + if KeptAt(line, to - 1) then [line[to - 1]] else ""
  }

  /** The first comma outside quotes from `from` on, or the end of the line. */
  function FieldEnd(line: string, from: nat): (to: nat)
    requires from <= |line|
    ensures from <= to <= |line| && (to < |line| ==> line[to] == ',' && Quotes(line[..to]) % 2 == 0)
    ensures forall k :: from <= k < to ==> line[k] != ',' || Quotes(line[..k]) % 2 == 1
    decreases |line| - from
  {
    if from == |line| || EndsAt(line, from) then from else FieldEnd(line, from + 1)
  }

  /** The fields of a line, by the parity of the quotes before each position. */
  function FieldsByParity(line: string, from: nat): seq<string>
    requires from <= |line|
    decreases |line| - from
  {
    var to := FieldEnd(line, from);
    [Trim(KeptText(line, from, to))] + if to == |line| then [] else FieldsByParity(line, to + 1)
  }

  /** The automaton stands at `k`, inside quotes or not, and is not about to reopen what it closed. */
  predicate At(line: string, k: nat, inQuotes: bool) {
    k <= |line| && inQuotes == !Outside(line, k) && (k > 0 && line[k - 1] == '"' && Outside(line, k) && k < |line| ==> line[k] != '"')
  }

  /** What one turn of the automaton does at position `k` of a field. */
  lemma TurnAt(line: string, from: nat, k: nat, inQuotes: bool)
    requires from <= k < |line| && At(line, k, inQuotes) && !EndsAt(line, k)
    ensures var n := if inQuotes && line[k] == '"' && k + 1 < |line| && line[k + 1] == '"' then k + 2 else k + 1;
            var current, more := KeptText(line, from, k), KeptText(line, from, n);
            && At(line, n, if line[k] == '"' && n == k + 1 then !inQuotes else inQuotes)
            && Fields(line[k..], current, inQuotes) == Fields(line[n..], more, if line[k] == '"' && n == k + 1 then !inQuotes else inQuotes)
            && forall i :: k <= i < n ==> !EndsAt(line, i)
  {
    QuotesNext(line, k);
    assert line[k..][1..] == line[k + 1..];
    if inQuotes && line[k] == '"' && k + 1 < |line| && line[k + 1] == '"' {
      QuotesNext(line, k + 1);
      assert line[k..][2..] == line[k + 2..];
      assert KeptText(line, from, k + 1) == KeptText(line, from, k);
      assert KeptText(line, from, k + 2) == KeptText(line, from, k) + "\"";
    } else if line[k] == '"' {
      assert KeptText(line, from, k + 1) == KeptText(line, from, k);
    } else {
      assert KeptText(line, from, k + 1) == KeptText(line, from, k) + [line[k]];
    }
  }

  lemma {:induction false} FieldFrom(line: string, from: nat, k: nat, inQuotes: bool)
    requires from <= k <= |line| && k <= FieldEnd(line, from) && At(line, k, inQuotes)
    ensures var to := FieldEnd(line, from);
            Fields(line[k..], KeptText(line, from, k), inQuotes) ==
            [Trim(KeptText(line, from, to))] + if to == |line| then [] else Fields(line[to + 1..], "", false)
    ensures FieldEnd(line, from) < |line| ==> At(line, FieldEnd(line, from) + 1, false)
    decreases |line| - k
  {
    hide KeptAt, Trim, KeptText;
    var to := FieldEnd(line, from);
    if k == to {
      if k < |line| {
        QuotesNext(line, k);
        assert line[k..][1..] == line[k + 1..];
      }
    } else {
      TurnAt(line, from, k, inQuotes);
      var n := if inQuotes && line[k] == '"' && k + 1 < |line| && line[k + 1] == '"' then k + 2 else k + 1;
      FieldFrom(line, from, n, if line[k] == '"' && n == k + 1 then !inQuotes else inQuotes);
    }
  }

  lemma {:induction false} FieldsFrom(line: string, from: nat)
    requires from <= |line| && At(line, from, false)
    ensures Fields(line[from..], "", false) == FieldsByParity(line, from)
    decreases |line| - from
  {
    hide Fields, KeptAt, At, Trim;
    FieldFrom(line, from, from, false);
    if FieldEnd(line, from) < |line| {
      FieldsFrom(line, FieldEnd(line, from) + 1);
    }
  }

  /** Every line, malformed ones too: a field runs to the next comma with an even number of quotes
      before it, and consists of everything but quotes, and of every quote that follows another
      with an even number before it, trimmed. */
  lemma FieldsAreByParity(line: string)
    ensures Fields(line, "", false) == FieldsByParity(line, 0)
  {
    assert line[0..] == line && line[..0] == "";
    FieldsFrom(line, 0);
  }

  // ---------------------------------------------------------------- round trip

  /** One written cell: an escaped value between fixed texts, as in `check_<name>_passed`. */
  datatype Cell = Cell(before: string, value: string, after: string) {
    function Written(): string { before + CsvEscape(value) + after }
    function Meant(): string { before + value + after }
  }

  predicate Plain(s: string) {
    ',' !in s && '"' !in s
  }

  predicate PlainCells(cells: seq<Cell>) {
    forall i :: 0 <= i < |cells| ==> Plain(cells[i].before) && Plain(cells[i].after)
  }

  function WrittenCells(cells: seq<Cell>): seq<string> {
    seq(|cells|, i requires 0 <= i < |cells| => cells[i].Written())
  }

  lemma {:induction false} PlainText(s: string, rest: string, current: string)
    requires Plain(s)
    ensures Fields(s + rest, current, false) == Fields(rest, current + s, false)
    decreases |s|
  {
    if s == "" {
      assert s + rest == rest && current + s == current;
    } else {
      assert (s + rest)[1..] == s[1..] + rest;
      assert s[0] in s && forall c :: c in s[1..] ==> c in s;
      PlainText(s[1..], rest, current + [s[0]]);
      assert current + [s[0]] + s[1..] == current + s;
    }
  }

  lemma {:induction false} QuotedText(s: string, rest: string, current: string)
    requires rest != "" ==> rest[0] != '"'
    ensures Fields(DoubleQuotes(s) + "\"" + rest, current, true) == Fields(rest, current + s, false)
    decreases |s|
  {
    var text := DoubleQuotes(s) + "\"" + rest;
    if s == "" {
      assert text == "\"" + rest && text[1..] == rest && current + s == current;
    } else {
      var tail := DoubleQuotes(s[1..]) + "\"" + rest;
      QuotedText(s[1..], rest, current + [s[0]]);
      assert current + [s[0]] + s[1..] == current + s;
      if s[0] == '"' {
        assert text == "\"\"" + tail && text[2..] == tail;
      } else {
        assert text == [s[0]] + tail && text[1..] == tail;
      }
    }
  }

  lemma OpensQuotes(rest: string, current: string)
    ensures Fields("\"" + rest, current, false) == Fields(rest, current, true)
  {
    assert ("\"" + rest)[1..] == rest;
  }

  /** An escaped value, quoted or not, is read as itself. */
  lemma EscapedText(value: string, rest: string, current: string)
    requires rest != "" ==> rest[0] != '"'
    ensures Fields(CsvEscape(value) + rest, current, false) == Fields(rest, current + value, false)
  {
    hide Fields;
    if NeedsQuotes(value) {
      var inside := DoubleQuotes(value) + "\"" + rest;
      assert CsvEscape(value) + rest == "\"" + inside;
      OpensQuotes(inside, current);
      QuotedText(value, rest, current);
    } else {
      PlainText(value, rest, current);
    }
  }

  lemma CellText(cell: Cell, rest: string)
    requires Plain(cell.before) && Plain(cell.after) && (rest == "" || rest[0] == ',')
    ensures Fields(cell.Written() + rest, "", false) == Fields(rest, cell.Meant(), false)
  {
    hide Fields, CsvEscape;
    var value := CsvEscape(cell.value);
    assert cell.Written() + rest == cell.before + (value + (cell.after + rest));
    PlainText(cell.before, value + (cell.after + rest), "");
    assert "" + cell.before == cell.before;
    EscapedText(cell.value, cell.after + rest, cell.before);
    PlainText(cell.after, rest, cell.before + cell.value);
  }

  lemma EndsField(tail: string, current: string)
    ensures Fields("," + tail, current, false) == [Trim(current)] + Fields(tail, "", false)
    ensures Fields("", current, false) == [Trim(current)]
  {
    assert ("," + tail)[1..] == tail;
  }

  function TrimmedCells(cells: seq<Cell>): seq<string> {
    seq(|cells|, i requires 0 <= i < |cells| => Trim(cells[i].Meant()))
  }

  /** Parsing a written row gives every cell's text back, trimmed, whatever commas, quotes and
      line breaks the values hold. */
  lemma {:induction false} RowRoundTrip(cells: seq<Cell>)
    requires cells != [] && PlainCells(cells)
    ensures Fields(Join(WrittenCells(cells), ","), "", false) == TrimmedCells(cells)
    decreases |cells|
  {
    hide Fields, CsvEscape, Trim;
    var first, rest := cells[0], cells[1..];
    if rest == [] {
      assert Join(WrittenCells(cells), ",") == first.Written() + "";
      CellText(first, "");
      EndsField("", first.Meant());
    } else {
      var tail := Join(WrittenCells(rest), ",");
      assert WrittenCells(cells)[1..] == WrittenCells(rest);
      assert Join(WrittenCells(cells), ",") == first.Written() + ("," + tail);
      CellText(first, "," + tail);
      EndsField(tail, first.Meant());
      RowRoundTrip(rest);
      assert TrimmedCells(cells) == [Trim(first.Meant())] + TrimmedCells(rest);
    }
  }

  function Escaped(fields: seq<string>): seq<string> {
    seq(|fields|, i requires 0 <= i < |fields| => CsvEscape(fields[i]))
  }

  function TrimAll(fields: seq<string>): seq<string> {
    seq(|fields|, i requires 0 <= i < |fields| => Trim(fields[i]))
  }

  /** The writer and the reader: fields come back trimmed, and unchanged exactly when none
      begins or ends with white space (quoting does not protect it). */
  lemma FieldsRoundTrip(fields: seq<string>)
    requires fields != []
    ensures Fields(Join(Escaped(fields), ","), "", false) == TrimAll(fields)
    ensures Fields(Join(Escaped(fields), ","), "", false) == fields <==> forall i :: 0 <= i < |fields| ==> Trimmed(fields[i])
  {
    var cells := seq(|fields|, i requires 0 <= i < |fields| => Cell("", fields[i], ""));
    forall i | 0 <= i < |fields| ensures cells[i].Written() == CsvEscape(fields[i]) && cells[i].Meant() == fields[i] {
    }
    assert WrittenCells(cells) == Escaped(fields);
    RowRoundTrip(cells);
    forall i | 0 <= i < |fields| ensures Trim(fields[i]) == fields[i] <==> Trimmed(fields[i]) {
      TrimIsTrimmed(fields[i]);
    }
    if TrimAll(fields) == fields {
      assert forall i :: 0 <= i < |fields| ==> TrimAll(fields)[i] == fields[i];
    }
  }
}
