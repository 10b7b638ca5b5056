/** The event stream interpretation of sections 9.2.5 and 9.2.6 of the WHATWG HTML standard, and
    when the reader (src/bridge/sse.rs) agrees with it. */
module SseStandard {
  import opened Wrappers
  import opened Text
  import opened SseReader

  // ---------------------------------------------------------------- the standard

  datatype StandardEvent = StandardEvent(kind: string, data: string, lastId: string)

  /** The data, event type and last event ID buffers. */
  datatype Buffers = Buffers(data: string, kind: string, lastId: string)

  /** Lines end with CR LF, LF or CR; what no line end follows is never processed. */
  function StandardLines(text: string, line: string): seq<string>
    decreases |text|
  {
    if text == "" then []
    else if text[0] == '\n' then [line] + StandardLines(text[1..], "")
    else if "\r\n" <= text then [line] + StandardLines(text[2..], "")
    else if text[0] == '\r' then [line] + StandardLines(text[1..], "")
    else StandardLines(text[1..], line + [text[0]])
  }

  /** The characters before the first colon, all of them if there is none. */
  function FieldName(line: string): string {
    if line == "" || line[0] == ':' then "" else [line[0]] + FieldName(line[1..])
  }

  lemma {:induction false} FieldNameLength(line: string)
    ensures |FieldName(line)| <= |line|
    decreases |line|
  {
    if line != "" && line[0] != ':' {
      FieldNameLength(line[1..]);
    }
  }

  function DropSpace(value: string): string {
    if value != "" && value[0] == ' ' then value[1..] else value
  }

  /** What follows the colon less one leading space, or nothing if there is no colon. */
  function FieldValue(line: string): string {
    FieldNameLength(line);
    if |FieldName(line)| == |line| then "" else DropSpace(line[|FieldName(line)| + 1..])
  }

  /** A line that is not empty; a comment has the empty name. */
  function Process(b: Buffers, line: string): Buffers {
    var name, value := FieldName(line), FieldValue(line);
    if name == "event" then b.(kind := value)
    else if name == "data" then b.(data := b.data + value + "\n")
    else if name == "id" && '\0' !in value then b.(lastId := value)
    else b
  }

  /** An empty line dispatches an event unless the data buffer is empty. */
  function Dispatch(b: Buffers): seq<StandardEvent> {
    if b.data == "" then []
    else
      var data := if b.data[|b.data| - 1] == '\n' then b.data[..|b.data| - 1] else b.data;
      [StandardEvent(if b.kind == "" then "message" else b.kind, data, b.lastId)]
  }

  function Fresh(lastId: string): Buffers {
    Buffers("", "", lastId)
  }

  function Interpret(lines: seq<string>, b: Buffers): seq<StandardEvent>
    decreases |lines|
  {
    if lines == [] then []
    else if lines[0] == "" then Dispatch(b) + Interpret(lines[1..], Fresh(b.lastId))
    else Interpret(lines[1..], Process(b, lines[0]))
  }

  const BOM := '\U{FEFF}'

  /** The events of a stream, decoded with its byte order mark removed. */
  function Standard(text: string): seq<StandardEvent> {
    Interpret(StandardLines(if text != "" && text[0] == BOM then text[1..] else text, ""), Fresh(""))
  }

  // ---------------------------------------------------------------- the reader, seen the same way

  /** What `recv` gives out, with the last event ID the client has then. */
  function Seen(events: seq<SseEvent>, lastId: string): seq<StandardEvent>
    decreases |events|
  {
    if events == [] then []
    else
      var e := events[0];
      var id := if e.id.Some? then e.id.value else lastId;
      [StandardEvent(if e.event.Some? then e.event.value else "message", e.data, id)] + Seen(events[1..], id)
  }

  // ---------------------------------------------------------------- one block

  /** Lines up to an empty one. */
  predicate IsBlock(block: seq<string>) {
    forall i :: 0 <= i < |block| ==> block[i] != "" && '\n' !in block[i]
  }

  /** The reader's variables after a block. */
  function TakeAll(block: seq<string>): Partial
    requires IsBlock(block)
  {
    if block == [] then NOTHING else Take(TakeAll(block[..|block| - 1]), block[|block| - 1])
  }

  function ProcessAll(block: seq<string>, lastId: string): Buffers {
    if block == [] then Fresh(lastId) else Process(ProcessAll(block[..|block| - 1], lastId), block[|block| - 1])
  }

  /** The data values of a block as the standard has them, and as the reader does. */
  function StandardData(block: seq<string>): seq<string> {
    if block == [] then []
    else
      var front, last := StandardData(block[..|block| - 1]), block[|block| - 1];
      if FieldName(last) == "data" then front + [FieldValue(last)] else front
  }

  function ReaderData(block: seq<string>): seq<string> {
    if block == [] then []
    else
      var front, last := ReaderData(block[..|block| - 1]), block[|block| - 1];
      if "data:" <= last then front + [Trim(last[5..])] else front
  }

  /** The last line of that name. */
  function LastNamed(block: seq<string>, name: string): Option<string> {
    if block == [] then None
    else if FieldName(block[|block| - 1]) == name then Some(block[|block| - 1])
    else LastNamed(block[..|block| - 1], name)
  }

  /** The trimmed value of the last line that starts with `name`. */
  function LastTrimmed(block: seq<string>, name: string): Option<string> {
    if block == [] then None
    else if name <= block[|block| - 1] then Some(Trim(block[|block| - 1][|name|..]))
    else LastTrimmed(block[..|block| - 1], name)
  }

  /** The last id without a NUL, or the one before the block. */
  function StandardId(block: seq<string>, lastId: string): string {
    if block == [] then lastId
    else
      var last := block[|block| - 1];
      if FieldName(last) == "id" && '\0' !in FieldValue(last) then FieldValue(last)
      else StandardId(block[..|block| - 1], lastId)
  }

  predicate HasContent(block: seq<string>)
    requires IsBlock(block)
  {
    exists i :: 0 <= i < |block| && block[i][0] != ':'
  }

  // ---------------------------------------------------------------- when a block is read alike

  /** Every data field has a colon and, after one space, a value without white space at its ends;
      or the only data field is a bare `data`. */
  predicate DataKept(block: seq<string>) {
    || (forall i :: 0 <= i < |block| && FieldName(block[i]) == "data" ==> "data:" <= block[i] && Trimmed(FieldValue(block[i])))
    || (StandardData(block) == [""] && ReaderData(block) == [])
  }

  /** The last event field has a colon and, after one space, a trimmed value that is not empty; or
      it is a bare `event`, and the reader has no other type to fall back on. */
  predicate TypeKept(block: seq<string>) {
    match LastNamed(block, "event")
    case None => true
    case Some(line) =>
      if "event:" <= line then FieldValue(line) != "" && Trimmed(FieldValue(line))
      else LastTrimmed(block, "event:").None? || LastTrimmed(block, "event:").value == "message"
  }

  /** The last id field has a colon and, after one space, a trimmed value without a NUL; or it is
      a bare `id`, and the reader has no other id to hold on to. */
  predicate IdKept(block: seq<string>, lastId: string) {
    match LastNamed(block, "id")
    case None => true
    case Some(line) =>
      if "id:" <= line then '\0' !in FieldValue(line) && Trimmed(FieldValue(line))
      else (if LastTrimmed(block, "id:").Some? then LastTrimmed(block, "id:").value else lastId) == ""
  }

  predicate Kept(block: seq<string>, lastId: string)
    requires IsBlock(block)
  {
    HasContent(block) ==> StandardData(block) != [] && DataKept(block) && TypeKept(block) && IdKept(block, lastId)
  }

  // ---------------------------------------------------------------- fields

  lemma {:induction false} NameIs(line: string, name: string)
    requires ':' !in name
    ensures name + ":" <= line <==> FieldName(line) == name && |name| < |line|
    decreases |name|
  {
    FieldNameLength(line);
    if name == "" {
      assert name + ":" == ":";
    } else if line != "" && line[0] != ':' {
      NameIs(line[1..], name[1..]);
      assert name == [name[0]] + name[1..] && line == [line[0]] + line[1..];
      assert name + ":" == [name[0]] + (name[1..] + ":");
      assert name + ":" <= line <==> name[0] == line[0] && name[1..] + ":" <= line[1..];
    }
  }

  lemma Names(line: string)
    ensures "data:" <= line <==> FieldName(line) == "data" && 4 < |line|
    ensures "event:" <= line <==> FieldName(line) == "event" && 5 < |line|
    ensures "id:" <= line <==> FieldName(line) == "id" && 2 < |line|
  {
    NameIs(line, "data");
    NameIs(line, "event");
    NameIs(line, "id");
    assert "data" + ":" == "data:" && "event" + ":" == "event:" && "id" + ":" == "id:";
  }

  /** Trimming keeps a value that the standard would take, less one space, exactly if that is trimmed. */
  lemma TrimsToValue(value: string)
    ensures Trim(value) == DropSpace(value) <==> Trimmed(DropSpace(value))
    ensures Trim(value) == Trim(DropSpace(value))
  {
    assert IsWhitespace(' ');
    TrimIsTrimmed(DropSpace(value));
  }

  // ---------------------------------------------------------------- what a block leaves behind

  lemma {:induction false} TakeAllShape(block: seq<string>)
    requires IsBlock(block)
    ensures var p := TakeAll(block);
            && p.dataLines == ReaderData(block)
            && p.eventType == LastTrimmed(block, "event:") && p.id == LastTrimmed(block, "id:")
            && (p.hasContent <==> HasContent(block))
            && (!p.hasContent ==> p == NOTHING)
    decreases |block|
  {
    if block != [] {
      var front, last := block[..|block| - 1], block[|block| - 1];
      assert forall i :: 0 <= i < |front| ==> front[i] == block[i];
      TakeAllShape(front);
      ContentSnoc(block);
      if last[0] != ':' {
        Prefixes(last);
      } else {
        assert !("data:" <= last) && !("event:" <= last) && !("id:" <= last);
      }
    }
  }

  lemma ContentSnoc(block: seq<string>)
    requires block != [] && IsBlock(block)
    ensures IsBlock(block[..|block| - 1])
    ensures HasContent(block) <==> HasContent(block[..|block| - 1]) || block[|block| - 1][0] != ':'
  {
    var front := block[..|block| - 1];
    assert forall i :: 0 <= i < |front| ==> front[i] == block[i];
    if HasContent(front) {
      var i :| 0 <= i < |front| && front[i][0] != ':';
      assert block[i][0] != ':';
    }
    if i :| 0 <= i < |block| && block[i][0] != ':' {
      assert i < |front| ==> front[i][0] != ':';
    }
  }

  /** A line starts with one field name at most. */
  lemma Prefixes(line: string)
    ensures "event:" <= line ==> !("data:" <= line) && !("id:" <= line)
    ensures "data:" <= line ==> !("id:" <= line)
  {
    assert "event:"[0] == 'e' && "data:"[0] == 'd' && "id:"[0] == 'i';
  }

  /** Each value with the line feed the standard puts after it. */
  function Terminated(values: seq<string>): string {
    if values == [] then "" else Terminated(values[..|values| - 1]) + values[|values| - 1] + "\n"
  }

  lemma {:induction false} ProcessAllShape(block: seq<string>, lastId: string)
    ensures var b := ProcessAll(block, lastId);
            && b.data == Terminated(StandardData(block)) && b.lastId == StandardId(block, lastId)
            && b.kind == StandardKind(block)
    decreases |block|
  {
    if block != [] {
      var front, last := block[..|block| - 1], block[|block| - 1];
      ProcessAllShape(front, lastId);
      ProcessOne(ProcessAll(front, lastId), last);
      if FieldName(last) == "data" {
        TerminatedSnoc(StandardData(front), FieldValue(last));
      }
    }
  }

  /** The event type buffer after a block. */
  function StandardKind(block: seq<string>): string {
    var line := LastNamed(block, "event");
    if line.Some? then FieldValue(line.value) else ""
  }

  lemma ProcessOne(b: Buffers, line: string)
    ensures Process(b, line).data == if FieldName(line) == "data" then b.data + FieldValue(line) + "\n" else b.data
    ensures Process(b, line).kind == if FieldName(line) == "event" then FieldValue(line) else b.kind
    ensures Process(b, line).lastId == if FieldName(line) == "id" && '\0' !in FieldValue(line) then FieldValue(line) else b.lastId
  {
    assert |"event"| == 5 && |"data"| == 4 && |"id"| == 2;
  }

  lemma TerminatedSnoc(values: seq<string>, value: string)
    ensures Terminated(values + [value]) == Terminated(values) + value + "\n"
  {
    assert (values + [value])[..|values|] == values;
  }

  lemma {:induction false} JoinSnoc(values: seq<string>, value: string)
    ensures Join(values + [value], "\n") == if values == [] then value else Join(values, "\n") + "\n" + value
    decreases |values|
  {
    var all := values + [value];
    if values != [] {
      assert all[1..] == values[1..] + [value];
      JoinSnoc(values[1..], value);
      if |values| > 1 {
        assert values[0] + "\n" + (Join(values[1..], "\n") + "\n" + value) == (values[0] + "\n" + Join(values[1..], "\n")) + "\n" + value;
      }
    }
  }

  lemma {:induction false} TerminatedJoin(values: seq<string>)
    ensures Terminated(values) == if values == [] then "" else Join(values, "\n") + "\n"
    decreases |values|
  {
    hide Join;
    if values != [] {
      var front, last := values[..|values| - 1], values[|values| - 1];
      TerminatedJoin(front);
      JoinSnoc(front, last);
      assert front + [last] == values;
    }
  }

  /** What the standard dispatches after a block. */
  lemma DispatchShape(block: seq<string>, lastId: string)
    ensures var b := ProcessAll(block, lastId);
            Dispatch(b) == if StandardData(block) == [] then []
                           else [StandardEvent(if b.kind == "" then "message" else b.kind, Join(StandardData(block), "\n"), b.lastId)]
  {
    ProcessAllShape(block, lastId);
    TerminatedJoin(StandardData(block));
    var joined := Join(StandardData(block), "\n");
    assert (joined + "\n")[..|joined|] == joined;
  }

  // ---------------------------------------------------------------- the data

  predicate NoLf(values: seq<string>) {
    forall i :: 0 <= i < |values| ==> '\n' !in values[i]
  }

  lemma {:induction false} JoinIsInjective(a: seq<string>, b: seq<string>)
    requires a != [] && b != [] && NoLf(a) && NoLf(b) && Join(a, "\n") == Join(b, "\n")
    ensures a == b
    decreases |a|
  {
    var text := Join(a, "\n");
    JoinStarts(a);
    JoinStarts(b);
    FirstIsNoShorter(a, b);
    FirstIsNoShorter(b, a);
    assert a[0] == text[..|a[0]|] == b[0];
    if |a| > 1 {
      assert Join(a[1..], "\n") == text[|a[0]| + 1..] == Join(b[1..], "\n");
      JoinIsInjective(a[1..], b[1..]);
      assert a == [a[0]] + a[1..] && b == [b[0]] + b[1..];
    }
  }

  lemma FirstIsNoShorter(a: seq<string>, b: seq<string>)
    requires a != [] && b != [] && NoLf(b)
    ensures |a[0]| < |b[0]| ==> Join(a, "\n") != Join(b, "\n")
  {
    JoinStarts(a);
    JoinStarts(b);
    if |a[0]| < |b[0]| {
      assert Join(b, "\n")[|a[0]|] == b[0][|a[0]|];
    }
  }

  lemma JoinStarts(a: seq<string>)
    requires a != []
    ensures var text := Join(a, "\n");
            && |a[0]| <= |text| && text[..|a[0]|] == a[0]
            && (|a| == 1 <==> |text| == |a[0]|)
            && (|a| > 1 ==> text[|a[0]|] == '\n' && text[|a[0]| + 1..] == Join(a[1..], "\n"))
  {
    if |a| > 1 {
      var rest := Join(a[1..], "\n");
      assert Join(a, "\n") == a[0] + ("\n" + rest);
    }
  }

  lemma {:induction false} ValuesHaveNoLf(block: seq<string>)
    requires forall i :: 0 <= i < |block| ==> '\n' !in block[i]
    ensures NoLf(StandardData(block)) && NoLf(ReaderData(block))
    decreases |block|
  {
    if block != [] {
      var front, last := block[..|block| - 1], block[|block| - 1];
      assert forall i :: 0 <= i < |front| ==> front[i] == block[i];
      ValuesHaveNoLf(front);
      FieldNameLength(last);
      assert '\n' !in FieldValue(last);
      if "data:" <= last {
        TrimIsPart(last[5..], '\n');
      }
    }
  }

  lemma TrimIsPart(s: string, c: char)
    requires c !in s
    ensures c !in Trim(s)
  {
    var a := TrimStartShape(s);
    var b := TrimEndShape(TrimStart(s));
  }

  predicate ColonData(block: seq<string>) {
    forall i :: 0 <= i < |block| && FieldName(block[i]) == "data" ==> "data:" <= block[i] && Trimmed(FieldValue(block[i]))
  }

  lemma {:induction false} SameValuesIff(block: seq<string>)
    ensures |ReaderData(block)| <= |StandardData(block)|
    ensures ReaderData(block) == StandardData(block) <==> ColonData(block)
    decreases |block|
  {
    if block != [] {
      var front, last := block[..|block| - 1], block[|block| - 1];
      SameValuesIff(front);
      Names(last);
      assert ColonData(block) <==> ColonData(front) && (FieldName(last) == "data" ==> "data:" <= last && Trimmed(FieldValue(last))) by {
        assert forall i :: 0 <= i < |front| ==> front[i] == block[i];
      }
      if "data:" <= last {
        TrimsToValue(last[5..]);
        assert FieldValue(last) == DropSpace(last[5..]);
        SnocEqual(ReaderData(front), Trim(last[5..]), StandardData(front), FieldValue(last));
      }
    }
  }

  lemma SnocEqual<T>(a: seq<T>, x: T, b: seq<T>, y: T)
    ensures a + [x] == b + [y] <==> a == b && x == y
  {
    if a + [x] == b + [y] {
      assert |a| == |b| && a == (a + [x])[..|a|] && b == (b + [y])[..|b|];
      assert (a + [x])[|a|] == x && (b + [y])[|b|] == y;
    }
  }

  lemma DataKeptIff(block: seq<string>)
    requires IsBlock(block) && StandardData(block) != []
    ensures Join(ReaderData(block), "\n") == Join(StandardData(block), "\n") <==> DataKept(block)
  {
    var r, d := ReaderData(block), StandardData(block);
    ValuesHaveNoLf(block);
    SameValuesIff(block);
    assert DataKept(block) <==> ColonData(block) || (d == [""] && r == []);
    if Join(r, "\n") == Join(d, "\n") {
      JoinIsInjective(if r == [] then [""] else r, d);
    }
  }

  // ---------------------------------------------------------------- type and id

  /** The id the reader's client holds after a block. */
  function ReaderId(block: seq<string>, lastId: string): string {
    if LastTrimmed(block, "id:").Some? then LastTrimmed(block, "id:").value else lastId
  }

  lemma {:induction false} LastIdShape(block: seq<string>, lastId: string)
    ensures var line := LastNamed(block, "id");
            && (line.Some? ==> FieldName(line.value) == "id")
            && (line.None? ==> LastTrimmed(block, "id:").None? && StandardId(block, lastId) == lastId)
            && (line.Some? && "id:" <= line.value ==> LastTrimmed(block, "id:") == Some(Trim(line.value[3..])))
            && (line.Some? && '\0' !in FieldValue(line.value) ==> StandardId(block, lastId) == FieldValue(line.value))
    ensures '\0' !in lastId ==> '\0' !in StandardId(block, lastId)
    decreases |block|
  {
    if block != [] {
      LastIdShape(block[..|block| - 1], lastId);
      Names(block[|block| - 1]);
    }
  }

  lemma TrimKeepsNul(s: string)
    requires '\0' in s
    ensures '\0' in Trim(s)
  {
    var a := TrimStartShape(s);
    var b := TrimEndShape(TrimStart(s));
    var t := TrimStart(s);
    assert s == s[..a] + (t[..b] + t[b..]);
    assert !IsWhitespace('\0');
  }

  /** A block with an id field settles the id by itself. */
  lemma IdSettled(block: seq<string>, before: string, held: string)
    requires IsBlock(block) && '\0' !in before && LastNamed(block, "id").Some?
    ensures StandardId(block, before) == ReaderId(block, held) <==> IdKept(block, held)
  {
    LastIdShape(block, before);
    var line := LastNamed(block, "id").value;
    Names(line);
    FieldNameLength(line);
    if "id:" <= line {
      var raw := line[3..];
      assert FieldValue(line) == DropSpace(raw);
      TrimsToValue(raw);
      if '\0' in FieldValue(line) {
        assert '\0' in raw;
        TrimKeepsNul(raw);
      }
    }
  }

  lemma IdKeptIff(block: seq<string>, lastId: string)
    requires IsBlock(block) && '\0' !in lastId
    ensures StandardId(block, lastId) == ReaderId(block, lastId) <==> IdKept(block, lastId)
  {
    LastIdShape(block, lastId);
    if LastNamed(block, "id").Some? {
      IdSettled(block, lastId, lastId);
    }
  }

  lemma {:induction false} LastNamedShape(block: seq<string>)
    ensures var line := LastNamed(block, "event");
            && (line.Some? ==> FieldName(line.value) == "event")
            && (line.None? ==> LastTrimmed(block, "event:").None?)
            && (line.Some? && "event:" <= line.value ==> LastTrimmed(block, "event:") == Some(Trim(line.value[6..])))
    decreases |block|
  {
    if block != [] {
      LastNamedShape(block[..|block| - 1]);
      Names(block[|block| - 1]);
    }
  }

  lemma TypeKeptIff(block: seq<string>, lastId: string)
    requires IsBlock(block)
    ensures var kind, given := ProcessAll(block, lastId).kind, LastTrimmed(block, "event:");
            (if kind == "" then "message" else kind) == (if given.Some? then given.value else "message") <==> TypeKept(block)
  {
    ProcessAllShape(block, lastId);
    LastNamedShape(block);
    var line := LastNamed(block, "event");
    if line.Some? {
      Names(line.value);
      FieldNameLength(line.value);
      if "event:" <= line.value {
        TrimsToValue(line.value[6..]);
        assert FieldValue(line.value) == DropSpace(line.value[6..]);
        assert Trim("") == "";
      }
    }
  }

  /** One block is delivered the same by both exactly when its data, type and id are kept. */
  lemma {:induction false} BlockKeptIff(block: seq<string>, lastId: string)
    requires IsBlock(block) && HasContent(block) && StandardData(block) != [] && '\0' !in lastId
    ensures Seen([TakeAll(block).Finish()], lastId) == Dispatch(ProcessAll(block, lastId)) <==> Kept(block, lastId)
  {
    TakeAllShape(block);
    ProcessAllShape(block, lastId);
    DispatchShape(block, lastId);
    DataKeptIff(block);
    TypeKeptIff(block, lastId);
    IdKeptIff(block, lastId);
    var e := TakeAll(block).Finish();
    assert Seen([e], lastId) == [StandardEvent(if e.event.Some? then e.event.value else "message", e.data, if e.id.Some? then e.id.value else lastId)];
  }

  // ---------------------------------------------------------------- whole documents

  function FirstEmpty(lines: seq<string>): (n: nat)
    ensures n <= |lines|
    ensures n < |lines| ==> lines[n] == ""
    ensures forall i :: 0 <= i < n ==> lines[i] != ""
  {
    if lines == [] || lines[0] == "" then 0 else 1 + FirstEmpty(lines[1..])
  }

  predicate LinesOk(lines: seq<string>) {
    forall i :: 0 <= i < |lines| ==> '\n' !in lines[i]
  }

  /** Every block that an empty line ends is read alike. */
  predicate BlocksKept(lines: seq<string>, lastId: string)
    requires LinesOk(lines)
    decreases |lines|
  {
    var n := FirstEmpty(lines);
    n < |lines| ==> Kept(lines[..n], lastId) && BlocksKept(lines[n + 1..], StandardId(lines[..n], lastId))
  }

  /** The lines after the last empty one. */
  function OpenLines(lines: seq<string>): (open: seq<string>)
    requires LinesOk(lines)
    ensures IsBlock(open)
    decreases |lines|
  {
    var n := FirstEmpty(lines);
    if n == |lines| then lines else OpenLines(lines[n + 1..])
  }

  lemma {:induction false} FeedsBlock(lines: seq<string>, k: nat)
    requires LinesOk(lines) && k <= FirstEmpty(lines)
    ensures IsBlock(lines[..k])
    ensures Feed(lines, NOTHING) == Feed(lines[k..], TakeAll(lines[..k]))
    decreases k
  {
    if k == 0 {
      assert lines[0..] == lines && lines[..0] == [];
    } else {
      FeedsBlock(lines, k - 1);
      assert lines[..k][..k - 1] == lines[..k - 1] && lines[k - 1..][1..] == lines[k..];
    }
  }

  lemma {:induction false} InterpretsBlock(lines: seq<string>, k: nat, lastId: string)
    requires k <= FirstEmpty(lines)
    ensures Interpret(lines, Fresh(lastId)) == Interpret(lines[k..], ProcessAll(lines[..k], lastId))
    decreases k
  {
    if k == 0 {
      assert lines[0..] == lines && lines[..0] == [];
    } else {
      InterpretsBlock(lines, k - 1, lastId);
      assert lines[..k][..k - 1] == lines[..k - 1] && lines[k - 1..][1..] == lines[k..];
    }
  }

  /** What the reader delivers from lines, and what stands open after them. */
  function Delivered(lines: seq<string>): seq<SseEvent> {
    Feed(lines, NOTHING).events
  }

  lemma ReaderBlock(lines: seq<string>)
    requires LinesOk(lines) && FirstEmpty(lines) < |lines|
    ensures var n := FirstEmpty(lines);
            var block, rest := lines[..n], lines[n + 1..];
            && IsBlock(block)
            && Delivered(lines) == (if HasContent(block) then [TakeAll(block).Finish()] else []) + Delivered(rest)
            && Feed(lines, NOTHING).open == Feed(rest, NOTHING).open
  {
    var n := FirstEmpty(lines);
    FeedsBlock(lines, n);
    TakeAllShape(lines[..n]);
    assert lines[n..][1..] == lines[n + 1..];
  }

  lemma StandardBlock(lines: seq<string>, lastId: string)
    requires FirstEmpty(lines) < |lines|
    ensures var n := FirstEmpty(lines);
            Interpret(lines, Fresh(lastId)) ==
            Dispatch(ProcessAll(lines[..n], lastId)) + Interpret(lines[n + 1..], Fresh(StandardId(lines[..n], lastId)))
  {
    var n := FirstEmpty(lines);
    InterpretsBlock(lines, n, lastId);
    ProcessAllShape(lines[..n], lastId);
    assert lines[n..][1..] == lines[n + 1..];
  }

  /** A block of comments only leaves no data and no id. */
  lemma {:induction false} NoContent(block: seq<string>, lastId: string)
    requires IsBlock(block) && !HasContent(block)
    ensures StandardData(block) == [] && StandardId(block, lastId) == lastId
    decreases |block|
  {
    if block != [] {
      var front := block[..|block| - 1];
      assert forall i :: 0 <= i < |front| ==> front[i] == block[i];
      assert block[|block| - 1][0] == ':';
      NoContent(front, lastId);
    }
  }

  lemma SeenLength(events: seq<SseEvent>, lastId: string)
    ensures |Seen(events, lastId)| == |events|
    decreases |events|
  {
    if events != [] {
      SeenLength(events[1..], if events[0].id.Some? then events[0].id.value else lastId);
    }
  }

  /** The standard never dispatches more than the reader delivers. */
  lemma {:induction false} NeverMore(lines: seq<string>, lastId: string)
    requires LinesOk(lines)
    ensures |Interpret(lines, Fresh(lastId))| <= |Delivered(lines)|
    decreases |lines|
  {
    var n := FirstEmpty(lines);
    if n < |lines| {
      ReaderBlock(lines);
      StandardBlock(lines, lastId);
      DispatchShape(lines[..n], lastId);
      if !HasContent(lines[..n]) {
        NoContent(lines[..n], lastId);
      }
      NeverMore(lines[n + 1..], StandardId(lines[..n], lastId));
    } else {
      InterpretsBlock(lines, n, lastId);
      assert lines[n..] == [];
    }
  }

  lemma SeenCons(e: SseEvent, events: seq<SseEvent>, lastId: string)
    ensures Seen([e] + events, lastId) == Seen([e], lastId) + Seen(events, Seen([e], lastId)[0].lastId)
  {
    assert ([e] + events)[1..] == events;
    assert [e][1..] == [];
  }

  /** One more event at the end, if any. */
  function IfOpen(open: Partial): seq<SseEvent> {
    if open.hasContent then [open.Finish()] else []
  }

  lemma {:induction false} AgreesOnOpen(lines: seq<string>, lastId: string, open: Partial)
    requires LinesOk(lines) && FirstEmpty(lines) == |lines|
    ensures Seen(Delivered(lines) + IfOpen(open), lastId) == Interpret(lines, Fresh(lastId))
            <==> BlocksKept(lines, lastId) && !open.hasContent
  {
    FeedsBlock(lines, |lines|);
    InterpretsBlock(lines, |lines|, lastId);
    assert lines[|lines|..] == [];
    SeenLength(IfOpen(open), lastId);
  }

  lemma {:induction false} AgreesOnLines(lines: seq<string>, lastId: string, open: Partial)
    requires LinesOk(lines) && '\0' !in lastId
    ensures Seen(Delivered(lines) + IfOpen(open), lastId) == Interpret(lines, Fresh(lastId))
            <==> BlocksKept(lines, lastId) && !open.hasContent
    decreases |lines|, 1
  {
    hide Seen, Delivered, Interpret, ProcessAll, Dispatch, TakeAll, StandardData, StandardId, DataKept, TypeKept, IdKept, HasContent;
    var n := FirstEmpty(lines);
    if n == |lines| {
      AgreesOnOpen(lines, lastId, open);
    } else {
      var block, rest := lines[..n], lines[n + 1..];
      ReaderBlock(lines);
      StandardBlock(lines, lastId);
      if !HasContent(block) {
        NoContent(block, lastId);
        DispatchShape(block, lastId);
        assert [] + Delivered(rest) == Delivered(rest);
        assert [] + Interpret(rest, Fresh(lastId)) == Interpret(rest, Fresh(lastId));
        AgreesOnLines(rest, lastId, open);
      } else {
        AgreesOnBlock(lines, lastId, open);
      }
    }
  }

  /** One event against what the standard dispatches for its block, and the rest against the rest. */
  lemma OneBlock(e: SseEvent, more: seq<SseEvent>, sent: seq<StandardEvent>, rest: seq<StandardEvent>, lastId: string, id: string)
    requires |sent| <= 1 && (sent == [] ==> |rest| <= |more|) && (sent != [] ==> sent[0].lastId == id)
    ensures Seen([e] + more, lastId) == sent + rest <==> sent != [] && Seen([e], lastId) == sent && Seen(more, id) == rest
  {
    SeenCons(e, more, lastId);
    SeenLength([e] + more, lastId);
    SeenLength([e], lastId);
    hide Seen;
    if sent != [] {
      SnocFront(Seen([e], lastId), Seen(more, Seen([e], lastId)[0].lastId), sent, rest);
    }
  }

  /** How many events a block makes, and with which id. */
  lemma DispatchSize(block: seq<string>, lastId: string)
    ensures var sent := Dispatch(ProcessAll(block, lastId));
            && |sent| == (if StandardData(block) == [] then 0 else 1)
            && (sent != [] ==> sent[0].lastId == StandardId(block, lastId))
  {
    DispatchShape(block, lastId);
    ProcessAllShape(block, lastId);
  }

  lemma {:induction false} AgreesOnBlock(lines: seq<string>, lastId: string, open: Partial)
    requires LinesOk(lines) && '\0' !in lastId && FirstEmpty(lines) < |lines|
    requires var block := lines[..FirstEmpty(lines)]; IsBlock(block) && HasContent(block)
    ensures Seen(Delivered(lines) + IfOpen(open), lastId) == Interpret(lines, Fresh(lastId))
            <==> BlocksKept(lines, lastId) && !open.hasContent
    decreases |lines|, 0
  {
    hide Seen, Delivered, Interpret, Dispatch, ProcessAll, TakeAll, StandardData, StandardId, DataKept, TypeKept, IdKept, HasContent;
    var n := FirstEmpty(lines);
    var block, rest := lines[..n], lines[n + 1..];
    var e, more, id := TakeAll(block).Finish(), Delivered(rest) + IfOpen(open), StandardId(block, lastId);
    ReaderBlock(lines);
    StandardBlock(lines, lastId);
    DispatchSize(block, lastId);
    NeverMore(rest, id);
    LastIdShape(block, lastId);
    assert Delivered(lines) + IfOpen(open) == [e] + more;
    OneBlock(e, more, Dispatch(ProcessAll(block, lastId)), Interpret(rest, Fresh(id)), lastId, id);
    AgreesOnLines(rest, id, open);
    if StandardData(block) != [] {
      BlockKeptIff(block, lastId);
    }
  }

  lemma SnocFront<T>(a: seq<T>, x: seq<T>, b: seq<T>, y: seq<T>)
    requires |a| == |b|
    ensures a + x == b + y <==> a == b && x == y
  {
    if a + x == b + y {
      assert a == (a + x)[..|a|] && b == (b + y)[..|b|];
      assert x == (a + x)[|a|..] && y == (b + y)[|b|..];
    }
  }

  // ---------------------------------------------------------------- from texts to lines

  predicate CrHasLf(text: string, i: nat)
    requires i < |text|
  {
    text[i] == '\r' ==> i + 1 < |text| && text[i + 1] == '\n'
  }

  /** Every carriage return is part of a CR LF. */
  predicate NoLoneCr(text: string) {
    forall i :: 0 <= i < |text| ==> CrHasLf(text, i)
  }

  lemma NoLoneCrRest(text: string, n: nat)
    requires NoLoneCr(text) && n <= |text|
    ensures NoLoneCr(text[n..])
  {
    forall i | 0 <= i < |text[n..]| ensures CrHasLf(text[n..], i) {
      assert CrHasLf(text, n + i);
    }
  }

  lemma {:induction false} StripsToNoLf(text: string)
    requires '\n' !in text[..|text| - if text == "" then 0 else 1]
    ensures '\n' !in StripEol(text)
    decreases |text|
  {
    if text != "" && (text[|text| - 1] == '\r' || text[|text| - 1] == '\n') {
      var front := text[..|text| - 1];
      assert front != "" ==> forall c :: c in front[..|front| - 1] ==> c in front;
      StripsToNoLf(front);
    }
  }

  lemma {:induction false} FirstLineOnly(text: string)
    ensures var n := LineLength(text); n > 0 ==> '\n' !in text[..n - 1]
    decreases |text|
  {
    if text != "" && text[0] != '\n' {
      FirstLineOnly(text[1..]);
      var n := LineLength(text);
      if n > 1 {
        assert text[..n - 1] == [text[0]] + text[1..][..n - 2];
      }
    }
  }

  lemma {:induction false} LinesAreOk(text: string)
    ensures LinesOk(LinesOf(text)) && '\n' !in TailOf(text)
    decreases |text|
  {
    if '\n' in text {
      var n := LineLength(text);
      FirstLineOnly(text);
      assert text[..n][..n - 1] == text[..n - 1];
      StripsToNoLf(text[..n]);
      LinesAreOk(text[n..]);
    } else {
      assert forall c :: c in text[..|text| - if text == "" then 0 else 1] ==> c in text;
      StripsToNoLf(text);
    }
  }

  /** Without lone carriage returns both see the same lines. */
  lemma {:induction false} SameFirstLine(text: string, line: string)
    requires NoLoneCr(text) && NoBreak(line)
    ensures var n := LineLength(text);
            StandardLines(text, line) ==
            if '\n' !in text then [] else [line + StripEol(text[..n])] + StandardLines(text[n..], "")
    decreases |text|
  {
    if text != "" {
      NoLoneCrRest(text, 1);
      assert text == [text[0]] + text[1..];
      if text[0] == '\n' {
        assert text[..1] == "" + Eol(false);
        StripsEol("", false);
        assert line + "" == line;
      } else if text[0] == '\r' {
        assert CrHasLf(text, 0);
        assert text[1] == '\n' && LineLength(text[1..]) == 1 && "\r\n" <= text;
        assert text[..2] == "" + Eol(true);
        StripsEol("", true);
        assert line + "" == line;
      } else {
        SameFirstLine(text[1..], line + [text[0]]);
        if '\n' in text {
          StripsHead(text);
        }
      }
    }
  }

  lemma StripsHead(text: string)
    requires text != "" && text[0] != '\n' && text[0] != '\r' && '\n' in text[1..]
    ensures var n, m := LineLength(text), LineLength(text[1..]);
            && n == m + 1 && text[n..] == text[1..][m..]
            && forall line: string :: line + StripEol(text[..n]) == (line + [text[0]]) + StripEol(text[1..][..m])
  {
    var m := LineLength(text[1..]);
    assert text[..m + 1] == [text[0]] + text[1..][..m];
    StripsAfter(text[0], text[1..][..m]);
  }

  lemma {:induction false} StripsAfter(c: char, s: string)
    requires c != '\r' && c != '\n'
    ensures StripEol([c] + s) == [c] + StripEol(s)
    decreases |s|
  {
    var t := [c] + s;
    if s != "" && (s[|s| - 1] == '\r' || s[|s| - 1] == '\n') {
      assert t[..|t| - 1] == [c] + s[..|s| - 1] && t[|t| - 1] == s[|s| - 1];
      StripsAfter(c, s[..|s| - 1]);
    } else if s != "" {
      assert t[|t| - 1] == s[|s| - 1];
    }
  }

  lemma {:induction false} SameLines(text: string)
    requires NoLoneCr(text)
    ensures StandardLines(text, "") == LinesOf(text)
    decreases |text|
  {
    SameFirstLine(text, "");
    if '\n' in text {
      var n := LineLength(text);
      assert "" + StripEol(text[..n]) == StripEol(text[..n]);
      NoLoneCrRest(text, n);
      SameLines(text[n..]);
    }
  }

  // ---------------------------------------------------------------- where the standard differs

  /** The lines of a text after its last empty line, the unfinished one included. */
  function Unfinished(text: string): (lines: seq<string>)
    ensures IsBlock(lines)
  {
    LinesAreOk(text);
    OpenLines(LinesOf(text)) + if TailOf(text) == "" then [] else [TailOf(text)]
  }

  lemma {:induction false} OpenShape(lines: seq<string>)
    requires LinesOk(lines)
    ensures Feed(lines, NOTHING).open == TakeAll(OpenLines(lines))
    decreases |lines|
  {
    var n := FirstEmpty(lines);
    if n < |lines| {
      ReaderBlock(lines);
      OpenShape(lines[n + 1..]);
    } else {
      FeedsBlock(lines, n);
      assert lines[n..] == [] && lines[..n] == lines;
    }
  }

  lemma LeftOpen(text: string)
    ensures ReadAll(text, []) == Delivered(LinesOf(text)) + IfOpen(TakeAll(Unfinished(text)))
  {
    LinesAreOk(text);
    EveryStream(text, [], NOTHING);
    OpenShape(LinesOf(text));
    var open, tail := OpenLines(LinesOf(text)), TailOf(text);
    if tail == "" {
      assert open + [] == open;
    } else {
      assert (open + [tail])[..|open|] == open;
    }
  }

  // ---------------------------------------------------------------- after a byte order mark

  lemma {:induction false} ReaderCons(line: string, block: seq<string>, name: string)
    ensures ReaderData([line] + block) == (if "data:" <= line then [Trim(line[5..])] else []) + ReaderData(block)
    ensures LastTrimmed([line] + block, name) ==
            if LastTrimmed(block, name).Some? then LastTrimmed(block, name)
            else if name <= line then Some(Trim(line[|name|..])) else None
    decreases |block|
  {
    hide Trim;
    if block == [] {
      assert [line] + block == [line] && [line][..0] == [];
    } else {
      assert ([line] + block)[..|block|] == [line] + block[..|block| - 1];
      ReaderCons(line, block[..|block| - 1], name);
    }
  }

  function IdAfter(line: string, lastId: string): string {
    if FieldName(line) == "id" && '\0' !in FieldValue(line) then FieldValue(line) else lastId
  }

  lemma {:induction false} StandardCons(line: string, block: seq<string>, name: string, lastId: string)
    ensures StandardData([line] + block) == (if FieldName(line) == "data" then [FieldValue(line)] else []) + StandardData(block)
    ensures LastNamed([line] + block, name) ==
            if LastNamed(block, name).Some? then LastNamed(block, name) else if FieldName(line) == name then Some(line) else None
    ensures StandardId([line] + block, lastId) == StandardId(block, IdAfter(line, lastId))
    decreases |block|
  {
    hide FieldName, FieldValue;
    if block == [] {
      assert [line] + block == [line] && [line][..0] == [];
    } else {
      assert ([line] + block)[..|block|] == [line] + block[..|block| - 1];
      StandardCons(line, block[..|block| - 1], name, lastId);
    }
  }

  /** A first block whose first line the mark hides from the reader: that line gives no data but
      for one empty value, and no type or id but the ones there are without it. */
  predicate MarkKept(line: string, block: seq<string>) {
    && (if FieldName(line) == "data" then FieldValue(line) == "" && StandardData(block) == []
        else StandardData(block) != [] && DataKept(block))
    && TypeKept(block)
    && (FieldName(line) == "event" && LastNamed(block, "event").None? ==> FieldValue(line) == "" || FieldValue(line) == "message")
    && IdKept(block, "")
    && (FieldName(line) == "id" && LastNamed(block, "id").None? ==> FieldValue(line) == "" || '\0' in FieldValue(line))
  }

  lemma MarkIsNoField(line: string)
    ensures var marked := [BOM] + line;
            && !("data:" <= marked) && !("event:" <= marked) && !("id:" <= marked) && marked != "" && marked[0] != ':'
  {
    assert ([BOM] + line)[0] == BOM && "data:"[0] == 'd' && "event:"[0] == 'e' && "id:"[0] == 'i';
  }

  lemma {:induction false} MarkDataIff(line: string, block: seq<string>)
    requires IsBlock(block) && '\n' !in line
    ensures StandardData([line] + block) != [] && Join(ReaderData(block), "\n") == Join(StandardData([line] + block), "\n") <==>
            if FieldName(line) == "data" then FieldValue(line) == "" && StandardData(block) == []
            else StandardData(block) != [] && DataKept(block)
  {
    hide FieldName, FieldValue, Join;
    StandardCons(line, block, "", "");
    var r, d := ReaderData(block), StandardData(block);
    if FieldName(line) == "data" {
      SameValuesIff(block);
      ValuesHaveNoLf(block);
      ValueHasNoLf(line);
      EmptyJoins();
      var all := [FieldValue(line)] + d;
      assert StandardData([line] + block) == all;
      assert |all| == 1 + |d| && all[0] == FieldValue(line);
      assert FieldValue(line) == "" && d == [] ==> all == [""] && r == [];
      if Join(r, "\n") == Join(all, "\n") {
        JoinIsInjective(if r == [] then [""] else r, all);
      }
    } else if d != [] {
      assert [] + d == d;
      DataKeptIff(block);
    }
  }

  lemma EmptyJoins()
    ensures Join([], "\n") == Join([""], "\n") == ""
  {
  }

  lemma ValueHasNoLf(line: string)
    requires '\n' !in line
    ensures '\n' !in FieldValue(line)
  {
    FieldNameLength(line);
  }

  lemma {:induction false} MarkTypeIff(line: string, block: seq<string>)
    requires IsBlock(block)
    ensures var kind, given := StandardKind([line] + block), LastTrimmed(block, "event:");
            (if kind == "" then "message" else kind) == (if given.Some? then given.value else "message") <==>
            TypeKept(block) && (FieldName(line) == "event" && LastNamed(block, "event").None? ==> FieldValue(line) == "" || FieldValue(line) == "message")
  {
    StandardCons(line, block, "event", "");
    TypeKeptIff(block, "");
    ProcessAllShape(block, "");
    LastNamedShape(block);
  }

  lemma MarkIdIff(line: string, block: seq<string>)
    requires IsBlock(block)
    ensures StandardId([line] + block, "") == ReaderId(block, "") <==>
            IdKept(block, "") && (FieldName(line) == "id" && LastNamed(block, "id").None? ==> FieldValue(line) == "" || '\0' in FieldValue(line))
  {
    StandardCons(line, block, "id", "");
    LastIdShape(block, IdAfter(line, ""));
    if LastNamed(block, "id").Some? {
      IdSettled(block, IdAfter(line, ""), "");
    }
  }

  lemma MarkBlockIff(line: string, block: seq<string>)
    requires IsBlock(block) && '\n' !in line
    ensures IsBlock([[BOM] + line] + block) && HasContent([[BOM] + line] + block)
    ensures StandardData([line] + block) != []
            && Seen([TakeAll([[BOM] + line] + block).Finish()], "") == Dispatch(ProcessAll([line] + block, "")) <==>
            MarkKept(line, block)
  {
    hide FieldName, FieldValue, DataKept, TypeKept, IdKept, StandardData, LastNamed, LastTrimmed, ReaderData, Join, StandardId, StandardKind;
    var read, sent := [[BOM] + line] + block, [line] + block;
    MarkIsNoField(line);
    assert read[0][0] != ':';
    TakeAllShape(read);
    ReaderCons([BOM] + line, block, "event:");
    ReaderCons([BOM] + line, block, "id:");
    assert [] + ReaderData(block) == ReaderData(block);
    ProcessAllShape(sent, "");
    DispatchShape(sent, "");
    MarkDataIff(line, block);
    MarkTypeIff(line, block);
    MarkIdIff(line, block);
    var e := TakeAll(read).Finish();
    assert Seen([e], "") == [StandardEvent(if e.event.Some? then e.event.value else "message", e.data, if e.id.Some? then e.id.value else "")];
  }

  /** The mark stands before the first line and changes no other. */
  lemma MarkLines(text: string)
    ensures '\n' !in text ==> LinesOf([BOM] + text) == [] && TailOf([BOM] + text) != "" && TailOf([BOM] + text)[0] == BOM
    ensures '\n' in text ==> LinesOf(text) != [] && LinesOf([BOM] + text) == [[BOM] + LinesOf(text)[0]] + LinesOf(text)[1..]
                              && TailOf([BOM] + text) == TailOf(text)
  {
    var marked := [BOM] + text;
    assert marked[1..] == text;
    if '\n' in text {
      var n := LineLength(text);
      assert LineLength(marked) == n + 1 && marked[..n + 1] == [BOM] + text[..n] && marked[n + 1..] == text[n..];
      StripsAfter(BOM, text[..n]);
    } else {
      StripsAfter(BOM, text);
    }
  }

  /** What the reader delivers after the mark: the first block is never without content. */
  lemma MarkedReader(lines: seq<string>)
    requires LinesOk(lines) && lines != []
    ensures var marked, k := [[BOM] + lines[0]] + lines[1..], FirstEmpty(lines[1..]);
            && LinesOk(marked)
            && (k == |lines| - 1 ==> Delivered(marked) == [] && HasContent(OpenLines(marked)))
            && (k < |lines| - 1 ==>
                  var block, rest := lines[1..][..k], lines[1..][k + 1..];
                  && IsBlock([[BOM] + lines[0]] + block) && HasContent([[BOM] + lines[0]] + block)
                  && Delivered(marked) == [TakeAll([[BOM] + lines[0]] + block).Finish()] + Delivered(rest)
                  && OpenLines(marked) == OpenLines(rest))
  {
    var marked, k := [[BOM] + lines[0]] + lines[1..], FirstEmpty(lines[1..]);
    forall i | 0 <= i < |marked| ensures '\n' !in marked[i] {
      assert i > 0 ==> marked[i] == lines[i];
    }
    assert marked[0] != "" && marked[1..] == lines[1..];
    assert FirstEmpty(marked) == k + 1;
    MarkIsNoField(lines[0]);
    assert marked[0][0] != ':';
    if k == |lines| - 1 {
      FeedsBlock(marked, |marked|);
      assert marked[|marked|..] == [];
    } else {
      ReaderBlock(marked);
      assert marked[..k + 1] == [[BOM] + lines[0]] + lines[1..][..k];
      assert marked[k + 2..] == lines[1..][k + 1..];
      assert ([[BOM] + lines[0]] + lines[1..][..k])[0][0] != ':';
    }
  }

  lemma EmptyLineFirst(block: seq<string>, lastId: string)
    ensures ProcessAll([""] + block, lastId) == ProcessAll(block, lastId)
    ensures StandardId([""] + block, lastId) == StandardId(block, lastId)
  {
    StandardCons("", block, "event", lastId);
    ProcessAllShape([""] + block, lastId);
    ProcessAllShape(block, lastId);
    assert [] + StandardData(block) == StandardData(block);
  }

  lemma LeadingEmpty(lines: seq<string>)
    requires lines != [] && lines[0] == ""
    ensures Interpret(lines, Fresh("")) == Interpret(lines[1..], Fresh(""))
  {
    assert Dispatch(Fresh("")) == [];
    assert Interpret(lines, Fresh("")) == [] + Interpret(lines[1..], Fresh(""));
  }

  lemma {:induction false} MarkedEmpty(lines: seq<string>)
    requires lines != [] && lines[0] == ""
    ensures var k := FirstEmpty(lines[1..]);
            if k == |lines| - 1 then Interpret(lines, Fresh("")) == []
            else
              var first, rest := [""] + lines[1..][..k], lines[1..][k + 1..];
              Interpret(lines, Fresh("")) == Dispatch(ProcessAll(first, "")) + Interpret(rest, Fresh(StandardId(first, "")))
  {
    hide *;
    LeadingEmpty(lines);
    NothingOpen(lines[1..], "");
    if FirstEmpty(lines[1..]) < |lines| - 1 {
      var block := lines[1..][..FirstEmpty(lines[1..])];
      StandardBlock(lines[1..], "");
      EmptyLineFirst(block, "");
    }
  }

  lemma {:induction false} MarkedLine(lines: seq<string>)
    requires lines != [] && lines[0] != ""
    ensures var k := FirstEmpty(lines[1..]);
            if k == |lines| - 1 then Interpret(lines, Fresh("")) == []
            else
              var first, rest := [lines[0]] + lines[1..][..k], lines[1..][k + 1..];
              Interpret(lines, Fresh("")) == Dispatch(ProcessAll(first, "")) + Interpret(rest, Fresh(StandardId(first, "")))
  {
    hide *;
    var k := FirstEmpty(lines[1..]);
    FirstEmptyCons(lines);
    NothingOpen(lines, "");
    if k < |lines| - 1 {
      StandardBlock(lines, "");
      SliceCons(lines, k);
    }
  }

  lemma FirstEmptyCons(lines: seq<string>)
    requires lines != [] && lines[0] != ""
    ensures FirstEmpty(lines) == FirstEmpty(lines[1..]) + 1
  {
  }

  lemma SliceCons(lines: seq<string>, k: nat)
    requires k + 1 < |lines|
    ensures lines[..k + 1] == [lines[0]] + lines[1..][..k] && lines[k + 1 + 1..] == lines[1..][k + 1..]
  {
  }

  /** What the standard dispatches, with the first line in the first block. */
  lemma {:induction false} MarkedStandard(lines: seq<string>)
    requires lines != []
    ensures var k := FirstEmpty(lines[1..]);
            if k == |lines| - 1 then Interpret(lines, Fresh("")) == []
            else
              var first, rest := [lines[0]] + lines[1..][..k], lines[1..][k + 1..];
              Interpret(lines, Fresh("")) == Dispatch(ProcessAll(first, "")) + Interpret(rest, Fresh(StandardId(first, "")))
  {
    hide *;
    if lines[0] == "" {
      MarkedEmpty(lines);
    } else {
      MarkedLine(lines);
    }
  }

  lemma {:induction false} NothingOpen(lines: seq<string>, lastId: string)
    ensures FirstEmpty(lines) == |lines| ==> Interpret(lines, Fresh(lastId)) == []
  {
    if FirstEmpty(lines) == |lines| {
      InterpretsBlock(lines, |lines|, lastId);
      assert lines[|lines|..] == [];
    }
  }

  /** The condition for a document whose lines follow a byte order mark. */
  predicate MarkedKept(lines: seq<string>)
    requires LinesOk(lines)
  {
    && lines != []
    && var k := FirstEmpty(lines[1..]);
    && k < |lines| - 1
    && MarkKept(lines[0], lines[1..][..k])
    && BlocksKept(lines[1..][k + 1..], StandardId([lines[0]] + lines[1..][..k], ""))
  }

  lemma {:induction false} AgreesAfterMark(line: string, block: seq<string>, rest: seq<string>, open: Partial)
    requires IsBlock(block) && LinesOk(rest) && '\n' !in line
    ensures IsBlock([[BOM] + line] + block)
    ensures Seen([TakeAll([[BOM] + line] + block).Finish()] + (Delivered(rest) + IfOpen(open)), "") ==
            Dispatch(ProcessAll([line] + block, "")) + Interpret(rest, Fresh(StandardId([line] + block, ""))) <==>
            MarkKept(line, block) && BlocksKept(rest, StandardId([line] + block, "")) && !open.hasContent
  {
    hide Seen, Delivered, Interpret, Dispatch, ProcessAll, TakeAll, StandardData, HasContent, StandardId, MarkKept, BlocksKept, FieldName, FieldValue;
    MarkBlockIff(line, block);
    var first := [line] + block;
    var e, more, id := TakeAll([[BOM] + line] + block).Finish(), Delivered(rest) + IfOpen(open), StandardId(first, "");
    DispatchSize(first, "");
    NeverMore(rest, id);
    StandardIdHasNoNul(first);
    OneBlock(e, more, Dispatch(ProcessAll(first, "")), Interpret(rest, Fresh(id)), "", id);
    AgreesOnLines(rest, id, open);
  }

  lemma {:induction false} AgreesOnMarked(lines: seq<string>, open: Partial)
    requires LinesOk(lines) && lines != [] && FirstEmpty(lines[1..]) < |lines| - 1
    ensures Seen(Delivered([[BOM] + lines[0]] + lines[1..]) + IfOpen(open), "") == Interpret(lines, Fresh("")) <==>
            MarkedKept(lines) && !open.hasContent
  {
    hide *;
    var k := FirstEmpty(lines[1..]);
    var block, rest := lines[1..][..k], lines[1..][k + 1..];
    MarkedReader(lines);
    MarkedStandard(lines);
    SliceOk(lines, k);
    AgreesAfterMark(lines[0], block, rest, open);
    Regroup([TakeAll([[BOM] + lines[0]] + block).Finish()], Delivered(rest), IfOpen(open));
  }

  lemma SliceOk(lines: seq<string>, k: nat)
    requires LinesOk(lines) && lines != [] && k == FirstEmpty(lines[1..]) && k < |lines| - 1
    ensures IsBlock(lines[1..][..k]) && LinesOk(lines[1..][k + 1..]) && '\n' !in lines[0]
    ensures MarkedKept(lines) <==>
            MarkKept(lines[0], lines[1..][..k]) && BlocksKept(lines[1..][k + 1..], StandardId([lines[0]] + lines[1..][..k], ""))
  {
    hide MarkKept, BlocksKept, StandardId;
  }

  lemma Regroup<T>(a: seq<T>, b: seq<T>, c: seq<T>)
    ensures a + b + c == a + (b + c)
  {
  }

  lemma StandardIdHasNoNul(block: seq<string>)
    ensures '\0' !in StandardId(block, "")
  {
    LastIdShape(block, "");
  }

  /** The condition: every finished block with a line that is no comment has a data field and keeps
      its data, type and id, and no such line is left unfinished. After a byte order mark the first
      block has a condition of its own, since the mark hides its first line from the reader. */
  predicate ReadAlike(text: string) {
    LinesAreOk(text);
    LinesAreOk(if text == "" then "" else text[1..]);
    && (if text != "" && text[0] == BOM then MarkedKept(LinesOf(text[1..])) else BlocksKept(LinesOf(text), ""))
    && !HasContent(Unfinished(text))
  }

  /** Over a whole document whose lines end with LF or CR LF, with a byte order mark or without, the
      reader delivers exactly what the standard dispatches if and only if it is read alike. */
  lemma AgreesIff(text: string)
    requires NoLoneCr(text)
    ensures Seen(ReadAll(text, []), "") == Standard(text) <==> ReadAlike(text)
  {
    LinesAreOk(text);
    LeftOpen(text);
    TakeAllShape(Unfinished(text));
    if text != "" && text[0] == BOM {
      assert text == [BOM] + text[1..];
      NoLoneCrRest(text, 1);
      MarkedAgreesIff(text[1..]);
    } else {
      SameLines(text);
      AgreesOnLines(LinesOf(text), "", TakeAll(Unfinished(text)));
    }
  }

  /** Both sides of the comparison for a document after a byte order mark. */
  lemma {:induction false} MarkedSides(text: string)
    requires NoLoneCr(text)
    ensures var marked := [BOM] + text;
            && LinesOk(LinesOf(text)) && LinesOk(LinesOf(marked))
            && Standard(marked) == Interpret(LinesOf(text), Fresh(""))
            && ReadAll(marked, []) == Delivered(LinesOf(marked)) + IfOpen(TakeAll(Unfinished(marked)))
            && (TakeAll(Unfinished(marked)).hasContent <==> HasContent(Unfinished(marked)))
            && (ReadAlike(marked) <==> MarkedKept(LinesOf(text)) && !HasContent(Unfinished(marked)))
  {
    var marked := [BOM] + text;
    assert marked[1..] == text && marked[0] == BOM;
    hide LinesOf, Interpret, Delivered, IfOpen, Unfinished, TakeAll, HasContent, MarkedKept, BlocksKept, ReadAll;
    SameLines(text);
    LinesAreOk(text);
    LinesAreOk(marked);
    LeftOpen(marked);
    TakeAllShape(Unfinished(marked));
  }

  lemma MarkedAgreesIff(text: string)
    requires NoLoneCr(text)
    ensures Seen(ReadAll([BOM] + text, []), "") == Standard([BOM] + text) <==> ReadAlike([BOM] + text)
  {
    hide *;
    MarkedSides(text);
    MarkLines(text);
    var marked, lines := [BOM] + text, LinesOf(text);
    var open := TakeAll(Unfinished(marked));
    NotFinished(lines);
    if '\n' !in text {
      MarkIsContent(marked);
      OneMore(LinesOf(marked), open);
      NothingOpen([], "");
      NoLinesYet(text);
    } else {
      MarkedReader(lines);
      if FirstEmpty(lines[1..]) == |lines| - 1 {
        MarkedStandard(lines);
        StillHasContent(marked);
        OneMore(LinesOf(marked), open);
      } else {
        EmptyIsWithin(lines[1..]);
        AgreesOnMarked(lines, open);
      }
    }
  }

  lemma NoLinesYet(text: string)
    ensures '\n' !in text ==> LinesOf(text) == [] && FirstEmpty([]) == |LinesOf(text)|
  {
  }

  lemma EmptyIsWithin(lines: seq<string>)
    ensures FirstEmpty(lines) <= |lines|
  {
  }

  lemma NotFinished(lines: seq<string>)
    requires LinesOk(lines)
    ensures lines == [] || FirstEmpty(lines[1..]) == |lines| - 1 ==> !MarkedKept(lines)
  {
  }

  /** What stands open makes one event more. */
  lemma OneMore(lines: seq<string>, open: Partial)
    ensures open.hasContent ==> Seen(Delivered(lines) + IfOpen(open), "") != []
  {
    SeenLength(Delivered(lines) + IfOpen(open), "");
  }

  lemma MarkIsContent(text: string)
    requires LinesOk(LinesOf(text)) && LinesOf(text) == [] && TailOf(text) != "" && TailOf(text)[0] == BOM
    ensures HasContent(Unfinished(text))
  {
    assert Unfinished(text)[|Unfinished(text)| - 1] == TailOf(text);
  }

  lemma StillHasContent(text: string)
    requires LinesOk(LinesOf(text)) && HasContent(OpenLines(LinesOf(text)))
    ensures HasContent(Unfinished(text))
  {
    var open := OpenLines(LinesOf(text));
    var i :| 0 <= i < |open| && open[i][0] != ':';
    assert Unfinished(text)[i] == open[i];
  }

  /** A byte order mark, which the standard removes, hides the reader's first field. */
  lemma MarkHidesField(line: string, cr: bool, rest: string, later: seq<Break>)
    requires NoBreak(line)
    ensures ReadAll([BOM] + line + Eol(cr) + rest, later) == ReadOn(rest, later, NOTHING.(hasContent := true))
  {
    var body := [BOM] + line;
    var text := body + Eol(cr) + rest;
    FirstLine(body, cr, rest);
    StripsEol(body, cr);
    assert text[..|body + Eol(cr)|] == body + Eol(cr) && text[|body + Eol(cr)|..] == rest;
    assert body[0] == BOM && "event:"[0] != BOM && "data:"[0] != BOM && "id:"[0] != BOM;
    SameRead(text, NOTHING, rest, NOTHING.(hasContent := true), later);
  }

  // ---------------------------------------------------------------- lone carriage returns

  predicate NoCr(e: StandardEvent) {
    '\r' !in e.kind && '\r' !in e.data && '\r' !in e.lastId
  }

  lemma {:induction false} StandardLinesHaveNoCr(text: string, line: string)
    requires '\r' !in line
    ensures forall i :: 0 <= i < |StandardLines(text, line)| ==> '\r' !in StandardLines(text, line)[i]
    decreases |text|
  {
    if text == "" {
    } else if text[0] == '\n' {
      StandardLinesHaveNoCr(text[1..], "");
    } else if "\r\n" <= text {
      StandardLinesHaveNoCr(text[2..], "");
    } else if text[0] == '\r' {
      StandardLinesHaveNoCr(text[1..], "");
    } else {
      StandardLinesHaveNoCr(text[1..], line + [text[0]]);
    }
  }

  lemma {:induction false} EventsHaveNoCr(lines: seq<string>, b: Buffers)
    requires forall i :: 0 <= i < |lines| ==> '\r' !in lines[i]
    requires '\r' !in b.kind && '\r' !in b.data && '\r' !in b.lastId
    ensures forall i :: 0 <= i < |Interpret(lines, b)| ==> NoCr(Interpret(lines, b)[i])
    decreases |lines|
  {
    if lines != [] {
      if lines[0] == "" {
        EventsHaveNoCr(lines[1..], Fresh(b.lastId));
      } else {
        FieldNameLength(lines[0]);
        assert '\r' !in FieldValue(lines[0]);
        EventsHaveNoCr(lines[1..], Process(b, lines[0]));
      }
    }
  }

  /** Any carriage return in what the reader delivers parts it from the standard. */
  lemma LoneCrParts(text: string, k: nat)
    requires k < |Seen(ReadAll(text, []), "")| && !NoCr(Seen(ReadAll(text, []), "")[k])
    ensures Seen(ReadAll(text, []), "") != Standard(text)
  {
    var lines := StandardLines(if text != "" && text[0] == BOM then text[1..] else text, "");
    StandardLinesHaveNoCr(if text != "" && text[0] == BOM then text[1..] else text, "");
    EventsHaveNoCr(lines, Fresh(""));
  }

  /** A carriage return inside a value the reader would deliver from a block: between two
      characters that are not white space. */
  predicate CrInside(block: seq<string>) {
    || (exists i :: 0 <= i < |block| && "data:" <= block[i] && '\r' in Trim(block[i][5..]))
    || (LastTrimmed(block, "event:").Some? && '\r' in LastTrimmed(block, "event:").value)
    || (LastTrimmed(block, "id:").Some? && '\r' in LastTrimmed(block, "id:").value)
  }

  predicate CrInSomeBlock(lines: seq<string>)
    decreases |lines|
  {
    var n := FirstEmpty(lines);
    n < |lines| && (CrInside(lines[..n]) || CrInSomeBlock(lines[n + 1..]))
  }

  predicate EventHasCr(e: SseEvent) {
    '\r' in e.data || (e.event.Some? && '\r' in e.event.value) || (e.id.Some? && '\r' in e.id.value)
  }

  lemma {:induction false} JoinHolds(values: seq<string>, i: nat, c: char)
    requires i < |values| && c in values[i]
    ensures c in Join(values, "\n")
    decreases |values|
  {
    if |values| > 1 {
      assert Join(values, "\n") == values[0] + ("\n" + Join(values[1..], "\n"));
      if i > 0 {
        JoinHolds(values[1..], i - 1, c);
      }
    }
  }

  lemma {:induction false} ReaderDataHolds(block: seq<string>, i: nat, c: char)
    requires i < |block| && "data:" <= block[i] && c in Trim(block[i][5..])
    ensures exists k :: 0 <= k < |ReaderData(block)| && c in ReaderData(block)[k]
    decreases |block|
  {
    var front := ReaderData(block[..|block| - 1]);
    if i < |block| - 1 {
      ReaderDataHolds(block[..|block| - 1], i, c);
      var k :| 0 <= k < |front| && c in front[k];
      assert ReaderData(block)[k] == front[k];
    } else {
      assert c in ReaderData(block)[|front|];
    }
  }

  lemma CrIsDelivered(block: seq<string>)
    requires IsBlock(block) && CrInside(block)
    ensures HasContent(block) && EventHasCr(TakeAll(block).Finish())
  {
    TakeAllShape(block);
    NoContentNoFields(block);
    if i :| 0 <= i < |block| && "data:" <= block[i] && '\r' in Trim(block[i][5..]) {
      ReaderDataHolds(block, i, '\r');
      var k :| 0 <= k < |ReaderData(block)| && '\r' in ReaderData(block)[k];
      JoinHolds(ReaderData(block), k, '\r');
    }
  }

  lemma {:induction false} NoContentNoFields(block: seq<string>)
    requires IsBlock(block)
    ensures !HasContent(block) ==> forall i :: 0 <= i < |block| ==> !("data:" <= block[i])
    ensures !HasContent(block) ==> LastTrimmed(block, "event:").None? && LastTrimmed(block, "id:").None?
    decreases |block|
  {
    if !HasContent(block) {
      assert forall i :: 0 <= i < |block| ==> block[i][0] == ':';
      if block != [] {
        ContentSnoc(block);
        NoContentNoFields(block[..|block| - 1]);
      }
    }
  }

  lemma {:induction false} CrReachesReader(lines: seq<string>) returns (k: nat)
    requires LinesOk(lines) && CrInSomeBlock(lines)
    ensures k < |Delivered(lines)| && EventHasCr(Delivered(lines)[k])
    decreases |lines|
  {
    hide Delivered, CrInside, EventHasCr, HasContent, TakeAll;
    var n := FirstEmpty(lines);
    ReaderBlock(lines);
    if CrInside(lines[..n]) {
      CrIsDelivered(lines[..n]);
      k := 0;
    } else {
      k := CrReachesReader(lines[n + 1..]);
      if HasContent(lines[..n]) {
        k := k + 1;
      }
    }
  }

  lemma {:induction false} SeenAt(events: seq<SseEvent>, lastId: string, k: nat)
    requires k < |events|
    ensures |Seen(events, lastId)| == |events|
    ensures EventHasCr(events[k]) ==> !NoCr(Seen(events, lastId)[k])
    decreases |events|
  {
    SeenLength(events, lastId);
    if k > 0 {
      SeenAt(events[1..], if events[0].id.Some? then events[0].id.value else lastId, k - 1);
    }
  }

  /** Whatever else a document holds: a lone carriage return inside a data value, or inside the
      type or id of a block, finished or not, makes the reader differ from the standard. */
  lemma {:induction false} LoneCrInside(text: string)
    requires CrInSomeBlock(LinesOf(text)) || CrInside(Unfinished(text))
    ensures Seen(ReadAll(text, []), "") != Standard(text)
  {
    LinesAreOk(text);
    LeftOpen(text);
    hide *;
    var events := ReadAll(text, []);
    var k: nat;
    if CrInSomeBlock(LinesOf(text)) {
      k := CrReachesReader(LinesOf(text));
    } else {
      CrIsDelivered(Unfinished(text));
      TakeAllShape(Unfinished(text));
      ShownLast(TakeAll(Unfinished(text)));
      k := |events| - 1;
    }
    SeenAt(events, "", k);
    LoneCrParts(text, k);
  }

  lemma ShownLast(open: Partial)
    ensures open.hasContent ==> IfOpen(open) == [open.Finish()]
  {
  }

  /** For every two values: the reader delivers one event that holds both with the carriage return
      between them, which the standard never does. */
  lemma LoneCrInput(before: string, after: string)
    requires NoBreak(before) && NoBreak(after) && before != "" && after != "" && Trimmed(before) && Trimmed(after)
    ensures var text := "data:" + before + "\r" + after + "\n\n";
            && ReadAll(text, []) == [SseEvent(None, before + "\r" + after, None)]
            && Seen(ReadAll(text, []), "") != Standard(text)
  {
    var value := before + "\r" + after;
    var line := "data:" + value;
    var text := "data:" + before + "\r" + after + "\n\n";
    assert text == line + "\n" + "\n" && line[5..] == value;
    TrimIsTrimmed(value);
    TwoLines(line);
    OneDataLine(line, value);
    LinesAreOk(text);
    LeftOpen(text);
    var e := SseEvent(None, value, None);
    assert Unfinished(text) == [];
    assert ReadAll(text, []) == [e];
    assert '\r' in e.data;
    SeenAt([e], "", 0);
    LoneCrParts(text, 0);
  }

  lemma OneLine(line: string, rest: string)
    requires '\n' !in line && (line != "" ==> line[|line| - 1] != '\r')
    ensures LinesOf(line + "\n" + rest) == [line] + LinesOf(rest) && TailOf(line + "\n" + rest) == TailOf(rest)
  {
    var text := line + "\n" + rest;
    assert text == line + Eol(false) + rest && line + Eol(false) == line + "\n";
    FirstLine(line, false, rest);
    assert text[..|line| + 1] == line + "\n" && text[|line| + 1..] == rest && text[|line|] == '\n';
    StripLf(line);
  }

  lemma {:induction false} TwoLines(line: string)
    requires '\n' !in line && line != "" && line[|line| - 1] != '\r'
    ensures LinesOf(line + "\n" + "\n") == [line, ""] && TailOf(line + "\n" + "\n") == ""
  {
    hide *;
    OneLine(line, "\n");
    OneLine("", "");
    assert "" + "\n" + "" == "\n";
    NoText();
  }

  lemma NoText()
    ensures LinesOf("") == [] && TailOf("") == ""
  {
  }

  lemma StripLf(line: string)
    requires line != "" ==> line[|line| - 1] != '\r' && line[|line| - 1] != '\n'
    ensures StripEol(line + "\n") == line
  {
    var text := line + "\n";
    assert text[|text| - 1] == '\n' && text[..|text| - 1] == line;
    StripsOne(text);
    StripsNothing(line);
  }

  lemma StripsOne(text: string)
    requires text != "" && text[|text| - 1] == '\n'
    ensures StripEol(text) == StripEol(text[..|text| - 1])
  {
  }

  lemma StripsNothing(line: string)
    requires line != "" ==> line[|line| - 1] != '\r' && line[|line| - 1] != '\n'
    ensures StripEol(line) == line
  {
  }

  lemma OneDataLine(line: string, value: string)
    requires "data:" <= line && Trim(line[5..]) == value
    ensures Feed([line, ""], NOTHING).events == [SseEvent(None, value, None)]
    ensures LinesOk([line, ""]) ==> OpenLines([line, ""]) == []
  {
    Prefixes(line);
    assert line[0] == 'd';
    assert [line, ""][1..] == [""] && [""][1..] == [];
    assert Join([value], "\n") == value;
    assert FirstEmpty([""]) == 0 && FirstEmpty([line, ""]) == 1;
    assert [line, ""][2..] == [];
  }
}
