/** The Server-Sent Events reader (src/bridge/sse.rs), after sections 9.2.5 and 9.2.6 of the
    WHATWG HTML standard. The stream is its decoded text. */
module SseReader {
  import opened Wrappers
  import opened Text

  datatype ErrorKind = Transient | Fatal

  datatype SseEvent = SseEvent(event: Option<string>, data: string, id: Option<string>)

  datatype ReadResult = Event(value: SseEvent) | EndOfStream | Failed(kind: ErrorKind)

  /** The local variables of `read_sse_event`. */
  datatype Partial = Partial(eventType: Option<string>, dataLines: seq<string>, id: Option<string>, hasContent: bool) {
    function Finish(): SseEvent { SseEvent(eventType, Join(dataLines, "\n"), id) }
  }

  const NOTHING := Partial(None, [], None, false)

  // ---------------------------------------------------------------- lines

  /** Length of the first line, its newline included. */
  function LineLength(text: string): (n: nat)
    ensures n <= |text| && (text != "" ==> n > 0)
  {
    if text == "" then 0 else if text[0] == '\n' then 1 else 1 + LineLength(text[1..])
  }

  /** Drops every trailing carriage return and line feed. */
  function StripEol(s: string): string {
    if s != "" && (s[|s| - 1] == '\r' || s[|s| - 1] == '\n') then StripEol(s[..|s| - 1]) else s
  }

  /** One line that is neither empty nor a comment. */
  function Absorb(p: Partial, line: string): Partial {
    var q := p.(hasContent := true);
    if "event:" <= line then q.(eventType := Some(Trim(line[6..])))
    else if "data:" <= line then q.(dataLines := q.dataLines + [Trim(line[5..])])
    else if "id:" <= line then q.(id := Some(Trim(line[3..])))
    else q
  }

  /** An I/O error, and the text that arrives after it if the connection is kept. */
  datatype Break = Break(kind: ErrorKind, text: string)

  /** The rest of one read: its result and what is left of the stream. The text before the next
      break may end anywhere, inside a line too; the fields collected so far are lost with it. */
  function ReadFrom(text: string, later: seq<Break>, p: Partial): (ReadResult, string, seq<Break>)
    decreases |text|
  {
    var n := LineLength(text);
    if later != [] && (text == "" || text[n - 1] != '\n') then (Failed(later[0].kind), later[0].text, later[1..])
    else if text == "" then (if p.hasContent then Event(p.Finish()) else EndOfStream, "", later)
    else
      var line, rest := StripEol(text[..n]), text[n..];
      if line == "" then if p.hasContent then (Event(p.Finish()), rest, later) else ReadFrom(rest, later, p)
      else if line[0] == ':' then ReadFrom(rest, later, p)
      else ReadFrom(rest, later, Absorb(p, line))
  }

  class Reader {
    var rest: string
    var later: seq<Break>

    constructor (text: string, later: seq<Break>)
      ensures rest == text && this.later == later
    {
      rest, this.later := text, later;
    }

    /** `read_line`: the next line with its newline, or what is left, or "" at the end. An error
        takes the line read so far with it. */
    method ReadLine() returns (failed: Option<ErrorKind>, line: string)
      modifies this
      ensures failed.Some? <==> old(later) != [] && (old(rest) == "" || old(rest)[LineLength(old(rest)) - 1] != '\n')
      ensures failed.Some? ==> failed.value == old(later)[0].kind && rest == old(later)[0].text && later == old(later)[1..]
      ensures failed.None? ==>
                line == old(rest)[..LineLength(old(rest))] && rest == old(rest)[LineLength(old(rest))..] && later == old(later)
    {
      var n := 0;
      while n < |rest| && rest[n] != '\n'
        invariant n <= |rest| && rest == old(rest) && later == old(later)
        invariant forall i :: 0 <= i < n ==> rest[i] != '\n'
        invariant LineLength(rest) == n + LineLength(rest[n..])
      {
        assert rest[n..][1..] == rest[n + 1..];
        n := n + 1;
      }
      failed, line := None, "";
      if n < |rest| {
        line, rest := rest[..n + 1], rest[n + 1..];
      } else {
        assert rest[n..] == "" && rest[..n] == rest;
        if later != [] {
          failed := Some(later[0].kind);
          rest, later := later[0].text, later[1..];
        } else {
          line, rest := rest, "";
        }
      }
    }
  }

  method ReadSseEvent(reader: Reader) returns (r: ReadResult)
    modifies reader
    ensures (r, reader.rest, reader.later) == ReadFrom(old(reader.rest), old(reader.later), NOTHING)
    // every call makes progress or says why not
    ensures r.Event? ==> |reader.rest| < |old(reader.rest)| && reader.later == old(reader.later)
    ensures r.EndOfStream? ==> reader.rest == "" && reader.later == []
    ensures r.Failed? ==> |reader.later| < |old(reader.later)|
  {
    var p := NOTHING;
    while true
      invariant ReadFrom(reader.rest, reader.later, p) == ReadFrom(old(reader.rest), old(reader.later), NOTHING)
      invariant reader.later == old(reader.later)
      invariant |reader.rest| <= |old(reader.rest)| && (p.hasContent ==> |reader.rest| < |old(reader.rest)|)
      decreases |reader.rest|
    {
      ghost var before := reader.rest;
      var failed, line := reader.ReadLine();
      if failed.Some? {
        return Failed(failed.value);
      }
      if |line| == 0 {
        assert before == "";
        return if p.hasContent then Event(p.Finish()) else EndOfStream;
      }
      line := StripEol(line);
      if line == "" {
        if p.hasContent {
          return Event(p.Finish());
        }
        continue;
      }
      if line[0] == ':' {
        continue;
      }
      p := Absorb(p, line);
    }
  }

  // ---------------------------------------------------------------- the client

  datatype Received = Received(event: string, data: string, id: Option<string>)

  class Client {
    var stream: Option<Reader>
    var lastEventId: Option<string>
    var metrics: seq<bool>  // one `sse::recv` metric a completed read: true for success

    constructor (reader: Reader)
      ensures stream == Some(reader) && lastEventId == None && metrics == []
    {
      stream, lastEventId, metrics := Some(reader), None, [];
    }

    /** The next event, or null: at the end, after a failure, or once the connection is closed. */
    method Recv() returns (r: Option<Received>)
      modifies this, if stream.Some? then {stream.value} else {}
      ensures old(stream).None? ==> r.None? && stream.None? && metrics == old(metrics) && lastEventId == old(lastEventId)
      ensures old(stream).Some? ==>
                var reader := old(stream).value;
                var (result, rest, later) := ReadFrom(old(stream.value.rest), old(stream.value.later), NOTHING);
                && reader.rest == rest && reader.later == later
                && stream == (if result.EndOfStream? || result == Failed(Fatal) then None else old(stream))
                && metrics == old(metrics) + (if result.EndOfStream? then [] else [result.Event?])
                && lastEventId == (if result.Event? && result.value.id.Some? then result.value.id else old(lastEventId))
                && r == if result.Event?
                        then Some(Received(if result.value.event.Some? then result.value.event.value else "message", result.value.data, result.value.id))
                        else None
    {
      if stream.None? {
        return None;
      }
      var result := ReadSseEvent(stream.value);
      match result {
        case Event(e) =>
          metrics := metrics + [true];
          if e.id.Some? {
            lastEventId := e.id;
          }
          return Some(Received(if e.event.Some? then e.event.value else "message", e.data, e.id));
        case EndOfStream =>
          stream := None;
        case Failed(kind) =>
          metrics := metrics + [false];
          if kind != Transient {
            stream := None;
          }
      }
      return None;
    }
  }

  // ---------------------------------------------------------------- what a document says

  datatype Field = EventType | Data | Id

  function Name(f: Field): string {
    match f case EventType => "event:" case Data => "data:" case Id => "id:"
  }

  /** A non-empty line and how it is written: comments and unknown fields as they stand, known
      fields with white space on either side of the value. */
  datatype Line =
    | Comment(text: string, cr: bool)
    | Other(text: string, cr: bool)
    | FieldLine(field: Field, before: string, value: string, after: string, cr: bool)

  predicate NoBreak(s: string) {
    '\r' !in s && '\n' !in s
  }

  predicate ValidLine(l: Line) {
    match l
    case Comment(text, _) => NoBreak(text)
    case Other(text, _) =>
      NoBreak(text) && text != "" && text[0] != ':' && !("event:" <= text) && !("data:" <= text) && !("id:" <= text)
    case FieldLine(_, before, value, after, _) =>
      NoBreak(before) && NoBreak(value) && NoBreak(after) && Blank(before) && Blank(after) && Trimmed(value)
  }

  predicate ValidLines(lines: seq<Line>) {
    forall i :: 0 <= i < |lines| ==> ValidLine(lines[i])
  }

  function Body(l: Line): string {
    match l
    case Comment(text, _) => ":" + text
    case Other(text, _) => text
    case FieldLine(field, before, value, after, _) => Name(field) + (before + value + after)
  }

  function Eol(cr: bool): string {
    if cr then "\r\n" else "\n"
  }

  function Render(lines: seq<Line>): string {
    if lines == [] then "" else Body(lines[0]) + Eol(lines[0].cr) + Render(lines[1..])
  }

  function Breaks(crs: seq<bool>): string {
    if crs == [] then "" else Eol(crs[0]) + Breaks(crs[1..])
  }

  /** A run of non-empty lines, ended by at least one empty line. */
  datatype Block = Block(lines: seq<Line>, blanks: seq<bool>)

  predicate ValidBlocks(blocks: seq<Block>) {
    forall i :: 0 <= i < |blocks| ==> ValidLines(blocks[i].lines) && blocks[i].blanks != []
  }

  function RenderBlocks(blocks: seq<Block>): string {
    if blocks == [] then "" else Render(blocks[0].lines) + Breaks(blocks[0].blanks) + RenderBlocks(blocks[1..])
  }

  /** The values of one field, in order. */
  function Values(lines: seq<Line>, f: Field): seq<string> {
    if lines == [] then []
    else
      var front, last := Values(lines[..|lines| - 1], f), lines[|lines| - 1];
      if last.FieldLine? && last.field == f then front + [last.value] else front
  }

  function Last(values: seq<string>): Option<string> {
    if values == [] then None else Some(values[|values| - 1])
  }

  /** The event a block stands for: last type, all data lines, last id. */
  function Denoted(lines: seq<Line>): SseEvent {
    SseEvent(Last(Values(lines, EventType)), Join(Values(lines, Data), "\n"), Last(Values(lines, Id)))
  }

  predicate HasContent(lines: seq<Line>) {
    exists i :: 0 <= i < |lines| && !lines[i].Comment?
  }

  function IfContent(lines: seq<Line>): seq<SseEvent> {
    if HasContent(lines) then [Denoted(lines)] else []
  }

  /** The events of a document: its blocks', then what stands after the last empty line. */
  function Events(blocks: seq<Block>, open: seq<Line>): seq<SseEvent> {
    if blocks == [] then IfContent(open) else IfContent(blocks[0].lines) + Events(blocks[1..], open)
  }

  /** The events of repeated `recv` calls until the connection is given up. */
  function ReadAll(text: string, later: seq<Break>): seq<SseEvent>
    decreases |later|, |text|, 2
  {
    ReadOn(text, later, NOTHING)
  }

  /** The same from inside a read. */
  function ReadOn(text: string, later: seq<Break>, p: Partial): seq<SseEvent>
    decreases |later|, |text|, 1
  {
    var (result, rest, more) := ReadFrom(text, later, p);
    Progress(text, later, p);
    match result
    case Event(e) => if |rest| < |text| then [e] + ReadAll(rest, more) else [e]
    case EndOfStream => []
    case Failed(kind) => if kind == Transient then ReadAll(rest, more) else []
  }

  lemma {:induction false} Progress(text: string, later: seq<Break>, p: Partial)
    ensures var (result, rest, more) := ReadFrom(text, later, p);
            && (result.Event? ==> more == later && |rest| <= |text| && (|rest| < |text| || (text == "" && p.hasContent)))
            && (result.EndOfStream? ==> rest == "" && more == later == [])
            && (result.Failed? ==> later != [] && result.kind == later[0].kind && rest == later[0].text && more == later[1..])
    decreases |text|
  {
    if text != "" {
      var n := LineLength(text);
      Progress(text[n..], later, p);
      Progress(text[n..], later, Absorb(p, StripEol(text[..n])));
    }
  }

  /** An event read is followed by the events of what is left. */
  lemma ReadsEvent(text: string, later: seq<Break>, p: Partial, e: SseEvent, rest: string)
    requires ReadFrom(text, later, p) == (Event(e), rest, later)
    ensures ReadOn(text, later, p) == [e] + ReadAll(rest, later)
  {
    Progress(text, later, p);
    if text == "" {
      assert ReadAll("", []) == [];
    }
  }

  /** Reads that come out the same are followed by the same events. */
  lemma {:induction false} SameRead(a: string, p: Partial, b: string, q: Partial, later: seq<Break>)
    requires ReadFrom(a, later, p) == ReadFrom(b, later, q)
    ensures ReadOn(a, later, p) == ReadOn(b, later, q)
  {
    Progress(a, later, p);
    Progress(b, later, q);
    var (result, rest, more) := ReadFrom(a, later, p);
    if result.Event? {
      ReadsEvent(a, later, p, result.value, rest);
      ReadsEvent(b, later, q, result.value, rest);
    }
  }

  // ---------------------------------------------------------------- reading what was written

  lemma {:induction false} FirstLine(body: string, cr: bool, rest: string)
    requires '\n' !in body
    ensures LineLength(body + Eol(cr) + rest) == |body + Eol(cr)|
    decreases |body|
  {
    var text := body + Eol(cr) + rest;
    if body == "" {
      if cr {
        assert text[1..] == "\n" + rest;
      }
    } else {
      FirstLine(body[1..], cr, rest);
      assert text[1..] == body[1..] + Eol(cr) + rest;
    }
  }

  lemma StripsEol(body: string, cr: bool)
    requires NoBreak(body)
    ensures StripEol(body + Eol(cr)) == body
  {
    var text := body + Eol(cr);
    assert StripEol(body) == body;
    if cr {
      assert (body + "\r")[..|body|] == body;
      assert text[..|text| - 1] == body + "\r";
    } else {
      assert text[..|text| - 1] == body;
    }
  }

  /** What one written line does to the variables. */
  function Step(p: Partial, l: Line): Partial {
    match l
    case Comment(_, _) => p
    case Other(_, _) => p.(hasContent := true)
    case FieldLine(EventType, _, value, _, _) => p.(eventType := Some(value), hasContent := true)
    case FieldLine(Data, _, value, _, _) => p.(dataLines := p.dataLines + [value], hasContent := true)
    case FieldLine(Id, _, value, _, _) => p.(id := Some(value), hasContent := true)
  }

  lemma AbsorbsLine(p: Partial, l: Line)
    requires ValidLine(l) && !l.Comment?
    ensures Absorb(p, Body(l)) == Step(p, l)
  {
    if l.FieldLine? {
      TrimPadded(l.before, l.value, l.after);
      var text := l.before + l.value + l.after;
      assert Body(l)[|Name(l.field)|..] == text;
      if l.field.Data? {
        assert Body(l)[0] == 'd' && "event:"[0] == 'e';
      } else if l.field.Id? {
        assert Body(l)[0] == 'i' && "event:"[0] == 'e' && "data:"[0] == 'd';
      }
    }
  }

  lemma BodyHasNoBreak(l: Line)
    requires ValidLine(l)
    ensures NoBreak(Body(l)) && Body(l) != ""
    ensures Body(l)[0] == ':' <==> l.Comment?
  {
  }

  lemma ReadsLine(l: Line, rest: string, later: seq<Break>, p: Partial)
    requires ValidLine(l)
    ensures ReadFrom(Body(l) + Eol(l.cr) + rest, later, p) == ReadFrom(rest, later, Step(p, l))
  {
    var body := Body(l);
    var text := body + Eol(l.cr) + rest;
    BodyHasNoBreak(l);
    FirstLine(body, l.cr, rest);
    StripsEol(body, l.cr);
    assert text[..|body + Eol(l.cr)|] == body + Eol(l.cr) && text[|body + Eol(l.cr)|..] == rest;
    if !l.Comment? {
      AbsorbsLine(p, l);
    }
  }

  function Steps(p: Partial, lines: seq<Line>): Partial
    decreases |lines|
  {
    if lines == [] then p else Steps(Step(p, lines[0]), lines[1..])
  }

  lemma {:induction false} ReadsLines(lines: seq<Line>, rest: string, later: seq<Break>, p: Partial)
    requires ValidLines(lines)
    ensures ReadFrom(Render(lines) + rest, later, p) == ReadFrom(rest, later, Steps(p, lines))
    decreases |lines|
  {
    if lines == [] {
      assert Render(lines) + rest == rest;
    } else {
      assert Render(lines) + rest == Body(lines[0]) + Eol(lines[0].cr) + (Render(lines[1..]) + rest);
      ReadsLine(lines[0], Render(lines[1..]) + rest, later, p);
      ReadsLines(lines[1..], rest, later, Step(p, lines[0]));
    }
  }

  lemma ReadsBreak(cr: bool, rest: string, later: seq<Break>, p: Partial)
    ensures ReadFrom(Eol(cr) + rest, later, p) == if p.hasContent then (Event(p.Finish()), rest, later) else ReadFrom(rest, later, p)
  {
    FirstLine("", cr, rest);
    StripsEol("", cr);
    var text := Eol(cr) + rest;
    assert "" + Eol(cr) + rest == text && "" + Eol(cr) == Eol(cr);
    assert text[..|Eol(cr)|] == Eol(cr) && text[|Eol(cr)|..] == rest;
  }

  lemma {:induction false} SkipsBreaks(crs: seq<bool>, rest: string, later: seq<Break>)
    ensures ReadFrom(Breaks(crs) + rest, later, NOTHING) == ReadFrom(rest, later, NOTHING)
    decreases |crs|
  {
    if crs == [] {
      assert Breaks(crs) + rest == rest;
    } else {
      assert Breaks(crs) + rest == Eol(crs[0]) + (Breaks(crs[1..]) + rest);
      ReadsBreak(crs[0], Breaks(crs[1..]) + rest, later, NOTHING);
      SkipsBreaks(crs[1..], rest, later);
    }
  }

  /** The variables after a block hold exactly the event it stands for. */
  lemma {:induction false} StepsDenote(lines: seq<Line>)
    ensures Steps(NOTHING, lines) ==
            Partial(Last(Values(lines, EventType)), Values(lines, Data), Last(Values(lines, Id)), HasContent(lines))
    decreases |lines|
  {
    if lines != [] {
      var front, last := lines[..|lines| - 1], lines[|lines| - 1];
      StepsDenote(front);
      StepsSnoc(NOTHING, front, last);
      assert front + [last] == lines;
      assert HasContent(lines) <==> HasContent(front) || !last.Comment? by {
        if HasContent(front) {
          var i :| 0 <= i < |front| && !front[i].Comment?;
          assert !lines[i].Comment?;
        }
        if !last.Comment? {
          assert !lines[|lines| - 1].Comment?;
        }
        if i :| 0 <= i < |lines| && !lines[i].Comment? {
          assert i < |front| ==> !front[i].Comment?;
        }
      }
    }
  }

  lemma {:induction false} StepsSnoc(p: Partial, lines: seq<Line>, last: Line)
    ensures Steps(p, lines + [last]) == Step(Steps(p, lines), last)
    decreases |lines|
  {
    if lines == [] {
      assert ([] + [last])[1..] == [];
      assert Steps(Step(p, last), []) == Step(p, last);
    } else {
      assert (lines + [last])[1..] == lines[1..] + [last];
      StepsSnoc(Step(p, lines[0]), lines[1..], last);
    }
  }

  lemma ReadsBlock(block: Block, rest: string, later: seq<Break>)
    requires ValidLines(block.lines) && block.blanks != []
    ensures ReadFrom(Render(block.lines) + Breaks(block.blanks) + rest, later, NOTHING) ==
            if HasContent(block.lines) then (Event(Denoted(block.lines)), Breaks(block.blanks[1..]) + rest, later)
            else ReadFrom(rest, later, NOTHING)
  {
    var lines, crs := block.lines, block.blanks;
    var after := Breaks(crs[1..]) + rest;
    assert Render(lines) + Breaks(crs) + rest == Render(lines) + (Eol(crs[0]) + after);
    ReadsLines(lines, Eol(crs[0]) + after, later, NOTHING);
    StepsDenote(lines);
    ReadsBreak(crs[0], after, later, Steps(NOTHING, lines));
    if !HasContent(lines) {
      NoContentNoValues(lines);
      SkipsBreaks(crs[1..], rest, later);
    }
  }

  lemma {:induction false} NoContentNoValues(lines: seq<Line>)
    requires !HasContent(lines)
    ensures forall f :: Values(lines, f) == []
    decreases |lines|
  {
    if lines != [] {
      var front := lines[..|lines| - 1];
      assert lines[|lines| - 1].Comment?;
      assert forall i :: 0 <= i < |front| ==> front[i] == lines[i];
      NoContentNoValues(front);
    }
  }

  lemma ReadsAllOfBlock(block: Block, rest: string, later: seq<Break>)
    requires ValidLines(block.lines) && block.blanks != []
    ensures ReadAll(Render(block.lines) + Breaks(block.blanks) + rest, later) == IfContent(block.lines) + ReadAll(rest, later)
  {
    hide ReadFrom, ReadOn, Render, Breaks, HasContent, Denoted;
    var text, after := Render(block.lines) + Breaks(block.blanks) + rest, Breaks(block.blanks[1..]) + rest;
    ReadsBlock(block, rest, later);
    SkipsBreaks(block.blanks[1..], rest, later);
    SameRead(after, NOTHING, rest, NOTHING, later);
    if HasContent(block.lines) {
      ReadsEvent(text, later, NOTHING, Denoted(block.lines), after);
    } else {
      SameRead(text, NOTHING, rest, NOTHING, later);
    }
  }

  lemma ReadsOpenLines(open: seq<Line>)
    requires ValidLines(open)
    ensures ReadAll(Render(open), []) == IfContent(open)
  {
    assert Render(open) == Render(open) + "";
    ReadsLines(open, "", [], NOTHING);
    StepsDenote(open);
    assert ReadAll("", []) == [];
  }

  lemma ReadsFirstBlock(blocks: seq<Block>, tail: string, later: seq<Break>)
    requires ValidBlocks(blocks) && blocks != []
    ensures ReadAll(RenderBlocks(blocks) + tail, later) == IfContent(blocks[0].lines) + ReadAll(RenderBlocks(blocks[1..]) + tail, later)
  {
    var block, rest := blocks[0], RenderBlocks(blocks[1..]) + tail;
    assert RenderBlocks(blocks) + tail == Render(block.lines) + Breaks(block.blanks) + rest;
    ReadsAllOfBlock(block, rest, later);
  }

  lemma NoBlocks(tail: string)
    ensures RenderBlocks([]) + tail == tail
  {
  }

  /** Reading a document event by event gives exactly what its blocks stand for, in order, and
      then the end: comments, blank lines, padding and line-end style make no difference. The
      lines after the last empty line still count as an event at the end of the stream. */
  lemma {:induction false} DocumentRoundTrip(blocks: seq<Block>, open: seq<Line>)
    requires ValidBlocks(blocks) && ValidLines(open)
    ensures ReadAll(RenderBlocks(blocks) + Render(open), []) == Events(blocks, open)
    decreases |blocks|
  {
    if blocks == [] {
      NoBlocks(Render(open));
      ReadsOpenLines(open);
    } else {
      ReadsFirstBlock(blocks, Render(open), []);
      DocumentRoundTrip(blocks[1..], open);
    }
  }

  // ---------------------------------------------------------------- printing events

  /** An event to print, its data as separate lines. */
  datatype Printable = Printable(event: Option<string>, data: seq<string>, id: Option<string>)

  predicate Clean(s: string) {
    NoBreak(s) && Trimmed(s)
  }

  predicate CleanEvent(e: Printable) {
    && e.data != [] && (forall i :: 0 <= i < |e.data| ==> Clean(e.data[i]))
    && (e.event.Some? ==> Clean(e.event.value)) && (e.id.Some? ==> Clean(e.id.value))
  }

  /** Comment lines to put in front, and the empty lines after. */
  datatype Decoration = Decoration(comments: seq<string>, blanks: seq<bool>)

  function CommentLines(comments: seq<string>): seq<Line> {
    seq(|comments|, i requires 0 <= i < |comments| => Comment(comments[i], false))
  }

  function DataLines(data: seq<string>): seq<Line> {
    seq(|data|, i requires 0 <= i < |data| => FieldLine(Data, " ", data[i], "", false))
  }

  function OptionalLine(f: Field, value: Option<string>): seq<Line> {
    if value.Some? then [FieldLine(f, " ", value.value, "", false)] else []
  }

  function Printed(e: Printable, d: Decoration): Block {
    Block(CommentLines(d.comments) + OptionalLine(EventType, e.event) + DataLines(e.data) + OptionalLine(Id, e.id), d.blanks)
  }

  lemma {:induction false} ValuesAppend(a: seq<Line>, b: seq<Line>, f: Field)
    ensures Values(a + b, f) == Values(a, f) + Values(b, f)
    decreases |b|
  {
    if b == [] {
      assert a + b == a;
    } else {
      assert (a + b)[..|a + b| - 1] == a + b[..|b| - 1];
      ValuesAppend(a, b[..|b| - 1], f);
    }
  }

  lemma {:induction false} ValuesOfComments(comments: seq<string>, f: Field)
    ensures Values(CommentLines(comments), f) == []
    decreases |comments|
  {
    if comments != [] {
      assert CommentLines(comments)[..|comments| - 1] == CommentLines(comments[..|comments| - 1]);
      ValuesOfComments(comments[..|comments| - 1], f);
    }
  }

  lemma {:induction false} ValuesOfData(data: seq<string>, f: Field)
    ensures Values(DataLines(data), f) == if f == Data then data else []
    decreases |data|
  {
    if data != [] {
      assert DataLines(data)[..|data| - 1] == DataLines(data[..|data| - 1]);
      ValuesOfData(data[..|data| - 1], f);
      assert data[..|data| - 1] + [data[|data| - 1]] == data;
    }
  }

  lemma ValuesOfOptional(g: Field, value: Option<string>, f: Field)
    ensures Values(OptionalLine(g, value), f) == if f == g && value.Some? then [value.value] else []
  {
    if value.Some? {
      assert OptionalLine(g, value)[..0] == [];
    }
  }

  lemma PrintedValues(e: Printable, d: Decoration, f: Field)
    ensures Values(Printed(e, d).lines, f) ==
            match f
            case EventType => if e.event.Some? then [e.event.value] else []
            case Data => e.data
            case Id => if e.id.Some? then [e.id.value] else []
  {
    hide Values, CommentLines, DataLines, OptionalLine;
    var a, b, c, x := CommentLines(d.comments), OptionalLine(EventType, e.event), DataLines(e.data), OptionalLine(Id, e.id);
    ValuesAppend(a + b + c, x, f);
    ValuesAppend(a + b, c, f);
    ValuesAppend(a, b, f);
    ValuesOfComments(d.comments, f);
    ValuesOfOptional(EventType, e.event, f);
    ValuesOfData(e.data, f);
    ValuesOfOptional(Id, e.id, f);
  }

  lemma ValidAppend(a: seq<Line>, b: seq<Line>)
    requires ValidLines(a) && ValidLines(b)
    ensures ValidLines(a + b)
  {
  }

  lemma PrintedIsValid(e: Printable, d: Decoration)
    requires CleanEvent(e) && forall i :: 0 <= i < |d.comments| ==> NoBreak(d.comments[i])
    ensures ValidLines(Printed(e, d).lines) && HasContent(Printed(e, d).lines)
  {
    var a, b, c, x := CommentLines(d.comments), OptionalLine(EventType, e.event), DataLines(e.data), OptionalLine(Id, e.id);
    assert NoBreak(" ") && Blank(" ") && NoBreak("") && Blank("");
    assert ValidLines(a);
    assert ValidLines(b);
    assert ValidLines(c);
    assert ValidLines(x);
    ValidAppend(a, b);
    ValidAppend(a + b, c);
    ValidAppend(a + b + c, x);
    assert (a + b + c + x)[|a| + |b|] == c[0];
  }

  lemma PrintedDenotes(e: Printable, d: Decoration)
    ensures Denoted(Printed(e, d).lines) == SseEvent(e.event, Join(e.data, "\n"), e.id)
  {
    PrintedValues(e, d, EventType);
    PrintedValues(e, d, Data);
    PrintedValues(e, d, Id);
  }

  function PrintAll(events: seq<Printable>, decorations: seq<Decoration>): seq<Block>
    requires |events| == |decorations|
  {
    if events == [] then [] else [Printed(events[0], decorations[0])] + PrintAll(events[1..], decorations[1..])
  }

  function Expected(events: seq<Printable>): (r: seq<SseEvent>)
    ensures |r| == |events|
    ensures forall i :: 0 <= i < |r| ==> r[i] == SseEvent(events[i].event, Join(events[i].data, "\n"), events[i].id)
  {
    if events == [] then []
    else [SseEvent(events[0].event, Join(events[0].data, "\n"), events[0].id)] + Expected(events[1..])
  }

  predicate CleanDecoration(d: Decoration) {
    d.blanks != [] && forall i :: 0 <= i < |d.comments| ==> NoBreak(d.comments[i])
  }

  lemma {:induction false} PrintAllDenotes(events: seq<Printable>, decorations: seq<Decoration>)
    requires |events| == |decorations|
    requires forall i :: 0 <= i < |events| ==> CleanEvent(events[i]) && CleanDecoration(decorations[i])
    ensures ValidBlocks(PrintAll(events, decorations))
    ensures Events(PrintAll(events, decorations), []) == Expected(events)
    decreases |events|
  {
    if events != [] {
      PrintedIsValid(events[0], decorations[0]);
      PrintedDenotes(events[0], decorations[0]);
      PrintAllDenotes(events[1..], decorations[1..]);
      var blocks := PrintAll(events, decorations);
      assert blocks[1..] == PrintAll(events[1..], decorations[1..]);
    }
  }

  /** For every list of events with trimmed, break-free values, printed with any comments and
      extra empty lines between, repeated reads return exactly those events and then the end. */
  lemma {:induction false} EventsRoundTrip(events: seq<Printable>, decorations: seq<Decoration>)
    requires |events| == |decorations|
    requires forall i :: 0 <= i < |events| ==> CleanEvent(events[i]) && CleanDecoration(decorations[i])
    ensures ReadAll(RenderBlocks(PrintAll(events, decorations)), []) == Expected(events)
  {
    var blocks := PrintAll(events, decorations);
    PrintAllDenotes(events, decorations);
    DocumentRoundTrip(blocks, []);
    assert RenderBlocks(blocks) + Render([]) == RenderBlocks(blocks);
  }

  // ---------------------------------------------------------------- as it is written

  lemma {:induction false} ReadsField(f: Field, value: string, rest: string, p: Partial)
    requires Clean(value)
    ensures ReadFrom(Name(f) + value + "\n" + rest, [], p) == ReadFrom(rest, [], Step(p, FieldLine(f, "", value, "", false)))
  {
    var l := FieldLine(f, "", value, "", false);
    assert "" + value + "" == value;
    ReadsLine(l, rest, [], p);
    assert Body(l) + Eol(false) + rest == Name(f) + value + "\n" + rest;
  }

  /** A read that ends at the last empty line of the text is the only event there. */
  lemma OnlyEvent(text: string, p: Partial)
    requires ReadFrom(text, [], NOTHING) == ReadFrom("\n", [], p)
    ensures ReadAll(text, []) == if p.hasContent then [p.Finish()] else []
  {
    ReadsBreak(false, "", [], p);
    assert Eol(false) + "" == "\n" && ReadAll("", []) == [];
    if p.hasContent {
      ReadsEvent(text, [], NOTHING, p.Finish(), "");
    }
  }

  lemma {:induction false} ReadsNamed(value: string, rest: string, p: Partial)
    requires Clean(value)
    ensures ReadFrom("event:" + value + "\n" + rest, [], p) == ReadFrom(rest, [], p.(eventType := Some(value), hasContent := true))
    ensures ReadFrom("data:" + value + "\n" + rest, [], p) == ReadFrom(rest, [], p.(dataLines := p.dataLines + [value], hasContent := true))
    ensures ReadFrom("id:" + value + "\n" + rest, [], p) == ReadFrom(rest, [], p.(id := Some(value), hasContent := true))
  {
    hide ReadFrom, Clean;
    ReadsField(EventType, value, rest, p);
    ReadsField(Data, value, rest, p);
    ReadsField(Id, value, rest, p);
  }

  lemma FinishTwo(kind: string, first: string, second: string, id: string)
    ensures Partial(Some(kind), [first, second], Some(id), true).Finish() == SseEvent(Some(kind), first + "\n" + second, Some(id))
  {
    assert [first, second][1..] == [second];
    assert Join([second], "\n") == second;
    assert Join([first, second], "\n") == first + "\n" + second;
  }

  /** Four lines and an empty one, for all values: type, data over two lines, and id. */
  lemma FourLines(kind: string, first: string, second: string, id: string)
    requires Clean(kind) && Clean(first) && Clean(second) && Clean(id)
    ensures ReadAll("event:" + kind + "\n" + ("data:" + first + "\n" + ("data:" + second + "\n" + ("id:" + id + "\n" + "\n"))), []) ==
            [SseEvent(Some(kind), first + "\n" + second, Some(id))]
  {
    assert NOTHING == Partial(None, [], None, false);
    hide *;
    var d := "id:" + id + "\n" + "\n";
    var c := "data:" + second + "\n" + d;
    var b := "data:" + first + "\n" + c;
    ReadsNamed(kind, b, NOTHING);
    ReadsNamed(first, c, Partial(Some(kind), [], None, true));
    assert [] + [first] == [first] && [first] + [second] == [first, second];
    ReadsNamed(second, d, Partial(Some(kind), [first], None, true));
    ReadsNamed(id, "\n", Partial(Some(kind), [first, second], None, true));
    OnlyEvent("event:" + kind + "\n" + b, Partial(Some(kind), [first, second], Some(id), true));
    FinishTwo(kind, first, second, id);
  }

  /** A block whose only line is an unknown field still makes an event, and a comment none. */
  lemma OneOddLine(text: string)
    requires NoBreak(text)
    ensures ReadAll(":" + text + "\n" + "\n", []) == []
    ensures text != "" && text[0] != ':' && !("event:" <= text) && !("data:" <= text) && !("id:" <= text) ==>
              ReadAll(text + "\n" + "\n", []) == [SseEvent(None, "", None)]
  {
    var comment, other := Comment(text, false), Other(text, false);
    ReadsLine(comment, "\n", [], NOTHING);
    OnlyEvent(":" + text + "\n" + "\n", NOTHING);
    if ValidLine(other) {
      ReadsLine(other, "\n", [], NOTHING);
      OnlyEvent(text + "\n" + "\n", NOTHING.(hasContent := true));
    }
  }

  /** `read_line` takes the text up to the first line feed, and then every carriage return and line
      feed at the end is dropped, and nothing else. */
  lemma {:induction false} StripEolIs(s: string) returns (n: nat)
    ensures n <= |s| && StripEol(s) == s[..n] && (n > 0 ==> s[n - 1] != '\r' && s[n - 1] != '\n')
    ensures forall i :: n <= i < |s| ==> s[i] == '\r' || s[i] == '\n'
    decreases |s|
  {
    if s != "" && (s[|s| - 1] == '\r' || s[|s| - 1] == '\n') {
      n := StripEolIs(s[..|s| - 1]);
    } else {
      n := |s|;
    }
  }

  lemma {:induction false} LineLengthIs(text: string)
    ensures LineLength(text) <= |text| && forall i :: 0 <= i < LineLength(text) - 1 ==> text[i] != '\n'
    ensures LineLength(text) < |text| ==> LineLength(text) > 0 && text[LineLength(text) - 1] == '\n'
    decreases |text|
  {
    if text != "" && text[0] != '\n' {
      LineLengthIs(text[1..]);
    }
  }

  // ---------------------------------------------------------------- every stream

  lemma {:induction false} LineEnds(text: string)
    ensures '\n' in text ==> text[LineLength(text) - 1] == '\n'
    ensures '\n' !in text ==> LineLength(text) == |text|
    decreases |text|
  {
    if text != "" && text[0] != '\n' {
      LineEnds(text[1..]);
      assert text == [text[0]] + text[1..];
    }
  }

  /** The lines of a text that a newline ends, stripped. */
  function LinesOf(text: string): seq<string>
    decreases |text|
  {
    if '\n' !in text then [] else [StripEol(text[..LineLength(text)])] + LinesOf(text[LineLength(text)..])
  }

  /** What stands after the last newline, stripped. */
  function TailOf(text: string): string
    decreases |text|
  {
    if '\n' !in text then StripEol(text) else TailOf(text[LineLength(text)..])
  }

  function Take(p: Partial, line: string): Partial
    requires line != ""
  {
    if line[0] == ':' then p else Absorb(p, line)
  }

  /** The events that lines complete, and the fields left open after them. */
  datatype Fed = Fed(events: seq<SseEvent>, open: Partial)

  function Feed(lines: seq<string>, p: Partial): Fed
    decreases |lines|
  {
    if lines == [] then Fed([], p)
    else if lines[0] != "" then Feed(lines[1..], Take(p, lines[0]))
    else if !p.hasContent then Feed(lines[1..], p)
    else
      var fed := Feed(lines[1..], NOTHING);
      Fed([p.Finish()] + fed.events, fed.open)
  }

  /** What becomes of the fields left open when the text runs out: at the end they make an event,
      before a break they are lost, and reading goes on with nothing if the connection is kept. */
  function AtBreak(open: Partial, tail: string, later: seq<Break>): seq<SseEvent> {
    if later == [] then
      var last := if tail == "" then open else Take(open, tail);
      if last.hasContent then [last.Finish()] else []
    else if later[0].kind == Transient then ReadAll(later[0].text, later[1..])
    else []
  }

  /** Before a break whatever is open is lost: reading goes on with the text behind a transient one
      and is over at a fatal one. At the end what is open makes an event if it has any content. */
  lemma AtBreakIs(open: Partial, tail: string, later: seq<Break>)
    ensures later != [] && later[0].kind == Transient ==> AtBreak(open, tail, later) == ReadOn(later[0].text, later[1..], NOTHING)
    ensures later != [] && later[0].kind == Fatal ==> AtBreak(open, tail, later) == []
    ensures later == [] ==>
              var last := if tail == "" then open else Take(open, tail);
              AtBreak(open, tail, later) == if last.hasContent then [SseEvent(last.eventType, Join(last.dataLines, "\n"), last.id)] else []
  {
  }

  lemma ReadsNoNewline(text: string, later: seq<Break>, p: Partial)
    requires '\n' !in text
    ensures ReadOn(text, later, p) == AtBreak(p, TailOf(text), later)
  {
    LineEnds(text);
    Progress(text, later, p);
    assert text[..|text|] == text && text[|text|..] == "";
    if later == [] {
      assert ReadOn("", [], NOTHING) == [];
    }
  }

  lemma ReadsOneLine(text: string, later: seq<Break>, p: Partial)
    requires '\n' in text
    ensures var n := LineLength(text);
            var line, rest := StripEol(text[..n]), text[n..];
            ReadOn(text, later, p) ==
            if line != "" then ReadOn(rest, later, Take(p, line))
            else if p.hasContent then [p.Finish()] + ReadAll(rest, later) else ReadOn(rest, later, p)
  {
    LineEnds(text);
    var n := LineLength(text);
    var line, rest := StripEol(text[..n]), text[n..];
    if line != "" {
      SameRead(text, p, rest, Take(p, line), later);
    } else if p.hasContent {
      ReadsEvent(text, later, p, p.Finish(), rest);
    } else {
      SameRead(text, p, rest, p, later);
    }
  }

  /** Every stream, wherever it breaks: up to a break exactly the events its lines complete are
      received; what they leave open is lost, with the part of a line read last; after a transient
      break reading starts afresh, and after a fatal one it is over. */
  lemma {:induction false} EveryStream(text: string, later: seq<Break>, p: Partial)
    ensures ReadOn(text, later, p) ==
            Feed(LinesOf(text), p).events + AtBreak(Feed(LinesOf(text), p).open, TailOf(text), later)
    decreases |text|
  {
    if '\n' !in text {
      ReadsNoNewline(text, later, p);
    } else {
      var n := LineLength(text);
      var line, rest := StripEol(text[..n]), text[n..];
      ReadsOneLine(text, later, p);
      assert LinesOf(text)[1..] == LinesOf(rest);
      EveryStream(rest, later, if line != "" then Take(p, line) else if p.hasContent then NOTHING else p);
    }
  }
}
