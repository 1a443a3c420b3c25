/** The wire format between the two ends of an event stream: one frame per event, read back line by line. */
module EventWire {
  import opened Common
  import opened EventClient
  import EventStream
  import Fingerprints

  // ---------------------------------------------------------------------------------------------
  // Reading a frame

  function FindNewline(s: string): (r: Option<nat>)
    ensures r.Some? ==> r.value < |s| && s[r.value] == '\n' && '\n' !in s[..r.value]
    ensures r.None? ==> '\n' !in s
  {
    if s == "" then None
    else if s[0] == '\n' then Some(0)
    else match FindNewline(s[1..])
      case None => None
      case Some(i) => assert s[..i + 1] == [s[0]] + s[1..][..i]; Some(i + 1)
  }

  function WithoutReturn(line: string): string {
    if line != "" && line[|line| - 1] == '\r' then line[..|line| - 1] else line
  }

  /** The lines of a frame: each ends at a newline, with or without a carriage return; the last may lack it. */
  function Lines(s: string): seq<string>
    decreases |s|
  {
    if s == "" then []
    else match FindNewline(s)
      case None => [s]
      case Some(i) => [WithoutReturn(s[..i])] + Lines(s[i + 1..])
  }

  predicate IsSpace(c: char) {
    || c == ' ' || '\t' <= c <= '\r' || c == '\U{85}' || c == '\U{a0}' || c == '\U{1680}'
    || '\U{2000}' <= c <= '\U{200a}'
    || c == '\U{2028}' || c == '\U{2029}' || c == '\U{202f}' || c == '\U{205f}' || c == '\U{3000}'
  }

  function TrimStart(s: string): string {
    if s != "" && IsSpace(s[0]) then TrimStart(s[1..]) else s
  }

  function DataOf(line: string): Option<string> {
    if "data:" <= line then Some(TrimStart(line[5..])) else None
  }

  /** The data of the last line that has any. */
  function LastData(lines: seq<string>): Option<string> {
    if lines == [] then None
    else
      var last := DataOf(lines[|lines| - 1]);
      if last.Some? then last else LastData(lines[..|lines| - 1])
  }

  /** A line ends at the first line feed, and a carriage return before that is no part of it. */
  lemma LinesBreak(line: string, rest: string)
    requires '\n' !in line && (line == "" || line[|line| - 1] != '\r')
    ensures Lines(line + "\n" + rest) == [line] + Lines(rest)
  {
    BreakAt(line, rest);
  }

  lemma LinesBreakAtReturn(line: string, rest: string)
    requires '\n' !in line
    ensures Lines(line + "\r\n" + rest) == [line] + Lines(rest)
  {
    BreakAt(line + "\r", rest);
    assert line + "\r" + "\n" + rest == line + "\r\n" + rest;
    assert (line + "\r")[..|line|] == line;
  }

  lemma BreakAt(line: string, rest: string)
    requires '\n' !in line
    ensures Lines(line + "\n" + rest) == [WithoutReturn(line)] + Lines(rest)
  {
    var s := line + "\n" + rest;
    FirstNewline(line, rest);
    assert s[..|line|] == line && s[|line| + 1..] == rest;
  }

  /** The last line may lack its line feed. */
  lemma LastLine(line: string)
    requires '\n' !in line
    ensures Lines(line) == if line == "" then [] else [line]
  {
    var found := FindNewline(line);
  }

  /** The characters with the Unicode property White_Space. */
  const WHITE_SPACE: set<char> := {
    '\t', '\n', '\U{0b}', '\U{0c}', '\r', ' ', '\U{85}', '\U{a0}', '\U{1680}', '\U{2000}', '\U{2001}', '\U{2002}',
    '\U{2003}', '\U{2004}', '\U{2005}', '\U{2006}', '\U{2007}', '\U{2008}', '\U{2009}', '\U{200a}', '\U{2028}',
    '\U{2029}', '\U{202f}', '\U{205f}', '\U{3000}' }

  lemma IsSpaceIff(c: char)
    ensures IsSpace(c) <==> c in WHITE_SPACE
  {
  }

  /** Trimming drops white space from the front, and stops at the first other character. */
  lemma {:induction false} TrimStartDrops(s: string) returns (k: nat)
    ensures k <= |s| && TrimStart(s) == s[k..]
    ensures (forall i :: 0 <= i < k ==> s[i] in WHITE_SPACE) && (k < |s| ==> s[k] !in WHITE_SPACE)
  {
    k := 0;
    if s != "" {
      IsSpaceIff(s[0]);
      if IsSpace(s[0]) {
        k := TrimStartDrops(s[1..]);
        k := k + 1;
      }
    }
  }

  /** Of several data lines the last counts. */
  lemma {:induction false} LastDataCounts(lines: seq<string>, i: nat, value: string)
    requires i < |lines| && lines[i] == "data:" + value
    requires forall j :: i < j < |lines| ==> !("data:" <= lines[j])
    ensures LastData(lines) == Some(TrimStart(value))
  {
    if i < |lines| - 1 {
      LastDataCounts(lines[..|lines| - 1], i, value);
    } else {
      assert lines[i][5..] == value;
    }
  }

  lemma {:induction false} NoDataCounts(lines: seq<string>)
    requires forall j :: 0 <= j < |lines| ==> !("data:" <= lines[j])
    ensures LastData(lines) == None
  {
    if lines != [] { NoDataCounts(lines[..|lines| - 1]); }
  }

  /** Reads a frame line by line; each data line replaces the one before. */
  method ParseFrame(frame: string, decode: string -> Parsed) returns (r: Parsed)
    ensures r == Parser(decode)(frame)
  {
    var lines := Lines(frame);
    var data: Option<string> := None;
    for i := 0 to |lines|
      invariant data == LastData(lines[..i])
    {
      assert lines[..i + 1][..i] == lines[..i];
      if "data:" <= lines[i] {
        data := Some(TrimStart(lines[i][5..]));
      }
    }
    assert lines[..|lines|] == lines;
    r := if data.Some? && data.value != "" then decode(data.value) else Skip;
  }

  function Parser(decode: string -> Parsed): string -> Parsed {
    (frame: string) => DecodeData(LastData(Lines(frame)), decode)
  }

  /** A frame without data, or with empty data, holds no event. */
  function DecodeData(data: Option<string>, decode: string -> Parsed): Parsed {
    if data.Some? && data.value != "" then decode(data.value) else Skip
  }

  // ---------------------------------------------------------------------------------------------
  // Writing frames

  /** An event with its type, its sequence number and its serialised form; or a comment that keeps the line open. */
  datatype Message = Message(eventType: string, id: string, data: string) | KeepAlive

  predicate OneLine(s: string) {
    '\n' !in s && '\r' !in s
  }

  predicate Sendable(m: Message) {
    m.Message? ==> OneLine(m.eventType) && OneLine(m.id) && OneLine(m.data) && m.data != "" && !IsSpace(m.data[0])
  }

  function LinesOf(m: Message): seq<string> {
    match m
    case Message(eventType, id, data) => ["event: " + eventType, "id: " + id, "data: " + data]
    case KeepAlive => [":"]
  }

  function JoinLines(lines: seq<string>): string {
    if lines == [] then "" else lines[0] + "\n" + JoinLines(lines[1..])
  }

  /** Each line with its newline, and a blank line. */
  function Render(m: Message): string {
    JoinLines(LinesOf(m)) + "\n"
  }

  lemma RenderedText(eventType: string, id: string, data: string)
    ensures Render(Message(eventType, id, data)) ==
      "event: " + eventType + "\nid: " + id + "\ndata: " + data + "\n\n"
    ensures Render(KeepAlive) == ":\n\n"
  {
    var a, b, c := "event: " + eventType, "id: " + id, "data: " + data;
    assert [a, b, c][1..] == [b, c] && [b, c][1..] == [c] && [c][1..] == [] && [":"][1..] == [];
    assert JoinLines([c]) == c + "\n" && JoinLines([":"]) == ":" + "\n" + "";
    assert JoinLines([b, c]) == b + "\n" + (c + "\n");
    assert JoinLines([a, b, c]) == a + "\n" + (b + "\n" + (c + "\n"));
    assert a + "\n" + (b + "\n" + (c + "\n")) + "\n" ==
      "event: " + eventType + "\nid: " + id + "\ndata: " + data + "\n\n";
  }

  function Text(messages: seq<Message>): string {
    if messages == [] then "" else Render(messages[0]) + Text(messages[1..])
  }

  /** Lines that are not empty and hold no line ends. */
  ghost predicate Plain(lines: seq<string>) {
    forall i :: 0 <= i < |lines| ==> lines[i] != "" && OneLine(lines[i])
  }

  lemma LinesOfPlain(m: Message)
    requires Sendable(m)
    ensures Plain(LinesOf(m)) && LinesOf(m) != []
  {
  }

  lemma {:induction false} FirstNewline(line: string, rest: string)
    requires '\n' !in line
    ensures FindNewline(line + "\n" + rest) == Some(|line|)
  {
    if line == "" {
      assert (line + "\n" + rest)[0] == '\n';
    } else {
      assert (line + "\n" + rest)[1..] == line[1..] + "\n" + rest;
      FirstNewline(line[1..], rest);
    }
  }

  /** A joined text without its last newline. */
  function Shortened(lines: seq<string>): (s: string)
    requires lines != []
    ensures JoinLines(lines) == s + "\n"
  {
    if |lines| == 1 then
      assert JoinLines(lines[1..]) == "";
      lines[0]
    else
      var rest := Shortened(lines[1..]);
      assert lines[0] + "\n" + (rest + "\n") == lines[0] + "\n" + rest + "\n";
      lines[0] + "\n" + rest
  }

  /** Without its last newline a frame has the same lines. */
  lemma {:induction false} LinesOfFrame(lines: seq<string>)
    requires Plain(lines) && lines != []
    ensures Lines(Shortened(lines)) == lines
  {
    if |lines| == 1 {
      assert Lines(lines[0]) == [lines[0]];
    } else {
      LinesOfFrame(lines[1..]);
      LinesBreak(lines[0], Shortened(lines[1..]));
      assert lines == [lines[0]] + lines[1..];
    }
  }

  lemma NoBlankInLine(line: string, rest: string, from: nat)
    requires '\n' !in line && from < |line|
    ensures !BlankAt(line + rest, from)
  {
    assert (line + rest)[from] == line[from];
  }

  lemma {:induction false} BlankPastLine(line: string, rest: string, from: nat)
    requires '\n' !in line && from <= |line|
    ensures FindBlank(line + rest, from) == FindBlank(line + rest, |line|)
    decreases |line| - from
  {
    if from < |line| {
      NoBlankInLine(line, rest, from);
      if from + 2 <= |line + rest| {
        BlankPastLine(line, rest, from + 1);
      } else {
        assert |rest| == 0 && from + 1 == |line|;
      }
    }
  }

  lemma {:induction false} FindBlankShift(a: string, b: string, from: nat)
    requires from <= |b|
    ensures FindBlank(a + b, |a| + from) ==
      (match FindBlank(b, from) case None => None case Some(i) => Some(|a| + i))
    decreases |b| - from
  {
    if from + 2 <= |b| {
      assert BlankAt(a + b, |a| + from) <==> BlankAt(b, from);
      if !BlankAt(b, from) { FindBlankShift(a, b, from + 1); }
    }
  }

  /** The first blank line of a text that starts with a frame is the one that ends the frame. */
  lemma {:induction false} BlankEndsFrame(lines: seq<string>, rest: string)
    requires Plain(lines) && lines != []
    ensures FindBlank(JoinLines(lines) + "\n" + rest) == Some(|JoinLines(lines)| - 1)
  {
    var line, more := lines[0], JoinLines(lines[1..]);
    var tail := more + "\n" + rest;
    assert JoinLines(lines) + "\n" + rest == line + ("\n" + tail);
    BlankPastLine(line, "\n" + tail, 0);
    FindBlankShift(line, "\n" + tail, 0);
    if |lines| > 1 {
      assert more[0] == lines[1][0] && lines[1][0] in lines[1];
      FindBlankShift("\n", tail, 0);
      BlankEndsFrame(lines[1..], rest);
      assert !BlankAt("\n" + tail, 0);
    } else {
      assert BlankAt("\n" + tail, 0);
    }
  }

  lemma CutFrame(lines: seq<string>, rest: string)
    requires Plain(lines) && lines != []
    ensures Frames(JoinLines(lines) + "\n" + rest) == [Shortened(lines)] + Frames(rest)
  {
    BlankEndsFrame(lines, rest);
    var text, frame := JoinLines(lines) + "\n" + rest, Shortened(lines);
    Unfold(text);
    assert text[..|frame|] == frame && text[|frame| + 2..] == rest;
  }

  lemma FirstMessage(m: Message, rest: string)
    requires Sendable(m)
    ensures Frames(Render(m) + rest) == [Shortened(LinesOf(m))] + Frames(rest)
  {
    LinesOfPlain(m);
    CutFrame(LinesOf(m), rest);
  }

  /** What a message decodes to on the other side. */
  function Received(m: Message, decode: string -> Parsed): Parsed {
    match m
    case Message(_, _, data) => decode(data)
    case KeepAlive => Skip
  }

  lemma FrameReadBack(m: Message, decode: string -> Parsed)
    requires Sendable(m)
    ensures Parser(decode)(Shortened(LinesOf(m))) == Received(m, decode)
  {
    LinesOfPlain(m);
    LinesOfFrame(LinesOf(m));
    LastDataOf(m);
  }

  lemma LastDataOf(m: Message)
    requires Sendable(m)
    ensures LastData(LinesOf(m)) == if m.Message? then Some(m.data) else None
  {
    if m.Message? {
      DataLine(m.data);
      assert LinesOf(m)[2] == "data: " + m.data;
    } else {
      NoDataLine();
    }
  }

  lemma DataLine(data: string)
    requires data != "" && !IsSpace(data[0])
    ensures DataOf("data: " + data) == Some(data)
  {
    assert ("data: " + data)[..5] == "data:" && ("data: " + data)[5..] == " " + data;
    assert IsSpace(' ') && (" " + data)[1..] == data;
    assert TrimStart(" " + data) == TrimStart(data) == data;
  }

  lemma NoDataLine()
    ensures LastData([":"]) == None
  {
    assert [":"][..0] == [];
    assert |":"| < |"data:"|;
  }

  /** What is delivered when one parsed frame comes before the rest. */
  function Continue(first: Parsed, rest: Delivery): Delivery {
    match first
    case Skip => rest
    case Malformed => Delivery([], DecodeFailed)
    case Event(payload, completed) =>
      if completed then Delivery([payload], Completed) else Delivery([payload] + rest.events, rest.outcome)
  }

  /** Delivery straight from the messages, up to the first completed event or the first that does not decode. */
  function DeliverMessages(messages: seq<Message>, decode: string -> Parsed): Delivery {
    if messages == [] then Delivery([], StreamEnded)
    else Continue(Received(messages[0], decode), DeliverMessages(messages[1..], decode))
  }

  lemma DeliverFirst(frame: string, frames: seq<string>, parse: string -> Parsed)
    ensures Deliver([frame] + frames, parse) == Continue(parse(frame), Deliver(frames, parse))
  {
    assert ([frame] + frames)[1..] == frames;
  }

  lemma FirstDelivered(m: Message, rest: string, decode: string -> Parsed)
    requires Sendable(m)
    ensures Deliver(Frames(Render(m) + rest), Parser(decode)) ==
      Continue(Received(m, decode), Deliver(Frames(rest), Parser(decode)))
  {
    FirstMessage(m, rest);
    FrameReadBack(m, decode);
    DeliverFirst(Shortened(LinesOf(m)), Frames(rest), Parser(decode));
  }

  /** Over every message sequence the client delivers from the text what was sent. */
  lemma {:induction false} TextReadBack(messages: seq<Message>, decode: string -> Parsed)
    requires forall m :: m in messages ==> Sendable(m)
    ensures Deliver(Frames(Text(messages)), Parser(decode)) == DeliverMessages(messages, decode)
  {
    if messages == [] {
      EmptyBuffer("", Parser(decode));
    } else {
      TextReadBack(messages[1..], decode);
      FirstDelivered(messages[0], Text(messages[1..]), decode);
    }
  }

  /** The message of an event: its type, its sequence number in decimal, its serialised form. */
  function MessageOf(item: EventStream.Item, typeOf: string -> string): Message {
    Message(typeOf(item.event), Fingerprints.Decimal(item.sequence), item.event)
  }

  function MessagesOf(items: seq<EventStream.Item>, typeOf: string -> string): (r: seq<Message>)
    ensures |r| == |items| && forall i :: 0 <= i < |r| ==> r[i] == MessageOf(items[i], typeOf)
  {
    seq(|items|, i requires 0 <= i < |items| => MessageOf(items[i], typeOf))
  }

  /** Events that serialise to one line and start with no space can be sent. */
  ghost predicate Serialised(event: string, typeOf: string -> string) {
    OneLine(event) && event != "" && !IsSpace(event[0]) && OneLine(typeOf(event))
  }

  lemma MessagesSendable(items: seq<EventStream.Item>, typeOf: string -> string)
    requires forall i :: 0 <= i < |items| ==> Serialised(items[i].event, typeOf)
    ensures forall m :: m in MessagesOf(items, typeOf) ==> Sendable(m)
  {
    forall m | m in MessagesOf(items, typeOf) ensures Sendable(m) {
      var i :| 0 <= i < |items| && m == MessageOf(items[i], typeOf);
      assert Serialised(items[i].event, typeOf);
      DecimalOneLine(items[i].sequence);
    }
  }

  lemma DecimalOneLine(n: nat)
    ensures OneLine(Fingerprints.Decimal(n))
  {
  }

  lemma FramesOfChunks(buffer: string, chunks: seq<string>)
    requires buffer == ""
    ensures FramesByChunk(buffer, chunks) == Frames(Joined(chunks))
  {
    assert buffer + Joined(chunks) == Joined(chunks);
    ChunkingIndependent(buffer, chunks);
  }

  /** The messages that carry events. */
  function WithoutComments(messages: seq<Message>): seq<Message> {
    if messages == [] then []
    else (if messages[0].Message? then [messages[0]] else []) + WithoutComments(messages[1..])
  }

  /** Comments between events change nothing that is delivered. */
  lemma {:induction false} CommentsSkipped(messages: seq<Message>, decode: string -> Parsed)
    ensures DeliverMessages(messages, decode) == DeliverMessages(WithoutComments(messages), decode)
  {
    if messages != [] {
      CommentsSkipped(messages[1..], decode);
      var kept := WithoutComments(messages);
      if messages[0].Message? {
        assert kept[0] == messages[0] && kept[1..] == WithoutComments(messages[1..]);
      } else {
        assert kept == WithoutComments(messages[1..]);
      }
    }
  }

  lemma {:induction false} CommentsSendable(messages: seq<Message>)
    requires forall m :: m in WithoutComments(messages) ==> Sendable(m)
    ensures forall m :: m in messages ==> Sendable(m)
  {
    if messages != [] {
      var rest := WithoutComments(messages[1..]);
      forall m | m in rest ensures Sendable(m) { assert m in WithoutComments(messages); }
      CommentsSendable(messages[1..]);
      assert Sendable(messages[0]) by {
        if messages[0].Message? { assert messages[0] in WithoutComments(messages); }
      }
    }
  }

  /** End to end: from any chunks of the emitted text, comments between the events included, the client delivers the
      emitted events in order, up to the first that completes the stream or does not decode. */
  lemma EventsReadBack(items: seq<EventStream.Item>, typeOf: string -> string, messages: seq<Message>,
                       chunks: seq<string>, decode: string -> Parsed)
    requires forall i :: 0 <= i < |items| ==> Serialised(items[i].event, typeOf)
    requires WithoutComments(messages) == MessagesOf(items, typeOf) && Joined(chunks) == Text(messages)
    ensures Deliver(FramesByChunk("", chunks), Parser(decode)) == DeliverMessages(MessagesOf(items, typeOf), decode)
  {
    FramesOfChunks("", chunks);
    MessagesSendable(items, typeOf);
    CommentsSkipped(messages, decode);
    CommentsSendable(messages);
    TextReadBack(messages, decode);
  }

  /** `d` holds the payloads of `due`, in order, up to and including the first that completes the stream. */
  ghost predicate DeliversUpToCompleted(d: Delivery, due: seq<EventStream.Item>, decode: string -> Parsed)
    requires forall i :: 0 <= i < |due| ==> decode(due[i].event).Event?
  {
    && |d.events| <= |due|
    && (forall i :: 0 <= i < |d.events| ==> d.events[i] == decode(due[i].event).payload)
    && (forall i :: 0 <= i < |d.events| - 1 ==> !decode(due[i].event).completed)
    && if d.outcome == Completed then d.events != [] && decode(due[|d.events| - 1].event).completed
       else
         && d.outcome == StreamEnded && |d.events| == |due|
         && forall i :: 0 <= i < |due| ==> !decode(due[i].event).completed
  }

  lemma {:induction false} ItemsDelivered(due: seq<EventStream.Item>, typeOf: string -> string,
                                          decode: string -> Parsed)
    requires forall i :: 0 <= i < |due| ==> decode(due[i].event).Event?
    ensures DeliversUpToCompleted(DeliverMessages(MessagesOf(due, typeOf), decode), due, decode)
  {
    if due != [] {
      assert MessagesOf(due, typeOf)[1..] == MessagesOf(due[1..], typeOf);
      ItemsDelivered(due[1..], typeOf, decode);
      var rest := DeliverMessages(MessagesOf(due[1..], typeOf), decode);
      DeliveredOneMore(due, rest, decode);
    }
  }

  lemma DeliveredOneMore(due: seq<EventStream.Item>, rest: Delivery, decode: string -> Parsed)
    requires due != [] && forall i :: 0 <= i < |due| ==> decode(due[i].event).Event?
    requires DeliversUpToCompleted(rest, due[1..], decode)
    ensures DeliversUpToCompleted(Continue(decode(due[0].event), rest), due, decode)
  {
    var d, tail := Continue(decode(due[0].event), rest), due[1..];
    forall i | 0 < i < |due| ensures due[i] == tail[i - 1] {}
    if !decode(due[0].event).completed {
      forall i | 0 < i < |d.events|
        ensures d.events[i] == decode(due[i].event).payload && (i < |d.events| - 1 ==> !decode(due[i].event).completed)
      {
        assert d.events[i] == rest.events[i - 1] && due[i] == tail[i - 1];
      }
      if rest.outcome == StreamEnded {
        forall i | 0 < i < |due| ensures !decode(due[i].event).completed { assert due[i] == tail[i - 1]; }
      }
    }
  }

  /**
   * The whole way from the log to the client: a subscription at any point among appends and pushes, its text with
   * comments and in any chunks. The client delivers exactly the log after the resume point, each event once and in
   * order, up to the first event that completes the stream.
   */
  lemma ClientReadsLog(feeds: seq<EventStream.Feed>, s: EventStream.Session, after: nat, typeOf: string -> string,
                       messages: seq<Message>, chunks: seq<string>, decode: string -> Parsed)
    requires EventStream.Production(feeds) && EventStream.InOrder(feeds, s)
    requires feeds[s.until].pushed <= |feeds[s.until].log|
    requires forall e :: e in feeds[s.until].log ==> Serialised(e, typeOf) && decode(e).Event?
    requires WithoutComments(messages) == MessagesOf(EventStream.Delivered(feeds, s, after), typeOf)
    requires Joined(chunks) == Text(messages)
    ensures |feeds[s.loaded].log| <= |feeds[s.until].log|
    ensures
      var log, upTo := feeds[s.until].log, EventStream.Max(|feeds[s.loaded].log|, feeds[s.until].pushed);
      var due := EventStream.Items(log, after, upTo);
      && (forall i :: 0 <= i < |due| ==> decode(due[i].event).Event?)
      && DeliversUpToCompleted(Deliver(FramesByChunk("", chunks), Parser(decode)), due, decode)
  {
    EventStream.ExactlyOnce(feeds, s, after);
    var log, upTo := feeds[s.until].log, EventStream.Max(|feeds[s.loaded].log|, feeds[s.until].pushed);
    var due := EventStream.Items(log, after, upTo);
    forall i | 0 <= i < |due| ensures Serialised(due[i].event, typeOf) && decode(due[i].event).Event? {
      assert due[i].event == log[after + i];
      assert log[after + i] in log;
    }
    EventsReadBack(due, typeOf, messages, chunks, decode);
    ItemsDelivered(due, typeOf, decode);
  }
}
