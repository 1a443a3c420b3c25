/** The client's framing loop: chunks of text in, parsed events out. */
module EventClient {
  import opened Common

  /** What a frame holds: nothing to deliver, an event, or data that does not decode. */
  datatype Parsed = Skip | Event(payload: string, completed: bool) | Malformed

  datatype Outcome = StreamEnded | Completed | DecodeFailed

  predicate BlankAt(text: string, i: int) {
    0 <= i && i + 2 <= |text| && text[i] == '\n' && text[i + 1] == '\n'
  }

  /** The leftmost blank line. */
  function FindBlank(text: string, from: nat := 0): (r: Option<nat>)
    requires from <= |text|
    ensures r.Some? ==> from <= r.value && BlankAt(text, r.value)
    decreases |text| - from
  {
    if from + 2 > |text| then None
    else if BlankAt(text, from) then Some(from)
    else FindBlank(text, from + 1)
  }

  /** The frames of a text: what lies before each leftmost blank line, repeatedly. */
  function Frames(text: string): seq<string>
    decreases |text|
  {
    var i := FindBlank(text);
    if i.None? then [] else [text[..i.value]] + Frames(text[i.value + 2..])
  }

  /** The text after the last frame. */
  function Remainder(text: string): string
    decreases |text|
  {
    var i := FindBlank(text);
    if i.None? then text else Remainder(text[i.value + 2..])
  }

  /** A blank line stays the leftmost one when text is appended. */
  lemma {:induction false} BlankStays(a: string, b: string, from: nat)
    requires from <= |a| && FindBlank(a, from).Some?
    ensures FindBlank(a + b, from) == FindBlank(a, from)
    decreases |a| - from
  {
    assert BlankAt(a + b, from) <==> BlankAt(a, from);
    if !BlankAt(a, from) { BlankStays(a, b, from + 1); }
  }

  /** No blank line starts before the one that is found. */
  lemma {:induction false} FoundIsLeftmost(text: string, from: nat, j: nat)
    requires from <= j && from <= |text| && BlankAt(text, j)
    ensures FindBlank(text, from).Some? && FindBlank(text, from).value <= j
    decreases |text| - from
  {
    if !BlankAt(text, from) { FoundIsLeftmost(text, from + 1, j); }
  }

  /** Taking the first frame off a buffer takes it off the whole text still to come. */
  lemma FirstFrame(buffer: string, tail: string)
    requires FindBlank(buffer).Some?
    ensures var i := FindBlank(buffer).value;
      Frames(buffer + tail) == [buffer[..i]] + Frames(buffer[i + 2..] + tail)
  {
    var i := FindBlank(buffer).value;
    BlankStays(buffer, tail, 0);
    assert (buffer + tail)[..i] == buffer[..i] && (buffer + tail)[i + 2..] == buffer[i + 2..] + tail;
  }

  /** Appending text extends the frames by those of the remainder with the new text. */
  lemma {:induction false} FramesOfAppend(a: string, b: string)
    ensures Frames(a + b) == Frames(a) + Frames(Remainder(a) + b)
    decreases |a|
  {
    if FindBlank(a).None? {
      assert Remainder(a) == a && Frames(a) == [];
    } else {
      var i := FindBlank(a).value;
      var frame, rest := a[..i], a[i + 2..];
      calc {
        Frames(a + b);
        { FirstFrame(a, b); }
        [frame] + Frames(rest + b);
        { FramesOfAppend(rest, b); }
        [frame] + (Frames(rest) + Frames(Remainder(rest) + b));
        { Associative([frame], Frames(rest), Frames(Remainder(rest) + b)); }
        ([frame] + Frames(rest)) + Frames(Remainder(rest) + b);
        { Unfold(a); }
        Frames(a) + Frames(Remainder(a) + b);
      }
    }
  }

  lemma Unfold(a: string)
    requires FindBlank(a).Some?
    ensures var i := FindBlank(a).value;
      Frames(a) == [a[..i]] + Frames(a[i + 2..]) && Remainder(a) == Remainder(a[i + 2..])
  {
  }

  lemma Associative(a: seq<string>, b: seq<string>, c: seq<string>)
    ensures a + (b + c) == (a + b) + c
  {
  }

  datatype Delivery = Delivery(events: seq<string>, outcome: Outcome)

  /** Delivers frame after frame, up to the first completed event or the first frame that does not decode. */
  function Deliver(frames: seq<string>, parse: string -> Parsed): Delivery {
    if frames == [] then Delivery([], StreamEnded)
    else match parse(frames[0])
      case Skip => Deliver(frames[1..], parse)
      case Malformed => Delivery([], DecodeFailed)
      case Event(payload, completed) =>
        if completed then Delivery([payload], Completed)
        else
          var rest := Deliver(frames[1..], parse);
          Delivery([payload] + rest.events, rest.outcome)
  }

  /** A delivery that has stopped ignores further frames; one that has not continues with them. */
  lemma {:induction false} DeliverAppend(a: seq<string>, b: seq<string>, parse: string -> Parsed)
    ensures Deliver(a + b, parse) ==
      if Deliver(a, parse).outcome == StreamEnded
      then Delivery(Deliver(a, parse).events + Deliver(b, parse).events, Deliver(b, parse).outcome)
      else Deliver(a, parse)
  {
    if a == [] {
      assert a + b == b;
    } else {
      assert (a + b)[0] == a[0] && (a + b)[1..] == a[1..] + b;
      DeliverAppend(a[1..], b, parse);
    }
  }

  function Joined(chunks: seq<string>): string {
    if chunks == [] then "" else chunks[0] + Joined(chunks[1..])
  }

  /** The frames the buffer yields when the text arrives in chunks. */
  function FramesByChunk(buffer: string, chunks: seq<string>): seq<string>
    decreases |chunks|
  {
    if chunks == [] then []
    else Frames(buffer + chunks[0]) + FramesByChunk(Remainder(buffer + chunks[0]), chunks[1..])
  }

  /** However the text is cut into chunks, the buffer yields the frames of the whole text, in order. */
  lemma {:induction false} ChunkingIndependent(buffer: string, chunks: seq<string>)
    requires Frames(buffer) == []
    ensures FramesByChunk(buffer, chunks) == Frames(buffer + Joined(chunks))
    decreases |chunks|
  {
    if chunks == [] {
      assert buffer + "" == buffer;
    } else {
      var text, tail := buffer + chunks[0], Joined(chunks[1..]);
      JoinStep(buffer, chunks);
      RemainderHasNoFrames(text);
      calc {
        FramesByChunk(buffer, chunks);
        Frames(text) + FramesByChunk(Remainder(text), chunks[1..]);
        { ChunkingIndependent(Remainder(text), chunks[1..]); }
        Frames(text) + Frames(Remainder(text) + tail);
        { FramesOfAppend(text, tail); }
        Frames(text + tail);
      }
    }
  }

  lemma JoinStep(buffer: string, chunks: seq<string>)
    requires chunks != []
    ensures buffer + Joined(chunks) == buffer + chunks[0] + Joined(chunks[1..])
  {
  }

  lemma {:induction false} RemainderHasNoFrames(text: string)
    ensures Frames(Remainder(text)) == []
    decreases |text|
  {
    if FindBlank(text).Some? {
      RemainderHasNoFrames(text[FindBlank(text).value + 2..]);
    }
  }

  /** One more frame that is not final. */
  lemma DeliverOneMore(seen: seq<string>, frame: string, more: seq<string>, parse: string -> Parsed)
    requires Deliver(seen, parse).outcome == StreamEnded
    ensures var d := Deliver(seen, parse).events;
      Deliver(seen + [frame], parse) == match parse(frame)
        case Skip => Delivery(d, StreamEnded)
        case Malformed => Delivery(d, DecodeFailed)
        case Event(payload, completed) => Delivery(d + [payload], if completed then Completed else StreamEnded)
    ensures !Deliver(seen + [frame], parse).outcome.StreamEnded? ==>
      Deliver(seen + ([frame] + more), parse) == Deliver(seen + [frame], parse)
  {
    DeliverAppend(seen, [frame], parse);
    DeliverAppend(seen + [frame], more, parse);
    assert [frame][1..] == [];
    assert seen + ([frame] + more) == seen + [frame] + more;
  }

  /** The inner loop: takes whole frames off the buffer; `tail` is the text still to come. */
  method DrainFrames(buffer0: string, delivered0: seq<string>, parse: string -> Parsed, ghost seen0: seq<string>,
                     ghost tail: string)
    returns (buffer: string, delivered: seq<string>, outcome: Outcome, ghost seen: seq<string>)
    requires Deliver(seen0, parse) == Delivery(delivered0, StreamEnded)
    ensures outcome == StreamEnded ==>
      && Frames(buffer) == [] && seen + Frames(buffer + tail) == seen0 + Frames(buffer0 + tail)
      && Deliver(seen, parse) == Delivery(delivered, StreamEnded)
    ensures outcome != StreamEnded ==> Deliver(seen0 + Frames(buffer0 + tail), parse) == Delivery(delivered, outcome)
  {
    buffer, delivered, outcome, seen := buffer0, delivered0, StreamEnded, seen0;
    var idx := FindBlank(buffer);
    while idx.Some?
      invariant idx == FindBlank(buffer)
      invariant seen + Frames(buffer + tail) == seen0 + Frames(buffer0 + tail)
      invariant Deliver(seen, parse) == Delivery(delivered, StreamEnded)
      decreases |buffer|
    {
      var frame := buffer[..idx.value];
      FirstFrame(buffer, tail);
      buffer := buffer[idx.value + 2..];
      DeliverOneMore(seen, frame, Frames(buffer + tail), parse);
      assert seen + ([frame] + Frames(buffer + tail)) == seen + [frame] + Frames(buffer + tail);
      seen := seen + [frame];
      match parse(frame) {
        case Skip =>
        case Malformed =>
          outcome := DecodeFailed;
          return;
        case Event(payload, completed) =>
          delivered := delivered + [payload];
          if completed {
            outcome := Completed;
            return;
          }
      }
      idx := FindBlank(buffer);
    }
  }

  /** `delivered` comes from the frames `seen`; those of `buffer + tail` are still to come. */
  ghost predicate Progress(text: string, seen: seq<string>, rest: string, delivered: seq<string>,
                           parse: string -> Parsed) {
    seen + Frames(rest) == Frames(text) && Deliver(seen, parse) == Delivery(delivered, StreamEnded)
  }

  lemma ProgressEnds(text: string, seen: seq<string>, rest: string, delivered: seq<string>, parse: string -> Parsed)
    requires Progress(text, seen, rest, delivered, parse) && Frames(rest) == []
    ensures Deliver(Frames(text), parse) == Delivery(delivered, StreamEnded)
  {
    assert seen + [] == seen;
  }

  /** One chunk: the text still to come after it is `tail`. */
  method TakeChunk(ghost text: string, ghost seen0: seq<string>, ghost tail: string, buffer0: string, chunk: string,
                   delivered0: seq<string>, parse: string -> Parsed)
    returns (ghost seen: seq<string>, buffer: string, delivered: seq<string>, outcome: Outcome)
    requires Progress(text, seen0, buffer0 + chunk + tail, delivered0, parse)
    ensures outcome == StreamEnded ==> Frames(buffer) == [] && Progress(text, seen, buffer + tail, delivered, parse)
    ensures outcome != StreamEnded ==> Deliver(Frames(text), parse) == Delivery(delivered, outcome)
  {
    buffer, delivered, outcome, seen := DrainFrames(buffer0 + chunk, delivered0, parse, seen0, tail);
  }

  /**
   * The loop over chunks. What it delivers is a function of the joined text alone: the frames of the whole
   * text, in order, up to the first completed event.
   */
  method StreamInvocationEvents(chunks: seq<string>, parse: string -> Parsed)
    returns (delivered: seq<string>, outcome: Outcome)
    ensures Delivery(delivered, outcome) == Deliver(Frames(Joined(chunks)), parse)
  {
    delivered, outcome := [], StreamEnded;
    var buffer := "";
    ghost var seen: seq<string> := [];
    ghost var text := Joined(chunks);
    assert chunks[0..] == chunks;
    EmptyBuffer(text, parse);
    for n := 0 to |chunks|
      invariant Frames(buffer) == [] && outcome == StreamEnded
      invariant Progress(text, seen, buffer + Joined(chunks[n..]), delivered, parse)
    {
      assert chunks[n..][0] == chunks[n] && chunks[n..][1..] == chunks[n + 1..];
      JoinStep(buffer, chunks[n..]);
      seen, buffer, delivered, outcome :=
        TakeChunk(text, seen, Joined(chunks[n + 1..]), buffer, chunks[n], delivered, parse);
      if outcome != StreamEnded {
        return;
      }
    }
    assert buffer + Joined(chunks[|chunks|..]) == buffer;
    ProgressEnds(text, seen, buffer, delivered, parse);
  }

  lemma EmptyBuffer(text: string, parse: string -> Parsed)
    ensures Frames("") == [] && Progress(text, [], "" + text, [], parse)
  {
    assert "" + text == text;
  }
}
