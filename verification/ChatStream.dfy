/** apps/web/components/ChatPanel.tsx, the stream loop inside send: an incremental event-stream reader. */
module ChatStream {
  import opened Basics
  import opened JsStrings

  // ----- framing

  predicate BreakAt(s: string, i: nat) {
    i + 1 < |s| && s[i] == '\n' && s[i + 1] == '\n'
  }

  /** The first blank line: the least i with newlines at i and i + 1. */
  function FirstBreak(s: string): (r: Option<nat>)
    ensures r.Some? ==> BreakAt(s, r.value) && forall i :: 0 <= i < r.value ==> !BreakAt(s, i)
    ensures r.None? ==> forall i :: 0 <= i ==> !BreakAt(s, i)
  {
    if |s| < 2 then None
    else if BreakAt(s, 0) then Some(0)
    else
      var r := FirstBreak(s[1..]);
      assert forall i :: 0 < i ==> BreakAt(s, i) == BreakAt(s[1..], i - 1);
      if r.Some? then Some(r.value + 1) else None
  }

  /** String.split at blank lines: the pieces before the last one, and the last one. */
  datatype Framed = Framed(events: seq<string>, rest: string)

  function Split(s: string): Framed
    decreases |s|
  {
    var cut := FirstBreak(s);
    if cut.None? then Framed([], s)
    else
      var tail := Split(s[cut.value + 2..]);
      Framed([s[..cut.value]] + tail.events, tail.rest)
  }

  /** String.split at single newlines. */
  function Lines(s: string): (r: seq<string>)
    ensures r != []
    decreases |s|
  {
    if '\n' !in s then [s]
    else
      var i := IndexOfNewline(s);
      [s[..i]] + Lines(s[i + 1..])
  }

  function IndexOfNewline(s: string): (i: nat)
    requires '\n' in s
    ensures i < |s| && s[i] == '\n' && '\n' !in s[..i]
  {
    if s[0] == '\n' then 0 else IndexOfNewline(s[1..]) + 1
  }

  // ----- one event

  const EVENT := "event: "
  const DATA := "data: "

  /** The last event line names the type; without one it is 'message'. */
  ghost function EventType(lines: seq<string>): string {
    if lines == [] then "message"
    else
      var line := lines[|lines| - 1];
      if EVENT <= line then Trim(line[|EVENT|..]) else EventType(lines[..|lines| - 1])
  }

  /** The data lines, joined without separator. */
  ghost function DataPayload(lines: seq<string>): string {
    if lines == [] then ""
    else
      var line := lines[|lines| - 1];
      DataPayload(lines[..|lines| - 1]) + (if DATA <= line then line[|DATA|..] else "")
  }

  /** What JSON.parse makes of a payload, as far as the reader looks: a chunk counts only if not empty. */
  datatype Parsed = Malformed | NullValue | Value(chunk: string, message: Option<string>)

  datatype State = State(acc: string, streamError: Option<string>)

  const START := State("", None)

  ghost function Applied(parse: string -> Parsed, st: State, event: string): State {
    var eventType, payload := EventType(Lines(event)), DataPayload(Lines(event));
    if payload == "" then st
    else if eventType == "error" then
      st.(streamError := Some(match parse(payload)
                              case Value(_, message) => (if message.Some? then message.value else "Stream error")
                              case _ => payload))
    else if eventType == "end" then st
    else
      match parse(payload)
      case Value(chunk, _) => st.(acc := st.acc + chunk)
      case _ => st
  }

  ghost function AppliedAll(parse: string -> Parsed, st: State, events: seq<string>): State {
    if events == [] then st
    else Applied(parse, AppliedAll(parse, st, events[..|events| - 1]), events[|events| - 1])
  }

  ghost function Concat(chunks: seq<string>): string {
    if chunks == [] then "" else Concat(chunks[..|chunks| - 1]) + chunks[|chunks| - 1]
  }

  // ----- the reader

  class ChatReader {
    /** JSON.parse, followed by the two property reads. */
    const parse: string -> Parsed

    constructor (parse: string -> Parsed)
      ensures this.parse == parse
    {
      this.parse := parse;
    }

    /**
     Reads the decoded chunks in turn. Whatever the chunking, the outcome is that of splitting the
     whole text once; an unfinished last event stays in the buffer unused.
     */
    method ReadStream(chunks: seq<string>) returns (acc: string, streamError: Option<string>, buf: string)
      ensures var whole := Split(Concat(chunks));
              && State(acc, streamError) == AppliedAll(parse, START, whole.events)
              && buf == whole.rest
    {
      hide Split, AppliedAll;
      acc := "";
      streamError := None;
      buf := "";
      ghost var events := [];
      NothingRead(parse);
      for n := 0 to |chunks|
        invariant Split(Concat(chunks[..n])) == Framed(events, buf)
        invariant State(acc, streamError) == AppliedAll(parse, START, events)
      {
        assert Concat(chunks[..n + 1]) == Concat(chunks[..n]) + chunks[n] by {
          assert chunks[..n + 1][..n] == chunks[..n];
        }
        SplitIncrementally(Concat(chunks[..n]), chunks[n]);
        buf := buf + chunks[n];
        var pieces := Split(buf);
        buf := pieces.rest;
        acc, streamError := HandleEvents(pieces.events, acc, streamError, events);
        events := events + pieces.events;
      }
      assert chunks[..|chunks|] == chunks;
    }

    method HandleEvents(events: seq<string>, acc: string, streamError: Option<string>, ghost seen: seq<string>)
      returns (acc': string, streamError': Option<string>)
      requires State(acc, streamError) == AppliedAll(parse, START, seen)
      ensures State(acc', streamError') == AppliedAll(parse, START, seen + events)
    {
      hide *;
      acc', streamError' := acc, streamError;
      assert seen + events[..0] == seen;
      for m := 0 to |events|
        invariant State(acc', streamError') == AppliedAll(parse, START, seen + events[..m])
      {
        AppliedAppend(parse, START, seen + events[..m], events[m]);
        assert (seen + events[..m]) + [events[m]] == seen + events[..m + 1];
        acc', streamError' := HandleEvent(events[m], acc', streamError');
      }
      assert events[..|events|] == events;
    }

    method HandleEvent(ev: string, acc: string, streamError: Option<string>)
      returns (acc': string, streamError': Option<string>)
      ensures State(acc', streamError') == Applied(parse, State(acc, streamError), ev)
    {
      acc', streamError' := acc, streamError;
      var eventType, dataPayload := "message", "";
      var lines := Lines(ev);
      for i := 0 to |lines|
        invariant eventType == EventType(lines[..i]) && dataPayload == DataPayload(lines[..i])
      {
        var line := lines[i];
        assert lines[..i + 1][..i] == lines[..i];
        if EVENT <= line {
          assert line[0] == 'e';
          eventType := Trim(line[|EVENT|..]);
        } else if DATA <= line {
          dataPayload := dataPayload + line[|DATA|..];
        }
      }
      assert lines[..|lines|] == lines;
      if dataPayload == "" {
        return;
      }
      if eventType == "error" {
        match parse(dataPayload) {
          case Value(_, message) => streamError' := Some(if message.Some? then message.value else "Stream error");
          case _ => streamError' := Some(dataPayload);
        }
        return;
      }
      if eventType == "end" {
        return;
      }
      match parse(dataPayload) {
        case Value(chunk, _) =>
          if chunk != "" {
            acc' := acc' + chunk;
          }
        case _ =>
      }
    }
  }

  // ----- splitting incrementally

  lemma FirstBreakIs(s: string, i: nat)
    requires BreakAt(s, i) && forall j :: 0 <= j < i ==> !BreakAt(s, j)
    ensures FirstBreak(s) == Some(i)
  {
  }

  /** More text never moves the first blank line. */
  lemma FirstBreakStays(a: string, b: string)
    requires FirstBreak(a).Some?
    ensures FirstBreak(a + b) == FirstBreak(a)
  {
    var i := FirstBreak(a).value;
    forall j | 0 <= j <= i
      ensures BreakAt(a + b, j) == BreakAt(a, j)
    {
    }
    FirstBreakIs(a + b, i);
  }

  /** Splitting a + b: the events of a, then those of a's remainder with b behind it. */
  lemma {:induction false} SplitIncrementally(a: string, b: string)
    ensures Split(a + b) == Framed(Split(a).events + Split(Split(a).rest + b).events, Split(Split(a).rest + b).rest)
    decreases |a|
  {
    hide FirstBreak, Split;
    if FirstBreak(a).Some? {
      var i := FirstBreak(a).value;
      var head, tail := a[..i], a[i + 2..];
      FirstBreakStays(a, b);
      SplitAt(a, i);
      SplitAt(a + b, i);
      assert (a + b)[i + 2..] == tail + b && (a + b)[..i] == head;
      SplitIncrementally(tail, b);
      assert ([head] + Split(tail).events) + Split(Split(a).rest + b).events
          == [head] + (Split(tail).events + Split(Split(a).rest + b).events);
    } else {
      SplitNone(a);
    }
  }

  lemma SplitNone(s: string)
    requires FirstBreak(s).None?
    ensures Split(s) == Framed([], s)
  {
  }

  lemma SplitAt(s: string, i: nat)
    requires FirstBreak(s) == Some(i)
    ensures i + 2 <= |s| && Split(s) == Framed([s[..i]] + Split(s[i + 2..]).events, Split(s[i + 2..]).rest)
  {
  }

  lemma AppliedAppend(parse: string -> Parsed, st: State, events: seq<string>, event: string)
    ensures AppliedAll(parse, st, events + [event]) == Applied(parse, AppliedAll(parse, st, events), event)
  {
    assert (events + [event])[..|events|] == events;
  }

  lemma NothingRead(parse: string -> Parsed)
    ensures Split("") == Framed([], "") && AppliedAll(parse, START, []) == START
  {
  }

  // ----- against the writer

  /** The text of the events, each closed by a blank line. */
  ghost function Joined(events: seq<string>): string {
    if events == [] then "" else events[0] + "\n\n" + Joined(events[1..])
  }

  /** No blank line begins inside the event, not even with the one that closes it. */
  ghost predicate Frameable(event: string) {
    forall i :: 0 <= i < |event| ==> !BreakAt(event + "\n\n", i)
  }

  lemma ClosedEventBreaks(event: string, rest: string)
    ensures FirstBreak(event + "\n\n" + rest).Some? && FirstBreak(event + "\n\n" + rest).value <= |event|
    ensures Frameable(event) <==> FirstBreak(event + "\n\n" + rest) == Some(|event|)
  {
    var head := event + "\n\n";
    assert BreakAt(head, |event|);
    FirstBreakStays(head, rest);
  }

  /** The reader recovers a list of events from its text exactly when each can be framed. */
  lemma {:induction false} SplitInvertsJoinedIff(events: seq<string>)
    ensures Split(Joined(events)) == Framed(events, "") <==> forall i :: 0 <= i < |events| ==> Frameable(events[i])
  {
    hide FirstBreak, Frameable;
    if events != [] {
      var e, rest := events[0], Joined(events[1..]);
      var text := e + "\n\n" + rest;
      ClosedEventBreaks(e, rest);
      var cut := FirstBreak(text).value;
      SplitAt(text, cut);
      SplitInvertsJoinedIff(events[1..]);
      if cut == |e| {
        assert text[..cut] == e && text[cut + 2..] == rest;
        assert Split(text).events == events <==> Split(rest).events == events[1..];
        assert forall i :: 1 <= i < |events| ==> events[i] == events[1..][i - 1];
      } else {
        assert |Split(text).events[0]| == cut;
      }
    } else {
      NothingRead(_ => Malformed);
    }
  }

  /** A named event with its data line. */
  ghost function NamedEvent(name: string, payload: string): string {
    (EVENT + name) + "\n" + (DATA + payload)
  }

  /**
   What the chat endpoint writes for answer pieces: one data event each; render is JSON.stringify of an object holding
   the piece.
   */
  ghost function PieceEvents(render: string -> string, pieces: seq<string>): seq<string> {
    if pieces == [] then [] else PieceEvents(render, pieces[..|pieces| - 1]) + [DATA + render(pieces[|pieces| - 1])]
  }

  /** JSON text holds no raw newline and parses back. */
  ghost predicate Faithful(parse: string -> Parsed, render: string -> string) {
    forall piece :: '\n' !in render(piece) && render(piece) != "" && parse(render(piece)) == Value(piece, None)
  }

  lemma OneLine(event: string)
    requires '\n' !in event
    ensures Frameable(event) && Lines(event) == [event]
  {
    forall i | 0 <= i < |event|
      ensures !BreakAt(event + "\n\n", i)
    {
      assert (event + "\n\n")[i] == event[i];
    }
  }

  lemma DataLine(payload: string)
    ensures EventType([DATA + payload]) == "message" && DataPayload([DATA + payload]) == payload
  {
    var line := DATA + payload;
    var none: seq<string> := [];
    assert [line][..0] == none;
    assert line[|DATA|..] == payload;
    assert line[0] == 'd' && EVENT[0] == 'e';
  }

  lemma PieceIsAppended(parse: string -> Parsed, render: string -> string, st: State, piece: string)
    requires Faithful(parse, render)
    ensures Frameable(DATA + render(piece))
    ensures Applied(parse, st, DATA + render(piece)) == st.(acc := st.acc + piece)
  {
    assert '\n' !in DATA;
    OneLine(DATA + render(piece));
    DataLine(render(piece));
    hide Lines, EventType, DataPayload, Frameable;
    assert "message" != "error" && "message" != "end" by {
      assert |"message"| != |"error"| && |"message"| != |"end"|;
    }
  }

  lemma TwoLines(first: string, second: string)
    requires '\n' !in first && '\n' !in second && second != ""
    ensures Lines(first + "\n" + second) == [first, second]
    ensures Frameable(first + "\n" + second)
  {
    var event := first + "\n" + second;
    assert event[|first|] == '\n';
    assert forall i :: 0 <= i < |first| ==> event[i] == first[i] && first[i] in first;
    assert IndexOfNewline(event) == |first|;
    assert event[..|first|] == first && event[|first| + 1..] == second;
    OneLine(second);
    forall i | 0 <= i < |event|
      ensures !BreakAt(event + "\n\n", i)
    {
      assert (event + "\n\n")[i] == event[i];
      assert i == |first| ==> (event + "\n\n")[i + 1] == second[0];
      assert i > |first| ==> event[i] == second[i - |first| - 1];
    }
  }

  lemma NamedEventReads(name: string, payload: string)
    requires '\n' !in name && '\n' !in payload
    ensures Frameable(NamedEvent(name, payload))
    ensures EventType(Lines(NamedEvent(name, payload))) == Trim(name)
    ensures DataPayload(Lines(NamedEvent(name, payload))) == payload
  {
    hide Frameable, Lines, Trim;
    var first, second := EVENT + name, DATA + payload;
    assert '\n' !in EVENT && '\n' !in DATA;
    TwoLines(first, second);
    var lines := [first, second];
    assert lines[..1] == [first];
    assert first[0] == 'e' && second[0] == 'd' && EVENT[0] == 'e' && DATA[0] == 'd';
    assert first[|EVENT|..] == name && second[|DATA|..] == payload;
    assert DataPayload([first]) == "";
  }

  lemma TrimmedNames()
    ensures Trim("end") == "end" && Trim("error") == "error" && "end" != "error"
  {
    assert |"end"| != |"error"|;
  }

  lemma EndIsIgnored(parse: string -> Parsed, st: State)
    ensures Frameable(NamedEvent("end", "{}")) && Applied(parse, st, NamedEvent("end", "{}")) == st
  {
    NamedEventReads("end", "{}");
    TrimmedNames();
    hide Lines, EventType, DataPayload, Frameable, Trim, NamedEvent;
  }

  lemma ErrorIsKept(parse: string -> Parsed, st: State, payload: string, message: string)
    requires '\n' !in payload && payload != "" && parse(payload) == Value("", Some(message))
    ensures Frameable(NamedEvent("error", payload))
    ensures Applied(parse, st, NamedEvent("error", payload)) == st.(streamError := Some(message))
  {
    NamedEventReads("error", payload);
    TrimmedNames();
    hide Lines, EventType, DataPayload, Frameable, Trim, NamedEvent;
  }

  // ----- single events

  /** The lines of a text, put together again with newlines, are the text; none of them holds a newline. */
  ghost function Unlines(lines: seq<string>): string {
    if lines == [] then "" else if |lines| == 1 then lines[0] else lines[0] + "\n" + Unlines(lines[1..])
  }

  lemma {:induction false} LinesAre(s: string)
    ensures Unlines(Lines(s)) == s
    ensures forall i :: 0 <= i < |Lines(s)| ==> '\n' !in Lines(s)[i]
    decreases |s|
  {
    if '\n' in s {
      var i := IndexOfNewline(s);
      var tail := s[i + 1..];
      LinesAre(tail);
      assert Lines(s) == [s[..i]] + Lines(tail) && Lines(s)[1..] == Lines(tail);
      assert s == s[..i] + "\n" + tail;
    }
  }

  /**
   What one event does, by its name and its payload: an error sets the stream error to its message, to a stock text if
   it has none and to the payload itself if that is no object; an end does nothing; any other event adds its chunk.
   */
  lemma NamedEventDoes(parse: string -> Parsed, st: State, name: string, payload: string)
    requires '\n' !in name && '\n' !in payload
    ensures var after := Applied(parse, st, NamedEvent(name, payload));
            if payload == "" || Trim(name) == "end" then after == st
            else if Trim(name) == "error" then
              && after.acc == st.acc
              && (forall chunk, m :: parse(payload) == Value(chunk, Some(m)) ==> after.streamError == Some(m))
              && (forall chunk :: parse(payload) == Value(chunk, None) ==> after.streamError == Some("Stream error"))
              && (!parse(payload).Value? ==> after.streamError == Some(payload))
            else
              && after.streamError == st.streamError
              && (forall chunk, m :: parse(payload) == Value(chunk, m) ==> after.acc == st.acc + chunk)
              && (!parse(payload).Value? ==> after.acc == st.acc)
  {
    NamedEventReads(name, payload);
    TrimmedNames();
    hide Lines, EventType, DataPayload, Frameable, Trim, NamedEvent;
  }

  /** Payloads of several data lines follow one another without separator; of several event lines the last counts. */
  lemma LinesCombine(a: string, b: string)
    requires '\n' !in a && '\n' !in b
    ensures DataPayload(Lines(DATA + a + "\n" + (DATA + b))) == a + b
    ensures EventType(Lines(DATA + a + "\n" + (DATA + b))) == "message"
    ensures EventType(Lines(EVENT + a + "\n" + (EVENT + b))) == Trim(b)
    ensures DataPayload(Lines(EVENT + a + "\n" + (EVENT + b))) == ""
  {
    TwoLines(DATA + a, DATA + b);
    TwoLines(EVENT + a, EVENT + b);
    hide Lines, Trim;
    PairOfLines(DATA + a, DATA + b);
    PairOfLines(EVENT + a, EVENT + b);
    assert (DATA + a)[|DATA|..] == a && (DATA + b)[|DATA|..] == b && (EVENT + b)[|EVENT|..] == b;
    assert EVENT[0] == 'e' && DATA[0] == 'd' && (DATA + a)[0] == 'd' && (DATA + b)[0] == 'd';
    assert (EVENT + a)[0] == 'e' && (EVENT + b)[0] == 'e';
  }

  lemma PairOfLines(first: string, second: string)
    ensures DataPayload([first, second]) ==
            (if DATA <= first then first[|DATA|..] else "") + (if DATA <= second then second[|DATA|..] else "")
    ensures EventType([first, second]) ==
            if EVENT <= second then Trim(second[|EVENT|..])
            else if EVENT <= first then Trim(first[|EVENT|..]) else "message"
  {
    hide Trim;
    assert [first, second][..1] == [first] && [first][..0] == [];
    assert DataPayload([first]) == "" + (if DATA <= first then first[|DATA|..] else "");
    assert EventType([first]) == if EVENT <= first then Trim(first[|EVENT|..]) else "message";
  }

  /** A line that starts with neither field name does nothing. */
  lemma OtherLinesAreIgnored(other: string, b: string)
    requires '\n' !in other && '\n' !in b && !(DATA <= other) && !(EVENT <= other)
    ensures DataPayload(Lines(other + "\n" + (DATA + b))) == b
    ensures EventType(Lines(other + "\n" + (DATA + b))) == "message"
  {
    TwoLines(other, DATA + b);
    hide Lines, Trim;
    PairOfLines(other, DATA + b);
    assert (DATA + b)[|DATA|..] == b && EVENT[0] == 'e' && (DATA + b)[0] == 'd';
  }

  // ----- whole answers

  lemma {:induction false} PiecesAddUp(parse: string -> Parsed, render: string -> string, pieces: seq<string>)
    requires Faithful(parse, render)
    ensures var events := PieceEvents(render, pieces);
            && AppliedAll(parse, START, events) == State(Concat(pieces), None)
            && forall i :: 0 <= i < |events| ==> Frameable(events[i])
  {
    hide Applied, Frameable;
    if pieces != [] {
      var front, last := pieces[..|pieces| - 1], pieces[|pieces| - 1];
      PiecesAddUp(parse, render, front);
      AppliedAppend(parse, START, PieceEvents(render, front), DATA + render(last));
      PieceIsAppended(parse, render, State(Concat(front), None), last);
    }
  }

  /** Pieces followed by one closing event, cut by the network in any way, are read as written. */
  lemma StreamArrives(parse: string -> Parsed, render: string -> string, pieces: seq<string>, closing: string,
                      chunks: seq<string>)
    requires Faithful(parse, render) && Frameable(closing)
    requires Concat(chunks) == Joined(PieceEvents(render, pieces) + [closing])
    ensures var whole := Split(Concat(chunks));
            && AppliedAll(parse, START, whole.events) == Applied(parse, State(Concat(pieces), None), closing)
            && whole.rest == ""
  {
    hide Applied, Frameable, Split, Faithful;
    PiecesAddUp(parse, render, pieces);
    SplitInvertsJoinedIff(PieceEvents(render, pieces) + [closing]);
    AppliedAppend(parse, START, PieceEvents(render, pieces), closing);
  }

  /** A complete answer: the reader ends with exactly the pieces written, no error and an empty buffer. */
  lemma AnswerArrives(parse: string -> Parsed, render: string -> string, pieces: seq<string>, chunks: seq<string>)
    requires Faithful(parse, render)
    requires Concat(chunks) == Joined(PieceEvents(render, pieces) + [NamedEvent("end", "{}")])
    ensures AppliedAll(parse, START, Split(Concat(chunks)).events) == State(Concat(pieces), None)
    ensures Split(Concat(chunks)).rest == ""
  {
    hide *;
    EndIsIgnored(parse, State(Concat(pieces), None));
    StreamArrives(parse, render, pieces, NamedEvent("end", "{}"), chunks);
  }

  /** A failed answer: the pieces written before the failure are kept, and its message is the stream error. */
  lemma FailureArrives(parse: string -> Parsed, render: string -> string, pieces: seq<string>, payload: string,
                       message: string, chunks: seq<string>)
    requires Faithful(parse, render)
    requires '\n' !in payload && payload != "" && parse(payload) == Value("", Some(message))
    requires Concat(chunks) == Joined(PieceEvents(render, pieces) + [NamedEvent("error", payload)])
    ensures AppliedAll(parse, START, Split(Concat(chunks)).events) == State(Concat(pieces), Some(message))
    ensures Split(Concat(chunks)).rest == ""
  {
    hide *;
    ErrorIsKept(parse, State(Concat(pieces), None), payload, message);
    StreamArrives(parse, render, pieces, NamedEvent("error", payload), chunks);
  }
}
