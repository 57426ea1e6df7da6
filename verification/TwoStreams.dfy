/** The output and the error stream of a container, sent by two writers on one response. */
module TwoStreams {
  import opened Text
  import opened SseLineWriter
  import opened EventStream

  /** One write, to the error stream or to the output stream. */
  datatype Chunk = Chunk(toErr: bool, text: string)

  /** Everything written to one of the streams. */
  function Input(chunks: seq<Chunk>, toErr: bool): string {
    if chunks == [] then "" else (if chunks[0].toErr == toErr then chunks[0].text else "") + Input(chunks[1..], toErr)
  }

  /** A line sent on behalf of one of the streams. */
  datatype Sending = Sending(toErr: bool, line: string)

  function Labelled(toErr: bool, lines: seq<string>): seq<Sending> {
    if lines == [] then [] else [Sending(toErr, lines[0])] + Labelled(toErr, lines[1..])
  }

  /** What the two writers hold back. */
  datatype Held = Held(out: string, err: string)
  {
    function Of(toErr: bool): string { if toErr then err else out }

    function With(toErr: bool, text: string): Held { if toErr then Held(out, text) else Held(text, err) }
  }

  /** What the writes send, in their order. */
  function Sendings(held: Held, chunks: seq<Chunk>): seq<Sending>
    decreases |chunks|
  {
    if chunks == [] then []
    else
      var toErr := chunks[0].toErr;
      var pending := held.Of(toErr) + chunks[0].text;
      Labelled(toErr, CompleteLines(pending)) + Sendings(held.With(toErr, Remainder(pending)), chunks[1..])
  }

  /** The names of the two streams. */
  datatype Names = Names(out: string, err: string)
  {
    function Of(toErr: bool): string { if toErr then err else out }

    predicate Proper() {
      out != err && out != "" && err != "" && OneLine(out) && OneLine(err)
    }
  }

  function Framed(names: Names, sends: seq<Sending>): string {
    if sends == [] then "" else Frame(names.Of(sends[0].toErr), sends[0].line) + Framed(names, sends[1..])
  }

  lemma {:induction false} FramedAppend(names: Names, a: seq<Sending>, b: seq<Sending>)
    ensures Framed(names, a + b) == Framed(names, a) + Framed(names, b)
    decreases |a|
  {
    if a == [] {
      assert a + b == b;
    } else {
      FramedAppend(names, a[1..], b);
      assert (a + b)[1..] == a[1..] + b;
      Assoc(Frame(names.Of(a[0].toErr), a[0].line), Framed(names, a[1..]), Framed(names, b));
    }
  }

  lemma {:induction false} FramedLabelled(names: Names, toErr: bool, lines: seq<string>)
    ensures Framed(names, Labelled(toErr, lines)) == Frames(names.Of(toErr), lines)
    decreases |lines|
  {
    if lines != [] {
      FramedLabelled(names, toErr, lines[1..]);
      assert Labelled(toErr, lines)[1..] == Labelled(toErr, lines[1..]);
    }
  }

  /** Writes to the two writers, in the order in which the log is demultiplexed. */
  method CopyBoth(out: SSELineWriter, err: SSELineWriter, chunks: seq<Chunk>)
    requires out.Valid() && err.Valid() && out != err && out.w == err.w
    modifies out, err, out.w
    ensures out.Valid() && err.Valid()
    ensures out.w.body ==
              old(out.w.body) + Framed(Names(out.stream, err.stream), Sendings(Held(old(out.buf), old(err.buf)), chunks))
  {
    ghost var names := Names(out.stream, err.stream);
    ghost var before, all := out.w.body, Framed(names, Sendings(Held(out.buf, err.buf), chunks));
    assert chunks[0..] == chunks;
    for k := 0 to |chunks|
      invariant out.Valid() && err.Valid()
      invariant out.w.body + Framed(names, Sendings(Held(out.buf, err.buf), chunks[k..])) == before + all
    {
      assert chunks[k..][1..] == chunks[k + 1..];
      ghost var body, held, toErr := out.w.body, Held(out.buf, err.buf), chunks[k].toErr;
      ghost var lines := CompleteLines(held.Of(toErr) + chunks[k].text);
      CutAppend(out.input, chunks[k].text);
      CutAppend(err.input, chunks[k].text);
      if chunks[k].toErr {
        var n := err.Write(chunks[k].text);
      } else {
        var n := out.Write(chunks[k].text);
      }
      ghost var rest := Sendings(Held(out.buf, err.buf), chunks[k + 1..]);
      FramedAppend(names, Labelled(toErr, lines), rest);
      FramedLabelled(names, toErr, lines);
      Assoc(body, Frames(names.Of(toErr), lines), Framed(names, rest));
    }
  }

  /* ---- each stream by itself ---- */

  function LinesFor(sends: seq<Sending>, toErr: bool): seq<string> {
    if sends == [] then [] else (if sends[0].toErr == toErr then [sends[0].line] else []) + LinesFor(sends[1..], toErr)
  }

  lemma {:induction false} LinesForAppend(a: seq<Sending>, b: seq<Sending>, toErr: bool)
    ensures LinesFor(a + b, toErr) == LinesFor(a, toErr) + LinesFor(b, toErr)
    decreases |a|
  {
    if a == [] {
      assert a + b == b;
    } else {
      LinesForAppend(a[1..], b, toErr);
      assert (a + b)[1..] == a[1..] + b;
      Assoc(if a[0].toErr == toErr then [a[0].line] else [], LinesFor(a[1..], toErr), LinesFor(b, toErr));
    }
  }

  lemma {:induction false} LinesForLabelled(stream: bool, lines: seq<string>, toErr: bool)
    ensures LinesFor(Labelled(stream, lines), toErr) == if stream == toErr then lines else []
    decreases |lines|
  {
    if lines != [] {
      LinesForLabelled(stream, lines[1..], toErr);
      assert Labelled(stream, lines)[1..] == Labelled(stream, lines[1..]);
    }
  }

  lemma LabelledFirst(stream: bool, lines: seq<string>, rest: seq<Sending>, toErr: bool)
    ensures LinesFor(Labelled(stream, lines) + rest, toErr) ==
              if stream == toErr then lines + LinesFor(rest, toErr) else LinesFor(rest, toErr)
  {
    LinesForAppend(Labelled(stream, lines), rest, toErr);
    LinesForLabelled(stream, lines, toErr);
  }

  lemma NextLines(held: string, text: string, later: string)
    ensures CompleteLines(held + text) + CompleteLines(Remainder(held + text) + later) == CompleteLines(held + (text + later))
  {
    Assoc(held, text, later);
    CutAppend(held + text, later);
  }

  /** One write: `later` is what the stream is given afterwards, `rest` what is sent then. */
  lemma WriteKeepsStreams(held: Held, c: Chunk, toErr: bool, later: string, rest: seq<Sending>)
    requires var pending := held.Of(c.toErr) + c.text;
             LinesFor(rest, toErr) == CompleteLines(held.With(c.toErr, Remainder(pending)).Of(toErr) + later)
    ensures LinesFor(Labelled(c.toErr, CompleteLines(held.Of(c.toErr) + c.text)) + rest, toErr)
         == CompleteLines(held.Of(toErr) + ((if c.toErr == toErr then c.text else "") + later))
  {
    LabelledFirst(c.toErr, CompleteLines(held.Of(c.toErr) + c.text), rest, toErr);
    if c.toErr == toErr {
      NextLines(held.Of(toErr), c.text, later);
    } else {
      assert "" + later == later;
    }
  }

  /** However the writes to the two streams alternate, the lines sent for each are the complete lines
      of what was written to it. */
  lemma {:induction false} StreamsDoNotMix(held: Held, chunks: seq<Chunk>, toErr: bool)
    requires '\n' !in held.out && '\n' !in held.err
    ensures LinesFor(Sendings(held, chunks), toErr) == CompleteLines(held.Of(toErr) + Input(chunks, toErr))
    decreases |chunks|
  {
    if chunks == [] {
      assert held.Of(toErr) + "" == held.Of(toErr);
      CutNothing(held.Of(toErr));
    } else {
      var c := chunks[0];
      var held' := held.With(c.toErr, Remainder(held.Of(c.toErr) + c.text));
      StreamsDoNotMix(held', chunks[1..], toErr);
      WriteKeepsStreams(held, c, toErr, Input(chunks[1..], toErr), Sendings(held', chunks[1..]));
    }
  }

  /* ---- what an event source makes of it ---- */

  function EventsFor(names: Names, sends: seq<Sending>): seq<Event> {
    if sends == [] then []
    else [Event(names.Of(sends[0].toErr), sends[0].line, "")] + EventsFor(names, sends[1..])
  }

  lemma {:induction false} FramedRead(names: Names, sends: seq<Sending>, events: seq<Event>)
    requires names.Proper() && forall s | s in sends :: OneLine(s.line)
    ensures Interpret(Parser("", "", "", events), StreamLines("", Framed(names, sends))).events
         == events + EventsFor(names, sends)
    decreases |sends|
  {
    if sends != [] {
      var e := Event(names.Of(sends[0].toErr), sends[0].line, "");
      FrameRead(e.eventType, sends[0].line, Framed(names, sends[1..]), events);
      FramedRead(names, sends[1..], events + [e]);
      Assoc(events, [e], EventsFor(names, sends[1..]));
    }
  }

  function OfType(events: seq<Event>, eventType: string): seq<Event> {
    if events == [] then []
    else (if events[0].eventType == eventType then [events[0]] else []) + OfType(events[1..], eventType)
  }

  lemma SentCons(stream: string, line: string, lines: seq<string>)
    ensures Sent(stream, [line] + lines) == [Event(stream, line, "")] + Sent(stream, lines)
  {
    assert ([line] + lines)[1..] == lines;
  }

  lemma OfTypeCons(e: Event, events: seq<Event>, eventType: string)
    ensures OfType([e] + events, eventType) == (if e.eventType == eventType then [e] else []) + OfType(events, eventType)
  {
    assert ([e] + events)[1..] == events;
  }

  lemma {:induction false} OfTypeEvents(names: Names, sends: seq<Sending>, toErr: bool)
    requires names.Proper()
    ensures OfType(EventsFor(names, sends), names.Of(toErr)) == Sent(names.Of(toErr), LinesFor(sends, toErr))
    decreases |sends|
  {
    if sends != [] {
      var s := sends[0];
      OfTypeEvents(names, sends[1..], toErr);
      OfTypeCons(Event(names.Of(s.toErr), s.line, ""), EventsFor(names, sends[1..]), names.Of(toErr));
      if s.toErr == toErr {
        SentCons(names.Of(toErr), s.line, LinesFor(sends[1..], toErr));
      } else {
        assert names.Of(s.toErr) != names.Of(toErr);
        assert LinesFor(sends, toErr) == LinesFor(sends[1..], toErr);
      }
    }
  }

  lemma {:induction false} OfTypeSubset(events: seq<Event>, eventType: string)
    ensures forall e | e in OfType(events, eventType) :: e in events
    decreases |events|
  {
    if events != [] { OfTypeSubset(events[1..], eventType); }
  }

  lemma {:induction false} SendingLine(sends: seq<Sending>, s: Sending)
    requires s in sends
    ensures s.line in LinesFor(sends, s.toErr)
    decreases |sends|
  {
    if sends[0] != s { SendingLine(sends[1..], s); }
  }

  lemma StreamLinesSent(chunks: seq<Chunk>, toErr: bool)
    ensures LinesFor(Sendings(Held("", ""), chunks), toErr) == CompleteLines(Input(chunks, toErr))
  {
    StreamsDoNotMix(Held("", ""), chunks, toErr);
    assert "" + Input(chunks, toErr) == Input(chunks, toErr);
  }

  /** The events of both types are those of the complete lines written to the two streams. */
  predicate BothArrive(names: Names, events: seq<Event>, chunks: seq<Chunk>) {
    && OfType(events, names.out) == Sent(names.out, CompleteLines(Input(chunks, false)))
    && OfType(events, names.err) == Sent(names.err, CompleteLines(Input(chunks, true)))
  }

  lemma SendingsAreLines(chunks: seq<Chunk>)
    requires forall toErr: bool, l | l in CompleteLines(Input(chunks, toErr)) :: '\r' !in l
    ensures forall s | s in Sendings(Held("", ""), chunks) :: OneLine(s.line)
  {
    var sends := Sendings(Held("", ""), chunks);
    forall s | s in sends
      ensures OneLine(s.line)
    {
      SendingLine(sends, s);
      StreamLinesSent(chunks, s.toErr);
    }
  }

  lemma ArriveWithoutReturns(names: Names, chunks: seq<Chunk>)
    requires names.Proper()
    requires forall toErr: bool, l | l in CompleteLines(Input(chunks, toErr)) :: '\r' !in l
    ensures BothArrive(names, EventsOf(Framed(names, Sendings(Held("", ""), chunks))), chunks)
  {
    var sends := Sendings(Held("", ""), chunks);
    SendingsAreLines(chunks);
    FramedRead(names, sends, []);
    var events := EventsOf(Framed(names, sends));
    assert events == EventsFor(names, sends);
    forall toErr: bool
      ensures OfType(events, names.Of(toErr)) == Sent(names.Of(toErr), CompleteLines(Input(chunks, toErr)))
    {
      StreamLinesSent(chunks, toErr);
      OfTypeEvents(names, sends, toErr);
    }
  }

  lemma ReturnsDoNotArrive(names: Names, chunks: seq<Chunk>, body: string, toErr: bool, l: string)
    requires l in CompleteLines(Input(chunks, toErr)) && '\r' in l
    ensures !BothArrive(names, EventsOf(body), chunks)
  {
    StreamLinesBare("", body);
    InterpretBare(EMPTY, StreamLines("", body));
    SentHas(names.Of(toErr), CompleteLines(Input(chunks, toErr)), l);
    OfTypeSubset(EventsOf(body), names.Of(toErr));
  }

  /** However writes to the two streams alternate, the reader gets for each type exactly that
      stream's complete lines, in order, if and only if none of them has a carriage return. */
  lemma BothStreamsArriveExactly(names: Names, chunks: seq<Chunk>)
    requires names.Proper()
    ensures BothArrive(names, EventsOf(Framed(names, Sendings(Held("", ""), chunks))), chunks)
      <==> forall toErr: bool, l | l in CompleteLines(Input(chunks, toErr)) :: '\r' !in l
  {
    if forall toErr: bool, l | l in CompleteLines(Input(chunks, toErr)) :: '\r' !in l {
      ArriveWithoutReturns(names, chunks);
    } else {
      var toErr: bool, l :| l in CompleteLines(Input(chunks, toErr)) && '\r' in l;
      ReturnsDoNotArrive(names, chunks, Framed(names, Sendings(Held("", ""), chunks)), toErr, l);
    }
  }
}
