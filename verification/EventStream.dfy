/** The reading side of server-sent events: sections 9.2.5 and 9.2.6 of the WHATWG HTML standard,
    and what it makes of the frames of `SseLineWriter`. */
module EventStream {
  import opened Text
  import opened SseLineWriter

  datatype Event = Event(eventType: string, data: string, lastEventId: string)

  /** The buffers of section 9.2.6 and the events dispatched so far. */
  datatype Parser = Parser(data: string, eventType: string, lastEventId: string, events: seq<Event>)

  const EMPTY := Parser("", "", "", [])

  /** The ended lines of a stream; a line ends with CRLF, LF or CR. */
  function StreamLines(current: string, s: string): seq<string>
    decreases |s|
  {
    if s == "" then []
    else if s[0] == '\n' then [current] + StreamLines("", s[1..])
    else if s[0] == '\r' then [current] + StreamLines("", if |s| > 1 && s[1] == '\n' then s[2..] else s[1..])
    else StreamLines(current + [s[0]], s[1..])
  }

  function Dispatch(p: Parser): Parser {
    if p.data == "" then p.(eventType := "")
    else
      var data := if EndsWithNewline(p.data) then p.data[..|p.data| - 1] else p.data;
      var eventType := if p.eventType == "" then "message" else p.eventType;
      p.(data := "", eventType := "", events := p.events + [Event(eventType, data, p.lastEventId)])
  }

  function Field(p: Parser, name: string, value: string): Parser {
    if name == "event" then p.(eventType := value)
    else if name == "data" then p.(data := p.data + value + "\n")
    else if name == "id" && '\0' !in value then p.(lastEventId := value)
    else p
  }

  function Line(p: Parser, line: string): Parser {
    if line == "" then Dispatch(p)
    else if line[0] == ':' then p
    else
      var k := Index(line, ":");
      if k == -1 then Field(p, line, "")
      else
        var value := line[k + 1..];
        Field(p, line[..k], if HasPrefix(value, " ") then value[1..] else value)
  }

  function Interpret(p: Parser, lines: seq<string>): Parser
    decreases |lines|
  {
    if lines == [] then p else Interpret(Line(p, lines[0]), lines[1..])
  }

  /** What an event source makes of a complete response body. */
  function EventsOf(body: string): seq<Event> {
    Interpret(EMPTY, StreamLines("", body)).events
  }

  predicate OneLine(s: string) {
    '\n' !in s && '\r' !in s
  }

  lemma {:induction false} LineEnds(current: string, l: string, s: string)
    requires OneLine(l)
    ensures StreamLines(current, l + "\n" + s) == [current + l] + StreamLines("", s)
    decreases |l|
  {
    if l == "" {
      assert l + "\n" + s == "\n" + s && current + l == current;
    } else {
      assert (l + "\n" + s)[0] == l[0] && (l + "\n" + s)[1..] == l[1..] + "\n" + s;
      LineEnds(current + [l[0]], l[1..], s);
      assert current + [l[0]] + l[1..] == current + l;
    }
  }

  lemma FieldLine(p: Parser, name: string, value: string)
    requires name == "event" || name == "data"
    ensures Line(p, name + ": " + value) == Field(p, name, value)
  {
    var line := name + ": " + value;
    assert OccursAt(line, ":", |name|);
    forall i | 0 <= i < |name|
      ensures !OccursAt(line, ":", i)
    {
      assert line[i..i + 1] == [name[i]];
    }
    assert Index(line, ":") == |name|;
    assert line[|name| + 1..] == " " + value && line[..|name|] == name;
  }

  function Sent(stream: string, lines: seq<string>): seq<Event> {
    if lines == [] then [] else [Event(stream, lines[0], "")] + Sent(stream, lines[1..])
  }

  lemma FrameLines(stream: string, line: string, rest: string)
    requires OneLine(stream) && OneLine(line)
    ensures StreamLines("", Frame(stream, line) + rest)
         == ["event: " + stream] + (["data: " + line] + ([""] + StreamLines("", rest)))
  {
    var e, d := "event: " + stream, "data: " + line;
    assert Frame(stream, line) + rest == e + "\n" + (d + "\n" + ("" + "\n" + rest));
    LineEnds("", e, d + "\n" + ("" + "\n" + rest));
    LineEnds("", d, "" + "\n" + rest);
    LineEnds("", "", rest);
    assert "" + e == e && "" + d == d;
  }

  lemma InterpretCons(p: Parser, l: string, ls: seq<string>)
    ensures Interpret(p, [l] + ls) == Interpret(Line(p, l), ls)
  {
    assert ([l] + ls)[1..] == ls;
  }

  lemma FrameInterpreted(stream: string, line: string, ls: seq<string>, events: seq<Event>)
    requires stream != ""
    ensures Interpret(Parser("", "", "", events), ["event: " + stream] + (["data: " + line] + ([""] + ls)))
         == Interpret(Parser("", "", "", events + [Event(stream, line, "")]), ls)
  {
    assert "event" + ": " == "event: " && "data" + ": " == "data: ";
    var p0 := Parser("", "", "", events);
    InterpretCons(p0, "event: " + stream, ["data: " + line] + ([""] + ls));
    FieldLine(p0, "event", stream);
    var p1 := p0.(eventType := stream);
    InterpretCons(p1, "data: " + line, [""] + ls);
    FieldLine(p1, "data", line);
    assert "" + line == line;
    var p2 := p1.(data := line + "\n");
    InterpretCons(p2, "", ls);
    assert p2.data[..|p2.data| - 1] == line;
  }

  /** Reading one frame: its event, with exactly the line that was written. */
  lemma FrameRead(stream: string, line: string, rest: string, events: seq<Event>)
    requires stream != "" && OneLine(stream) && OneLine(line)
    ensures Interpret(Parser("", "", "", events), StreamLines("", Frame(stream, line) + rest))
         == Interpret(Parser("", "", "", events + [Event(stream, line, "")]), StreamLines("", rest))
  {
    FrameLines(stream, line, rest);
    FrameInterpreted(stream, line, StreamLines("", rest), events);
  }

  lemma {:induction false} FramesRead(stream: string, lines: seq<string>, events: seq<Event>)
    requires stream != "" && OneLine(stream) && forall l | l in lines :: OneLine(l)
    ensures Interpret(Parser("", "", "", events), StreamLines("", Frames(stream, lines))).events == events + Sent(stream, lines)
    decreases |lines|
  {
    if lines != [] {
      FrameRead(stream, lines[0], Frames(stream, lines[1..]), events);
      FramesRead(stream, lines[1..], events + [Event(stream, lines[0], "")]);
    }
  }

  /* ---- a carriage return never gets through ---- */

  lemma {:induction false} StreamLinesBare(current: string, s: string)
    requires '\r' !in current
    ensures forall l | l in StreamLines(current, s) :: '\r' !in l
    decreases |s|
  {
    if s != "" {
      if s[0] == '\n' {
        StreamLinesBare("", s[1..]);
      } else if s[0] == '\r' {
        StreamLinesBare("", if |s| > 1 && s[1] == '\n' then s[2..] else s[1..]);
      } else {
        StreamLinesBare(current + [s[0]], s[1..]);
      }
    }
  }

  lemma LineBare(p: Parser, line: string)
    requires '\r' !in p.data && '\r' !in line && forall e | e in p.events :: '\r' !in e.data
    ensures '\r' !in Line(p, line).data && forall e | e in Line(p, line).events :: '\r' !in e.data
  {
    if line == "" {
      DispatchBare(p);
    } else if line[0] != ':' && Index(line, ":") != -1 {
      var value := line[Index(line, ":") + 1..];
      FieldBare(p, line[..Index(line, ":")], if HasPrefix(value, " ") then value[1..] else value);
    }
  }

  lemma DispatchBare(p: Parser)
    requires '\r' !in p.data && forall e | e in p.events :: '\r' !in e.data
    ensures '\r' !in Dispatch(p).data && forall e | e in Dispatch(p).events :: '\r' !in e.data
  {
  }

  lemma FieldBare(p: Parser, name: string, value: string)
    requires '\r' !in p.data && '\r' !in value
    ensures '\r' !in Field(p, name, value).data
  {
  }

  lemma {:induction false} InterpretBare(p: Parser, lines: seq<string>)
    requires '\r' !in p.data && forall e | e in p.events :: '\r' !in e.data
    requires forall l | l in lines :: '\r' !in l
    ensures forall e | e in Interpret(p, lines).events :: '\r' !in e.data
    decreases |lines|
  {
    if lines != [] {
      LineBare(p, lines[0]);
      InterpretBare(Line(p, lines[0]), lines[1..]);
    }
  }

  lemma {:induction false} SentHas(stream: string, lines: seq<string>, l: string)
    requires l in lines
    ensures exists e :: e in Sent(stream, lines) && e.data == l
    decreases |lines|
  {
    if lines[0] == l {
      assert Event(stream, l, "") in Sent(stream, lines);
    } else {
      SentHas(stream, lines[1..], l);
      var e :| e in Sent(stream, lines[1..]) && e.data == l;
      assert e in Sent(stream, lines);
    }
  }

  /** The reader gets back exactly the lines that were written if and only if none of them has a
      carriage return. */
  lemma LinesArriveExactly(stream: string, input: string)
    requires stream != "" && OneLine(stream)
    ensures EventsOf(Frames(stream, CompleteLines(input))) == Sent(stream, CompleteLines(input))
      <==> forall l | l in CompleteLines(input) :: '\r' !in l
  {
    var lines := CompleteLines(input);
    var body := Frames(stream, lines);
    if forall l | l in lines :: '\r' !in l {
      FramesRead(stream, lines, []);
    } else {
      var l :| l in lines && '\r' in l;
      StreamLinesBare("", body);
      InterpretBare(EMPTY, StreamLines("", body));
      SentHas(stream, lines, l);
    }
  }
}
