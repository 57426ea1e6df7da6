/** A writer that cuts whatever it is given into lines and sends each as a server-sent event. */
module SseLineWriter {
  import opened Text

  /** The lines of `s` that a line feed ends. */
  function CompleteLines(s: string): seq<string> {
    SplitLines(s)[..|SplitLines(s)| - 1]
  }

  /** What follows the last line feed. */
  function Remainder(s: string): string {
    SplitLines(s)[|SplitLines(s)| - 1]
  }

  function Frame(stream: string, line: string): string {
    "event: " + stream + "\n" + "data: " + line + "\n\n"
  }

  function Frames(stream: string, lines: seq<string>): string {
    if lines == [] then "" else Frame(stream, lines[0]) + Frames(stream, lines[1..])
  }

  lemma {:induction false} FramesAppend(stream: string, a: seq<string>, b: seq<string>)
    ensures Frames(stream, a + b) == Frames(stream, a) + Frames(stream, b)
    decreases |a|
  {
    if a == [] {
      assert a + b == b;
    } else {
      FramesAppend(stream, a[1..], b);
      assert (a + b)[1..] == a[1..] + b;
      Assoc(Frame(stream, a[0]), Frames(stream, a[1..]), Frames(stream, b));
    }
  }

  lemma CutCons(l: string, t: string)
    requires '\n' !in l
    ensures CompleteLines(l + "\n" + t) == [l] + CompleteLines(t)
    ensures Remainder(l + "\n" + t) == Remainder(t)
  {
    SplitCons(l, t);
  }

  lemma CutLine(s: string, i: nat)
    requires i < |s| && s[i] == '\n' && '\n' !in s[..i]
    ensures s == s[..i] + "\n" + s[i + 1..]
    ensures CompleteLines(s) == [s[..i]] + CompleteLines(s[i + 1..])
    ensures Remainder(s) == Remainder(s[i + 1..])
  {
    assert s == s[..i] + "\n" + s[i + 1..];
    CutCons(s[..i], s[i + 1..]);
  }

  lemma CutNothing(s: string)
    requires '\n' !in s
    ensures CompleteLines(s) == [] && Remainder(s) == s
  {
    SplitOfLine(s);
  }

  lemma {:induction false} CutAppend(a: string, b: string)
    ensures CompleteLines(a + b) == CompleteLines(a) + CompleteLines(Remainder(a) + b)
    ensures Remainder(a + b) == Remainder(Remainder(a) + b)
    decreases |a|
  {
    var i := Index(a, "\n");
    IndexOfChar(a, '\n');
    if i == -1 {
      CutNothing(a);
    } else {
      var l, t := a[..i], a[i + 1..];
      CutLine(a, i);
      Assoc(l + "\n", t, b);
      CutCons(l, t + b);
      CutAppend(t, b);
      Assoc([l], CompleteLines(t), CompleteLines(Remainder(a) + b));
    }
  }

  lemma SentOne(body: string, stream: string, sent: seq<string>, line: string)
    ensures (body + Frames(stream, sent)) + Frame(stream, line) == body + Frames(stream, sent + [line])
  {
    FramesAppend(stream, sent, [line]);
    assert Frames(stream, [line]) == Frame(stream, line);
    Assoc(body, Frames(stream, sent), Frame(stream, line));
  }

  /** A response that writers send on. */
  class Response {
    var body: string

    constructor ()
      ensures body == ""
    {
      body := "";
    }
  }

  class SSELineWriter {
    const w: Response
    const stream: string
    var buf: string
    ghost var input: string   // everything ever given to Write
    ghost var sent: string    // everything this writer sent

    /** What was sent and what is held back depend only on the concatenated input. */
    ghost predicate Valid()
      reads this
    {
      buf == Remainder(input) && sent == Frames(stream, CompleteLines(input))
    }

    constructor (w: Response, stream: string)
      ensures Valid() && this.w == w && this.stream == stream && buf == input == ""
    {
      this.w, this.stream := w, stream;
      buf, input, sent := "", "", "";
    }

    /** The inner loop: the first line feed in the buffer. */
    method FindLineEnd() returns (i: int)
      ensures i == -1 ==> '\n' !in buf
      ensures i != -1 ==> 0 <= i < |buf| && buf[i] == '\n' && '\n' !in buf[..i]
    {
      i := -1;
      for j := 0 to |buf|
        invariant i == -1 && '\n' !in buf[..j]
      {
        if buf[j] == '\n' {
          i := j;
          break;
        }
      }
      if i == -1 { assert buf[..|buf|] == buf; }
    }

    method SendLine(line: string)
      modifies w
      ensures w.body == old(w.body) + Frame(stream, line)
    {
      w.body := w.body + ("event: " + stream + "\n");
      w.body := w.body + ("data: " + line + "\n\n");
      assert ("event: " + stream + "\n") + ("data: " + line + "\n\n") == Frame(stream, line);
    }

    /** The loop: send every complete line, keep what follows the last one. */
    method SendCompleteLines()
      modifies this`buf, w
      ensures w.body == old(w.body) + Frames(stream, CompleteLines(old(buf))) && buf == Remainder(old(buf))
    {
      ghost var pending, body, lines := buf, w.body, [];
      while true
        invariant CompleteLines(pending) == lines + CompleteLines(buf)
        invariant Remainder(pending) == Remainder(buf)
        invariant w.body == body + Frames(stream, lines)
        decreases |buf|
      {
        var i := FindLineEnd();
        if i == -1 {
          CutNothing(buf);
          assert CompleteLines(pending) == lines;
          break;
        }
        var line := buf[..i];
        CutLine(buf, i);
        SentOne(body, stream, lines, line);
        Assoc(lines, [line], CompleteLines(buf[i + 1..]));
        lines := lines + [line];
        buf := buf[i + 1..];
        SendLine(line);
      }
    }

    method Write(p: string) returns (n: nat)
      requires Valid()
      modifies this, w
      ensures Valid() && input == old(input) + p
      ensures w.body == old(w.body) + Frames(stream, CompleteLines(old(buf) + p))
      ensures sent == old(sent) + Frames(stream, CompleteLines(old(buf) + p))
      ensures n == |p|
    {
      CutAppend(input, p);
      ghost var lines := CompleteLines(buf + p);
      FramesAppend(stream, CompleteLines(input), lines);
      buf := buf + p;
      SendCompleteLines();
      input := input + p;
      sent := sent + Frames(stream, lines);
      n := |p|;
    }
  }

  function Concat(chunks: seq<string>): string {
    if chunks == [] then "" else chunks[0] + Concat(chunks[1..])
  }

  /** What a run of writes sends, write by write, when `buf` is held back at its start. */
  function Emitted(stream: string, buf: string, chunks: seq<string>): string
    decreases |chunks|
  {
    if chunks == [] then ""
    else
      var pending := buf + chunks[0];
      Frames(stream, CompleteLines(pending)) + Emitted(stream, Remainder(pending), chunks[1..])
  }

  /** However the output of a process is cut into writes, the same bytes are sent. */
  lemma {:induction false} ChunkingIrrelevant(stream: string, buf: string, chunks: seq<string>)
    requires '\n' !in buf
    ensures Emitted(stream, buf, chunks) == Frames(stream, CompleteLines(buf + Concat(chunks)))
    decreases |chunks|
  {
    if chunks == [] {
      assert buf + "" == buf;
      CutNothing(buf);
    } else {
      var pending := buf + chunks[0];
      ChunkingIrrelevant(stream, Remainder(pending), chunks[1..]);
      Assoc(buf, chunks[0], Concat(chunks[1..]));
      CutAppend(pending, Concat(chunks[1..]));
      FramesAppend(stream, CompleteLines(pending), CompleteLines(Remainder(pending) + Concat(chunks[1..])));
    }
  }

  method CopyOutput(writer: SSELineWriter, chunks: seq<string>)
    requires writer.Valid()
    modifies writer, writer.w
    ensures writer.Valid() && writer.input == old(writer.input) + Concat(chunks)
    ensures writer.w.body == old(writer.w.body) + Emitted(writer.stream, old(writer.buf), chunks)
  {
    ghost var before, all := writer.w.body, Emitted(writer.stream, writer.buf, chunks);
    assert chunks[0..] == chunks;
    for k := 0 to |chunks|
      invariant writer.Valid()
      invariant writer.input + Concat(chunks[k..]) == old(writer.input) + Concat(chunks)
      invariant writer.w.body + Emitted(writer.stream, writer.buf, chunks[k..]) == before + all
    {
      assert chunks[k..][1..] == chunks[k + 1..];
      ghost var input, body, buf := writer.input, writer.w.body, writer.buf;
      CutAppend(input, chunks[k]);
      var n := writer.Write(chunks[k]);
      Assoc(input, chunks[k], Concat(chunks[k + 1..]));
      Assoc(body, Frames(writer.stream, CompleteLines(buf + chunks[k])), Emitted(writer.stream, writer.buf, chunks[k + 1..]));
    }
  }
}
