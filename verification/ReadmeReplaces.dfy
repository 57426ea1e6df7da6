/** Updates of sections on the list of a document's pieces: when they commute and absorb each other. */
module ReadmeReplaces {
  import opened Text
  import opened ReadmeGenerator
  import opened ReadmeTokens
  import opened ReadmePasses

  function Applied(ts: seq<Token>, ms: seq<Section>, texts: Section -> string): (r: seq<Token>)
    requires ts != []
    ensures r != []
    decreases |ms|
  {
    if ms == [] then ts else Applied(Replace(ts, ms[0], texts(ms[0])), ms[1..], texts)
  }

  lemma {:induction false} AppliedMarkers(ts: seq<Token>, ms: seq<Section>, texts: Section -> string)
    requires ts != []
    ensures Markers(Applied(ts, ms, texts)) == Pass(Markers(ts), ms)
    decreases |ms|
  {
    if ms != [] {
      ReplaceMarkers(ts, ms[0], texts(ms[0]));
      AppliedMarkers(Replace(ts, ms[0], texts(ms[0])), ms[1..], texts);
    }
  }

  /* ---- replacements commute ---- */

  lemma CutsCommute(ts: seq<Token>, a: nat, b: nat, c: nat, d: nat, k: nat, l: nat, x: Token, y: Token)
    requires a < b < c < d < |ts| && k == c - (b - a - 1) && l == d - (b - a - 1)
    ensures Cut(Cut(ts, a, b, x), k, l, y) == Cut(Cut(ts, c, d, y), a, b, x)
  {
    FirstCutThenSecond(ts, a, b, c, d, k, l, x, y);
    SecondCutThenFirst(ts, a, b, c, d, x, y);
  }

  lemma FirstCutThenSecond(ts: seq<Token>, a: nat, b: nat, c: nat, d: nat, k: nat, l: nat, x: Token, y: Token)
    requires a < b < c < d < |ts| && k == c - (b - a - 1) && l == d - (b - a - 1)
    ensures Cut(Cut(ts, a, b, x), k, l, y) == ts[..a] + [x] + ts[b..c] + [y] + ts[d..]
  {
    var r := Cut(ts, a, b, x);
    CutShape(ts, a, b, x);
    CutShape(r, k, l, y);
    assert r[..k] == ts[..a] + [x] + ts[b..c];
    assert r[l..] == ts[d..];
  }

  lemma SecondCutThenFirst(ts: seq<Token>, a: nat, b: nat, c: nat, d: nat, x: Token, y: Token)
    requires a < b < c < d < |ts|
    ensures Cut(Cut(ts, c, d, y), a, b, x) == ts[..a] + [x] + ts[b..c] + [y] + ts[d..]
  {
    var r := Cut(ts, c, d, y);
    CutShape(ts, c, d, y);
    CutShape(r, a, b, x);
    assert r[..a] == ts[..a];
    assert r[b..] == ts[b..c] + [y] + ts[d..];
  }

  lemma ReplaceCuts(ts: seq<Token>, m: Section, text: string, s: nat, e: nat)
    requires s == First(Markers(ts), m.startMarker) && e == First(Markers(ts), m.endMarker)
    requires s < e < |ts|
    ensures Replace(ts, m, text) == Cut(ts, s, e, Token(m.startMarker, "\n" + text))
  {
  }

  lemma FirstsAfter(ts: seq<Token>, m: Section, text: string, o: Section)
    requires ts != [] && m.startMarker != m.endMarker && Differ(m, o) && Clear(Markers(ts), m, o)
    ensures var ps, qs := Markers(ts), Markers(Replace(ts, m, text));
      && First(qs, o.startMarker) == Moved(ps, m, First(ps, o.startMarker))
      && First(qs, o.endMarker) == Moved(ps, m, First(ps, o.endMarker))
  {
    ReplaceMarkers(ts, m, text);
    FirstMoves(Markers(ts), m, o.startMarker);
    FirstMoves(Markers(ts), m, o.endMarker);
  }

  predicate Spans(ts: seq<Token>, m: Section, s: nat, e: nat) {
    First(Markers(ts), m.startMarker) == s < e == First(Markers(ts), m.endMarker) < |ts|
  }

  lemma ReplacesCut(ts: seq<Token>, m: Section, text: string, o: Section, other: string, s: nat, e: nat, k: nat, l: nat)
    requires Spans(ts, m, s, e) && Spans(Replace(ts, m, text), o, k, l)
    ensures l < |ts| - (e - s - 1)
    ensures Replace(Replace(ts, m, text), o, other)
         == Cut(Cut(ts, s, e, Token(m.startMarker, "\n" + text)), k, l, Token(o.startMarker, "\n" + other))
  {
    ReplaceCuts(ts, m, text, s, e);
    ReplaceCuts(Replace(ts, m, text), o, other, k, l);
  }

  lemma LaterSpans(ts: seq<Token>, m: Section, text: string, o: Section, a: nat, b: nat, c: nat, d: nat, k: nat, l: nat)
    requires m.startMarker != m.endMarker && Differ(m, o) && Spans(ts, m, a, b) && Spans(ts, o, c, d) && b < c
    requires k == c - (b - a - 1) && l == d - (b - a - 1)
    ensures Spans(Replace(ts, m, text), o, k, l)
  {
    FirstsAfter(ts, m, text, o);
    ReplaceMarkers(ts, m, text);
  }

  lemma EarlierSpans(ts: seq<Token>, m: Section, o: Section, other: string, a: nat, b: nat, c: nat, d: nat)
    requires o.startMarker != o.endMarker && Differ(m, o) && Spans(ts, m, a, b) && Spans(ts, o, c, d) && b < c
    ensures Spans(Replace(ts, o, other), m, a, b)
  {
    FirstsAfter(ts, o, other, m);
    ReplaceMarkers(ts, o, other);
  }

  lemma CommuteInOrder(ts: seq<Token>, m: Section, text: string, o: Section, other: string, a: nat, b: nat, c: nat, d: nat)
    requires m.startMarker != m.endMarker && o.startMarker != o.endMarker && Differ(m, o)
    requires Spans(ts, m, a, b) && Spans(ts, o, c, d) && b < c
    ensures Replace(Replace(ts, m, text), o, other) == Replace(Replace(ts, o, other), m, text)
  {
    var k, l := c - (b - a - 1), d - (b - a - 1);
    LaterSpans(ts, m, text, o, a, b, c, d, k, l);
    EarlierSpans(ts, m, o, other, a, b, c, d);
    CutsMeet(ts, m, text, o, other, a, b, c, d, k, l);
  }

  lemma CutsMeet(ts: seq<Token>, m: Section, text: string, o: Section, other: string,
                 a: nat, b: nat, c: nat, d: nat, k: nat, l: nat)
    requires Spans(ts, m, a, b) && Spans(ts, o, c, d) && b < c && k == c - (b - a - 1) && l == d - (b - a - 1)
    requires Spans(Replace(ts, m, text), o, k, l) && Spans(Replace(ts, o, other), m, a, b)
    ensures Replace(Replace(ts, m, text), o, other) == Replace(Replace(ts, o, other), m, text)
  {
    ReplacesCut(ts, m, text, o, other, a, b, k, l);
    ReplacesCut(ts, o, other, m, text, c, d, a, b);
    CutsCommute(ts, a, b, c, d, k, l, Token(m.startMarker, "\n" + text), Token(o.startMarker, "\n" + other));
  }

  lemma {:induction false} ExtendedFrom(ts: seq<Token>, text: string, e: nat)
    requires e < |ts|
    ensures Extended(ts, text)[e..] == Extended(ts[e..], text)
    decreases e
  {
    if e > 0 {
      ExtendedFrom(ts[1..], text, e - 1);
      assert ts[e..] == ts[1..][e - 1..];
      assert Extended(ts, text)[1..] == Extended(ts[1..], text);
      assert Extended(ts, text)[e..] == Extended(ts, text)[1..][e - 1..];
    }
  }

  lemma {:induction false} CutJoin(ts: seq<Token>, s: nat, e: nat, x: Token, more: seq<Token>)
    requires s < e < |ts|
    ensures Cut(ts + more, s, e, x) == Cut(ts, s, e, x) + more
    decreases s
  {
    if s == 0 {
      assert (ts + more)[e..] == ts[e..] + more;
    } else {
      assert (ts + more)[1..] == ts[1..] + more;
      CutJoin(ts[1..], s - 1, e - 1, x, more);
    }
  }

  lemma {:induction false} CutExtended(ts: seq<Token>, s: nat, e: nat, x: Token, text: string)
    requires s < e < |ts|
    ensures Cut(Extended(ts, text), s, e, x) == Extended(Cut(ts, s, e, x), text)
    decreases s
  {
    if s == 0 {
      ExtendedFrom(ts, text, e);
      assert ([x] + ts[e..])[1..] == ts[e..];
    } else {
      CutExtended(ts[1..], s - 1, e - 1, x, text);
      assert Extended(ts, text)[1..] == Extended(ts[1..], text);
      assert ([ts[0]] + Cut(ts[1..], s - 1, e - 1, x))[1..] == Cut(ts[1..], s - 1, e - 1, x);
    }
  }

  /** An absent section is appended the same way whether another is replaced before or after. */
  lemma CommuteAppended(ts: seq<Token>, m: Section, text: string, o: Section, other: string, s: nat, e: nat)
    requires m.startMarker != m.endMarker && o.startMarker != o.endMarker && Differ(m, o)
    requires Spans(ts, m, s, e) && Gone(Markers(ts), o)
    ensures Replace(Replace(ts, m, text), o, other) == Replace(Replace(ts, o, other), m, text)
  {
    FirstsAfter(ts, m, text, o);
    FirstsAfter(ts, o, other, m);
    ReplaceMarkers(ts, m, text);
    ReplaceMarkers(ts, o, other);
    AppendMeets(ts, m, text, o, other, s, e);
  }

  lemma AppendMeets(ts: seq<Token>, m: Section, text: string, o: Section, other: string, s: nat, e: nat)
    requires Spans(ts, m, s, e) && Gone(Markers(ts), o)
    requires Spans(Replace(ts, o, other), m, s, e) && Gone(Markers(Replace(ts, m, text)), o)
    ensures Replace(Replace(ts, m, text), o, other) == Replace(Replace(ts, o, other), m, text)
  {
    ReplaceCuts(ts, m, text, s, e);
    ReplaceCuts(Replace(ts, o, other), m, text, s, e);
    CutExtended(ts, s, e, Token(m.startMarker, "\n" + text), "\n\n");
    CutJoin(Extended(ts, "\n\n"), s, e, Token(m.startMarker, "\n" + text),
            [Token(o.startMarker, "\n" + other + "\n"), Token(o.endMarker, "\n")]);
  }

  lemma NotInOrder(ts: seq<Token>, m: Section, text: string)
    requires ts != [] && !InOrder(Markers(ts), m) && !Gone(Markers(ts), m)
    ensures Replace(ts, m, text) == ts
  {
  }

  /** Two sections clear of each other can be updated in either order. */
  lemma ReplacesCommute(ts: seq<Token>, m: Section, text: string, o: Section, other: string)
    requires ts != [] && m.startMarker != m.endMarker && o.startMarker != o.endMarker && Differ(m, o) && Differ(o, m)
    requires Clear(Markers(ts), m, o) && Clear(Markers(ts), o, m) && !Gone(Markers(ts), m)
    ensures Replace(Replace(ts, m, text), o, other) == Replace(Replace(ts, o, other), m, text)
  {
    var ps := Markers(ts);
    StepClear(ps, m, o);
    StepClear(ps, o, m);
    ReplaceMarkers(ts, m, text);
    ReplaceMarkers(ts, o, other);
    if !InOrder(ps, m) {
      NotInOrder(ts, m, text);
      NotInOrder(Replace(ts, o, other), m, text);
    } else if Gone(ps, o) {
      CommuteAppended(ts, m, text, o, other, First(ps, m.startMarker), First(ps, m.endMarker));
    } else if !InOrder(ps, o) {
      NotInOrder(ts, o, other);
      NotInOrder(Replace(ts, m, text), o, other);
    } else {
      BothInOrder(ts, m, text, o, other);
    }
  }

  lemma BothInOrder(ts: seq<Token>, m: Section, text: string, o: Section, other: string)
    requires m.startMarker != m.endMarker && o.startMarker != o.endMarker && Differ(m, o) && Differ(o, m)
    requires Clear(Markers(ts), m, o) && Clear(Markers(ts), o, m)
    requires InOrder(Markers(ts), m) && InOrder(Markers(ts), o)
    ensures Replace(Replace(ts, m, text), o, other) == Replace(Replace(ts, o, other), m, text)
  {
    var ps := Markers(ts);
    var a, b := First(ps, m.startMarker), First(ps, m.endMarker);
    var c, d := First(ps, o.startMarker), First(ps, o.endMarker);
    if b < c {
      CommuteInOrder(ts, m, text, o, other, a, b, c, d);
    } else {
      assert d < a;
      CommuteInOrder(ts, o, other, m, text, c, d, a, b);
    }
  }

  lemma CutAgain(ts: seq<Token>, s: nat, e: nat, x: Token, y: Token)
    requires s < e < |ts|
    ensures Cut(Cut(ts, s, e, x), s, s + 1, y) == Cut(ts, s, e, y)
  {
    CutShape(ts, s, e, x);
    CutShape(ts, s, e, y);
    CutShape(Cut(ts, s, e, x), s, s + 1, y);
    assert Cut(ts, s, e, x)[..s] == ts[..s] && Cut(ts, s, e, x)[s + 1..] == ts[e..];
  }

  /** A later update of the same section leaves no trace of an earlier one. */
  lemma LaterReplaceWins(ts: seq<Token>, m: Section, text: string, later: string)
    requires ts != [] && m.startMarker != m.endMarker && !Gone(Markers(ts), m)
    ensures Replace(Replace(ts, m, text), m, later) == Replace(ts, m, later)
  {
    var ps := Markers(ts);
    if InOrder(ps, m) {
      var s, e := First(ps, m.startMarker), First(ps, m.endMarker);
      OwnFirst(ps, m);
      ReplaceMarkers(ts, m, text);
      LaterCut(ts, m, text, later, s, e);
    } else {
      NotInOrder(ts, m, text);
    }
  }

  lemma LaterCut(ts: seq<Token>, m: Section, text: string, later: string, s: nat, e: nat)
    requires Spans(ts, m, s, e) && Spans(Replace(ts, m, text), m, s, s + 1)
    ensures Replace(Replace(ts, m, text), m, later) == Replace(ts, m, later)
  {
    ReplaceCuts(ts, m, text, s, e);
    ReplaceCuts(ts, m, later, s, e);
    ReplaceCuts(Replace(ts, m, text), m, later, s, s + 1);
    CutAgain(ts, s, e, Token(m.startMarker, "\n" + text), Token(m.startMarker, "\n" + later));
  }

  /* ---- a whole update ---- */

  predicate Among(os: seq<Section>, all: seq<Section>) {
    forall o | o in os :: o in all
  }

  lemma ReplacePlaced(ts: seq<Token>, all: seq<Section>, m: Section, text: string)
    requires ts != [] && Separate(all) && m in all && Placed(Markers(ts), all)
    ensures var ps, qs := Markers(ts), Markers(Replace(ts, m, text));
      && Placed(qs, all) && !Gone(qs, m)
      && forall o | o in all && o != m :: (InOrder(qs, o) <==> InOrder(ps, o)) && (Gone(qs, o) <==> Gone(ps, o))
  {
    ReplaceMarkers(ts, m, text);
    StepPlaced(Markers(ts), all, m);
  }

  /** The update of a section that is there may as well come before that of others. */
  lemma {:induction false} PastOthers(ts: seq<Token>, all: seq<Section>, m: Section, text: string, os: seq<Section>,
                                      texts: Section -> string)
    requires ts != [] && Separate(all) && Placed(Markers(ts), all) && m in all && !Gone(Markers(ts), m)
    requires Among(os, all) && m !in os
    ensures Replace(Applied(ts, os, texts), m, text) == Applied(Replace(ts, m, text), os, texts)
    decreases |os|
  {
    if os != [] {
      var o := os[0];
      assert o in all && o != m && Differ(m, o) && Differ(o, m);
      ReplacesCommute(ts, m, text, o, texts(o));
      ReplacePlaced(ts, all, o, texts(o));
      PastOthers(Replace(ts, o, texts(o)), all, m, text, os[1..], texts);
    }
  }

  lemma FirstApart(ms: seq<Section>, all: seq<Section>)
    requires ms != [] && Among(ms, all) && forall i, j | 0 <= i < j < |ms| :: ms[i] != ms[j]
    ensures ms[0] in all && ms[0] !in ms[1..] && Among(ms[1..], all)
    ensures forall i, j | 0 <= i < j < |ms[1..]| :: ms[1..][i] != ms[1..][j]
  {
    forall o | o in ms[1..]
      ensures o in all && o != ms[0]
    {
      var i :| 0 <= i < |ms| - 1 && ms[1..][i] == o;
      assert ms[i + 1] == o;
    }
  }

  /** A second update leaves no trace of the first. */
  lemma {:induction false} AppliedAbsorbs(ts: seq<Token>, all: seq<Section>, ms: seq<Section>,
                                          es: Section -> string, fs: Section -> string)
    requires ts != [] && Separate(all) && Placed(Markers(ts), all) && Among(ms, all)
    requires forall m | m in ms :: !Gone(Markers(ts), m)
    requires forall i, j | 0 <= i < j < |ms| :: ms[i] != ms[j]
    ensures Applied(Applied(ts, ms, es), ms, fs) == Applied(ts, ms, fs)
    decreases |ms|
  {
    if ms != [] {
      var m, rest := ms[0], ms[1..];
      FirstApart(ms, all);
      var first := Replace(ts, m, es(m));
      ReplacePlaced(ts, all, m, es(m));
      ReplacePlaced(first, all, m, fs(m));
      PastOthers(first, all, m, fs(m), rest, es);
      LaterReplaceWins(ts, m, es(m), fs(m));
      AppliedAbsorbs(Replace(first, m, fs(m)), all, rest, es, fs);
    }
  }

  /** Whatever was there, each section now has its text; an appended one has a line break behind it. */
  lemma {:induction false} AppliedDelivers(ts: seq<Token>, all: seq<Section>, ms: seq<Section>,
                                           texts: Section -> string, j: nat)
    requires ts != [] && Separate(all) && Placed(Markers(ts), all) && Among(ms, all) && j < |ms|
    requires forall i, j | 0 <= i < j < |ms| :: ms[i] != ms[j]
    ensures var r, m, gone := Applied(ts, ms, texts), ms[j], Gone(Markers(ts), ms[j]);
      && Replace(r, m, if gone then texts(m) + "\n" else texts(m)) == r
      && (InOrder(Markers(r), m) <==> gone || InOrder(Markers(ts), m)) && !Gone(Markers(r), m)
    decreases |ms|
  {
    var m, rest := ms[0], ms[1..];
    FirstApart(ms, all);
    ReplacePlaced(ts, all, m, texts(m));
    var first := Replace(ts, m, texts(m));
    if j > 0 {
      assert ms[j] == rest[j - 1] && ms[j] in rest;
      AppliedDelivers(first, all, rest, texts, j - 1);
    } else {
      var text := if Gone(Markers(ts), m) then texts(m) + "\n" else texts(m);
      ReplaceAgain(ts, m, texts(m));
      PastOthers(first, all, m, text, rest, texts);
      AppliedOrder(first, all, m, rest, texts);
    }
  }

  lemma ReplaceAgain(ts: seq<Token>, m: Section, text: string)
    requires ts != [] && m.startMarker != m.endMarker
    ensures var r, gone := Replace(ts, m, text), Gone(Markers(ts), m);
      && Replace(r, m, if gone then text + "\n" else text) == r
      && (InOrder(Markers(r), m) <==> gone || InOrder(Markers(ts), m))
  {
    var ps, r := Markers(ts), Replace(ts, m, text);
    OwnFirst(ps, m);
    ReplaceMarkers(ts, m, text);
    if Gone(ps, m) {
      var n := |ts|;
      ReplaceCuts(r, m, text + "\n", n, n + 1);
      CutShape(r, n, n + 1, Token(m.startMarker, "\n" + (text + "\n")));
      Assoc("\n", text, "\n");
      assert r[..n] == Extended(ts, "\n\n");
      assert r == r[..n] + [r[n]] + r[n + 1..];
    } else {
      LaterReplaceWins(ts, m, text, text);
    }
  }

  lemma {:induction false} AppliedOrder(ts: seq<Token>, all: seq<Section>, m: Section, os: seq<Section>,
                                        texts: Section -> string)
    requires ts != [] && Separate(all) && Placed(Markers(ts), all) && m in all && !Gone(Markers(ts), m)
    requires Among(os, all) && m !in os
    ensures var ps := Markers(Applied(ts, os, texts)); (InOrder(ps, m) <==> InOrder(Markers(ts), m)) && !Gone(ps, m)
    decreases |os|
  {
    if os != [] {
      ReplacePlaced(ts, all, os[0], texts(os[0]));
      AppliedOrder(Replace(ts, os[0], texts(os[0])), all, m, os[1..], texts);
    }
  }

  lemma {:induction false} AppliedPlaced(ts: seq<Token>, all: seq<Section>, ms: seq<Section>, texts: Section -> string)
    requires ts != [] && Separate(all) && Placed(Markers(ts), all) && Among(ms, all)
    ensures Placed(Markers(Applied(ts, ms, texts)), all)
    decreases |ms|
  {
    if ms != [] {
      ReplacePlaced(ts, all, ms[0], texts(ms[0]));
      AppliedPlaced(Replace(ts, ms[0], texts(ms[0])), all, ms[1..], texts);
    }
  }
}
