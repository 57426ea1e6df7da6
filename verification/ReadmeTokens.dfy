/** A README cut at its markers, and the update of one section as an edit of the list of pieces. */
module ReadmeTokens {
  import opened Text
  import opened ReadmeGenerator

  /** A marker is one line, and its first character occurs nowhere else in it. */
  predicate Opens(c: char, q: string) {
    q != "" && q[0] == c && c !in q[1..] && '\n' !in q
  }

  /** No marker is the beginning of another. */
  predicate Fit(c: char, qs: set<string>) {
    && (forall q | q in qs :: Opens(c, q))
    && (forall p, q | p in qs && q in qs && p <= q :: p == q)
  }

  predicate Clean(qs: set<string>, text: string) {
    forall q | q in qs :: Index(text, q) == -1
  }

  /** A marker with the text up to the next one. */
  datatype Token = Token(marker: string, after: string)

  function Render(ts: seq<Token>): string {
    if ts == [] then "" else ts[0].marker + (ts[0].after + Render(ts[1..]))
  }

  predicate Piece(qs: set<string>, t: Token) {
    t.marker in qs && Clean(qs, t.after)
  }

  predicate Pieces(qs: set<string>, ts: seq<Token>) {
    forall t | t in ts :: Piece(qs, t)
  }

  /** What stands before the first marker is a token with an empty one. */
  predicate Tokenised(qs: set<string>, ts: seq<Token>) {
    ts != [] && ts[0].marker == "" && Clean(qs, ts[0].after) && Pieces(qs, ts[1..])
  }

  function Markers(ts: seq<Token>): (ps: seq<string>)
    ensures |ps| == |ts| && forall i | 0 <= i < |ts| :: ps[i] == ts[i].marker
  {
    seq(|ts|, i requires 0 <= i < |ts| => ts[i].marker)
  }

  /** The first place of a marker in a list of markers, or the length of the list. */
  function First(ps: seq<string>, q: string): (k: nat)
    ensures k <= |ps| && (k < |ps| ==> ps[k] == q)
    ensures forall i | 0 <= i < k :: ps[i] != q
  {
    if ps == [] || ps[0] == q then 0 else 1 + First(ps[1..], q)
  }

  /* ---- where markers occur ---- */

  lemma NotAround(c: char, s: string, q: string, i: nat, j: nat)
    requires Opens(c, q) && i < j < i + |q| && j < |s| && s[j] == c
    ensures !OccursAt(s, q, i)
  {
    assert q[1..][j - i - 1] == q[j - i];
    if i + |q| <= |s| {
      assert s[i..i + |q|][j - i] == s[j];
    }
  }

  /** Behind clean text a marker occurs only where it occurs in the rest. */
  lemma OccursBehindText(c: char, a: string, x: string, q: string, i: nat)
    requires Opens(c, q) && Index(a, q) == -1 && (x == "" || x[0] == c)
    ensures OccursAt(a + x, q, i) <==> i >= |a| && OccursAt(x, q, i - |a|)
  {
    if i >= |a| {
      OccursRight(a, x, q, i);
    } else if i + |q| <= |a| {
      OccursLeft(a, x, q, i);
    } else if x != "" {
      NotAround(c, a + x, q, i, |a|);
    }
  }

  /** Behind a marker it occurs only where it occurs in the rest. */
  lemma OccursBehindMarker(c: char, p: string, x: string, q: string, i: nat)
    requires Opens(c, p) && Opens(c, q) && (p <= q || q <= p ==> p == q)
    ensures OccursAt(p + x, q, i) <==> (i == 0 && p == q) || (i >= |p| && OccursAt(x, q, i - |p|))
  {
    if i >= |p| {
      OccursRight(p, x, q, i);
    } else if i > 0 {
      assert (p + x)[i] == p[1..][i - 1];
      assert q[0] == c;
      NotHere(p + x, q, i);
    } else {
      OccursAtFront(p, x, q);
    }
  }

  lemma NotHere(s: string, q: string, i: nat)
    requires q != "" && i < |s| && s[i] != q[0]
    ensures !OccursAt(s, q, i)
  {
    if i + |q| <= |s| {
      assert s[i..i + |q|][0] == s[i];
    }
  }

  lemma OccursAtFront(p: string, x: string, q: string)
    requires p <= q || q <= p ==> p == q
    ensures OccursAt(p + x, q, 0) <==> p == q
  {
    if |q| <= |p| {
      assert (p + x)[0..|q|] == p[..|q|];
    } else if |q| <= |p + x| {
      assert (p + x)[0..|q|][..|p|] == p;
    }
  }

  lemma OccursBehindBoth(c: char, p: string, a: string, x: string, q: string, i: nat)
    requires Opens(c, p) && Opens(c, q) && (p <= q || q <= p ==> p == q)
    requires Index(a, q) == -1 && (x == "" || x[0] == c)
    ensures OccursAt(p + (a + x), q, i) <==>
              (i == 0 && p == q) || (i >= |p| + |a| && OccursAt(x, q, i - (|p| + |a|)))
  {
    OccursBehindMarker(c, p, a + x, q, i);
    if i >= |p| {
      OccursBehindText(c, a, x, q, i - |p|);
    }
  }

  lemma OccursInTokens(c: char, qs: set<string>, t: Token, x: string, q: string, i: nat)
    requires Fit(c, qs) && q in qs && (t.marker in qs || t.marker == "") && Clean(qs, t.after)
    requires x == "" || x[0] == c
    ensures var n := |t.marker| + |t.after|;
            OccursAt(t.marker + (t.after + x), q, i) <==>
              (i == 0 && t.marker == q) || (i >= n && OccursAt(x, q, i - n))
  {
    if t.marker == "" {
      assert t.marker + (t.after + x) == t.after + x;
      OccursBehindText(c, t.after, x, q, i);
    } else {
      OccursBehindBoth(c, t.marker, t.after, x, q, i);
    }
  }

  lemma RenderOpens(c: char, qs: set<string>, ts: seq<Token>)
    requires Fit(c, qs) && Pieces(qs, ts)
    ensures ts == [] || (Render(ts) != "" && Render(ts)[0] == c)
  {
    if ts != [] {
      assert Piece(qs, ts[0]);
    }
  }

  /** A marker is found where its first token begins. */
  lemma {:induction false} Found(c: char, qs: set<string>, ts: seq<Token>, q: string)
    requires Fit(c, qs) && q in qs && ts != [] && Pieces(qs, ts[1..])
    requires (ts[0].marker in qs || ts[0].marker == "") && Clean(qs, ts[0].after)
    ensures var k := First(Markers(ts), q);
            Index(Render(ts), q) == if k == |ts| then -1 else |Render(ts[..k])|
  {
    var rest := ts[1..];
    FoundBehind(c, qs, ts[0], rest, q);
    FirstOfTail(ts, q);
    if ts[0].marker != q && rest != [] {
      assert Piece(qs, rest[0]);
      Found(c, qs, rest, q);
    }
  }

  lemma FirstOfTail(ts: seq<Token>, q: string)
    requires ts != []
    ensures var k, j := First(Markers(ts), q), First(Markers(ts[1..]), q);
            if ts[0].marker == q then k == 0 && Render(ts[..k]) == ""
            else k == j + 1 && |Render(ts[..k])| == |ts[0].marker| + |ts[0].after| + |Render(ts[1..][..j])|
  {
    var j := First(Markers(ts[1..]), q);
    assert Markers(ts)[1..] == Markers(ts[1..]);
    assert ts[..j + 1][1..] == ts[1..][..j];
  }

  lemma FoundBehind(c: char, qs: set<string>, t: Token, rest: seq<Token>, q: string)
    requires Fit(c, qs) && q in qs && Pieces(qs, rest) && (t.marker in qs || t.marker == "") && Clean(qs, t.after)
    ensures var x, n := Render(rest), |t.marker| + |t.after|;
            Index(t.marker + (t.after + x), q) ==
              if t.marker == q then 0 else if Index(x, q) == -1 then -1 else n + Index(x, q)
  {
    RenderOpens(c, qs, rest);
    FoundInTokens(c, qs, t, Render(rest), q);
  }

  lemma FoundInTokens(c: char, qs: set<string>, t: Token, x: string, q: string)
    requires Fit(c, qs) && q in qs && (t.marker in qs || t.marker == "") && Clean(qs, t.after)
    requires x == "" || x[0] == c
    ensures Index(t.marker + (t.after + x), q) ==
              if t.marker == q then 0 else if Index(x, q) == -1 then -1 else |t.marker| + |t.after| + Index(x, q)
  {
    var n, s := |t.marker| + |t.after|, t.marker + (t.after + x);
    assert q != "";
    if t.marker == q {
      OccursInTokens(c, qs, t, x, q, 0);
      IndexIs(s, q, 0);
    } else {
      forall i: nat
        ensures OccursAt(s, q, i) <==> i >= n && OccursAt(x, q, i - n)
      {
        OccursInTokens(c, qs, t, x, q, i);
      }
      IndexShifts(s, x, n, q);
    }
  }

  lemma IndexShifts(s: string, x: string, n: nat, q: string)
    requires |s| == n + |x| && q != ""
    requires forall i: nat :: OccursAt(s, q, i) <==> i >= n && OccursAt(x, q, i - n)
    ensures Index(s, q) == if Index(x, q) == -1 then -1 else n + Index(x, q)
  {
    if Index(x, q) == -1 {
      assert Index(s, q) == -1;
    } else {
      var at := n + Index(x, q);
      assert OccursAt(x, q, at - n);
      IndexIs(s, q, at);
    }
  }

  /* ---- every document can be cut ---- */

  lemma CleanCons(qs: set<string>, ch: char, text: string, s: string)
    requires Clean(qs, text) && text <= s && forall q | q in qs :: q != "" && !(q <= [ch] + s)
    ensures Clean(qs, [ch] + text)
  {
    forall q | q in qs
      ensures Index([ch] + text, q) == -1
    {
      forall i | 0 <= i <= |text| + 1
        ensures !OccursAt([ch] + text, q, i)
      {
        if i > 0 {
          OccursRight([ch], text, q, i);
        } else if |q| <= |text| + 1 {
          assert ([ch] + text)[0..|q|] == ([ch] + s)[..|q|];
        }
      }
    }
  }

  lemma {:induction false} Tokenise(c: char, qs: set<string>, s: string) returns (ts: seq<Token>)
    requires Fit(c, qs)
    ensures Tokenised(qs, ts) && Render(ts) == s && |ts| <= |s| + 1
    decreases |s|
  {
    if s == "" {
      ts := [Token("", "")];
    } else if q :| q in qs && q <= s {
      var rest := Tokenise(c, qs, s[|q|..]);
      ts := [Token("", ""), Token(q, rest[0].after)] + rest[1..];
      assert ts[1..] == [Token(q, rest[0].after)] + rest[1..];
      assert ts[1..][1..] == rest[1..];
      assert s == q + s[|q|..];
    } else {
      var rest := Tokenise(c, qs, s[1..]);
      ts := [Token("", [s[0]] + rest[0].after)] + rest[1..];
      assert s == [s[0]] + s[1..];
      assert rest[0].after <= s[1..];
      CleanCons(qs, s[0], rest[0].after, s[1..]);
      assert ts[1..] == rest[1..];
      Assoc([s[0]], rest[0].after, Render(rest[1..]));
    }
  }

  /* ---- one section ---- */

  function Step(ps: seq<string>, m: Section): seq<string> {
    var s, e := First(ps, m.startMarker), First(ps, m.endMarker);
    if s == |ps| && e == |ps| then ps + [m.startMarker, m.endMarker]
    else if s < e < |ps| then ps[..s + 1] + ps[e..]
    else ps
  }

  /** Text behind the last piece. */
  function Extended(ts: seq<Token>, text: string): (r: seq<Token>)
    requires ts != []
    ensures |r| == |ts|
  {
    if |ts| == 1 then [Token(ts[0].marker, ts[0].after + text)]
    else [ts[0]] + Extended(ts[1..], text)
  }

  lemma {:induction false} ExtendedShape(ts: seq<Token>, text: string)
    requires ts != []
    ensures Extended(ts, text) == ts[..|ts| - 1] + [Token(ts[|ts| - 1].marker, ts[|ts| - 1].after + text)]
  {
    if |ts| > 1 {
      ExtendedShape(ts[1..], text);
      assert ts[..|ts| - 1] == [ts[0]] + ts[1..][..|ts| - 2];
    }
  }

  /** `x` instead of what stands from place `a` up to place `b`. */
  function Cut(ts: seq<Token>, a: nat, b: nat, x: Token): (r: seq<Token>)
    requires a < b <= |ts|
    ensures |r| == |ts| - (b - a - 1)
    decreases a
  {
    if a == 0 then [x] + ts[b..] else [ts[0]] + Cut(ts[1..], a - 1, b - 1, x)
  }

  lemma {:induction false} CutShape(ts: seq<Token>, a: nat, b: nat, x: Token)
    requires a < b <= |ts|
    ensures Cut(ts, a, b, x) == ts[..a] + [x] + ts[b..]
    decreases a
  {
    if a > 0 {
      CutShape(ts[1..], a - 1, b - 1, x);
      assert ts[..a] == [ts[0]] + ts[1..][..a - 1];
    }
  }

  function Replace(ts: seq<Token>, m: Section, text: string): (r: seq<Token>)
    requires ts != []
    ensures r != []
  {
    var n, s, e := |ts|, First(Markers(ts), m.startMarker), First(Markers(ts), m.endMarker);
    if s == n && e == n then
      Extended(ts, "\n\n") + [Token(m.startMarker, "\n" + text + "\n"), Token(m.endMarker, "\n")]
    else if s < e < n then
      Cut(ts, s, e, Token(m.startMarker, "\n" + text))
    else ts
  }

  lemma MarkersJoin(a: seq<Token>, b: seq<Token>)
    ensures Markers(a + b) == Markers(a) + Markers(b)
  {
  }

  lemma MarkersExtended(ts: seq<Token>, text: string)
    requires ts != []
    ensures Markers(Extended(ts, text)) == Markers(ts)
  {
    ExtendedShape(ts, text);
  }

  lemma ReplaceMarkers(ts: seq<Token>, m: Section, text: string)
    requires ts != []
    ensures Markers(Replace(ts, m, text)) == Step(Markers(ts), m)
  {
    var n, s, e := |ts|, First(Markers(ts), m.startMarker), First(Markers(ts), m.endMarker);
    if s == n && e == n {
      var more := [Token(m.startMarker, "\n" + text + "\n"), Token(m.endMarker, "\n")];
      assert Markers(more) == [m.startMarker, m.endMarker];
      MarkersExtended(ts, "\n\n");
      MarkersJoin(Extended(ts, "\n\n"), more);
    } else if s < e < n {
      CutShape(ts, s, e, Token(m.startMarker, "\n" + text));
      MarkersJoin(ts[..s] + [Token(m.startMarker, "\n" + text)], ts[e..]);
      assert Markers(ts[..s] + [Token(m.startMarker, "\n" + text)]) == Markers(ts)[..s + 1];
      assert Markers(ts[e..]) == Markers(ts)[e..];
    }
  }

  lemma {:induction false} RenderJoin(a: seq<Token>, b: seq<Token>)
    ensures Render(a + b) == Render(a) + Render(b)
  {
    if a == [] {
      assert a + b == b;
    } else {
      RenderJoin(a[1..], b);
      assert (a + b)[1..] == a[1..] + b;
      Assoc(a[0].after, Render(a[1..]), Render(b));
      Assoc(a[0].marker, a[0].after + Render(a[1..]), Render(b));
    }
  }

  lemma RenderCons(t: Token, ts: seq<Token>)
    ensures Render([t] + ts) == t.marker + (t.after + Render(ts))
  {
    assert ([t] + ts)[1..] == ts;
  }

  /** Line breaks do not make a marker. */
  lemma CleanBreak(c: char, qs: set<string>, a: string, b: string)
    requires Fit(c, qs) && Clean(qs, a) && Clean(qs, b)
    ensures Clean(qs, a + ("\n" + b))
  {
    forall q | q in qs
      ensures Index(a + ("\n" + b), q) == -1
    {
      forall i | 0 <= i <= |a| + 1 + |b|
        ensures !OccursAt(a + ("\n" + b), q, i)
      {
        if i + |q| <= |a| {
          OccursLeft(a, "\n" + b, q, i);
        } else if i <= |a| {
          BreakNotInside(a + ("\n" + b), q, i, |a|);
        } else {
          OccursRight(a, "\n" + b, q, i);
          OccursRight("\n", b, q, i - |a|);
        }
      }
    }
  }

  lemma BreakNotInside(s: string, q: string, i: nat, j: nat)
    requires '\n' !in q && i <= j < i + |q| && j < |s| && s[j] == '\n'
    ensures !OccursAt(s, q, i)
  {
    assert q[j - i] in q;
    if i + |q| <= |s| {
      assert s[i..i + |q|][j - i] == s[j];
    }
  }

  lemma CleanEmpty(c: char, qs: set<string>)
    requires Fit(c, qs)
    ensures Clean(qs, "")
  {
    forall q | q in qs
      ensures Index("", q) == -1
    {
      assert q != "";
    }
  }

  lemma CleanParts(c: char, qs: set<string>, last: string, text: string)
    requires Fit(c, qs) && Clean(qs, last) && Clean(qs, text)
    ensures Clean(qs, last + "\n\n") && Clean(qs, "\n" + text) && Clean(qs, "\n" + text + "\n") && Clean(qs, "\n")
  {
    CleanEmpty(c, qs);
    CleanBreak(c, qs, "", "");
    assert "" + ("\n" + "") == "\n";
    CleanBreak(c, qs, last, "\n");
    assert last + ("\n" + "\n") == last + "\n\n";
    CleanBreak(c, qs, "", text);
    assert "" + ("\n" + text) == "\n" + text;
    CleanBreak(c, qs, "\n" + text, "");
    assert ("\n" + text) + ("\n" + "") == "\n" + text + "\n";
  }

  lemma PiecesJoin(qs: set<string>, a: seq<Token>, b: seq<Token>)
    requires a != [] && Pieces(qs, a[1..]) && Pieces(qs, b)
    ensures Pieces(qs, (a + b)[1..])
  {
    assert (a + b)[1..] == a[1..] + b;
  }

  lemma TokenAt(qs: set<string>, ts: seq<Token>, i: nat)
    requires Tokenised(qs, ts) && i < |ts|
    ensures Clean(qs, ts[i].after) && (i > 0 ==> Piece(qs, ts[i]))
  {
    if i > 0 {
      assert ts[i] == ts[1..][i - 1];
      assert Piece(qs, ts[i]);
    }
  }

  lemma ExtendedTokenised(qs: set<string>, ts: seq<Token>, text: string)
    requires Tokenised(qs, ts) && Clean(qs, ts[|ts| - 1].after + text)
    ensures Tokenised(qs, Extended(ts, text))
  {
    var n := |ts|;
    TokenAt(qs, ts, n - 1);
    ExtendedShape(ts, text);
    if n > 1 {
      PiecesJoin(qs, ts[..n - 1], [Token(ts[n - 1].marker, ts[n - 1].after + text)]);
      assert ts[..n - 1][1..] == ts[1..][..n - 2];
    }
  }

  lemma ShortenedTokenised(qs: set<string>, ts: seq<Token>, t: Token, s: nat, e: nat)
    requires Tokenised(qs, ts) && Piece(qs, t) && 0 < s < e < |ts|
    ensures Tokenised(qs, ts[..s] + [t] + ts[e..])
  {
    assert ts[..s][1..] == ts[1..][..s - 1];
    assert ts[e..] == ts[1..][e - 1..];
    PiecesJoin(qs, ts[..s], [t]);
    PiecesJoin(qs, ts[..s] + [t], ts[e..]);
  }

  lemma ReplaceTokenised(c: char, qs: set<string>, ts: seq<Token>, m: Section, text: string)
    requires Fit(c, qs) && Tokenised(qs, ts) && m.startMarker in qs && m.endMarker in qs && Clean(qs, text)
    ensures Tokenised(qs, Replace(ts, m, text))
  {
    var n, s, e := |ts|, First(Markers(ts), m.startMarker), First(Markers(ts), m.endMarker);
    TokenAt(qs, ts, n - 1);
    CleanParts(c, qs, ts[n - 1].after, text);
    if s == n && e == n {
      ExtendedTokenised(qs, ts, "\n\n");
      PiecesJoin(qs, Extended(ts, "\n\n"),
                 [Token(m.startMarker, "\n" + text + "\n"), Token(m.endMarker, "\n")]);
    } else if s < e < n {
      assert s > 0;
      CutShape(ts, s, e, Token(m.startMarker, "\n" + text));
      ShortenedTokenised(qs, ts, Token(m.startMarker, "\n" + text), s, e);
    }
  }

  lemma RenderSection(m: Section, text: string)
    ensures Render([Token(m.startMarker, "\n" + text + "\n"), Token(m.endMarker, "\n")])
         == m.startMarker + ("\n" + (text + ("\n" + (m.endMarker + "\n"))))
  {
    var start, end := Token(m.startMarker, "\n" + text + "\n"), Token(m.endMarker, "\n");
    assert [start, end] == [start] + ([end] + []);
    RenderCons(end, []);
    RenderCons(start, [end] + []);
    var x := m.endMarker + "\n";
    Assoc("\n" + text, "\n", x);
    Assoc("\n", text, "\n" + x);
  }

  lemma {:induction false} RenderExtended(ts: seq<Token>, text: string)
    requires ts != []
    ensures Render(Extended(ts, text)) == Render(ts) + text
  {
    var t := ts[0];
    if |ts| == 1 {
      assert Render(ts[1..]) == "";
      Assoc(t.marker, t.after, text);
    } else {
      RenderExtended(ts[1..], text);
      RenderCons(t, Extended(ts[1..], text));
      Assoc(t.after, Render(ts[1..]), text);
      Assoc(t.marker, t.after + Render(ts[1..]), text);
    }
  }

  lemma RenderAppended(ts: seq<Token>, m: Section, text: string)
    requires ts != [] && First(Markers(ts), m.startMarker) == |ts| && First(Markers(ts), m.endMarker) == |ts|
    ensures Render(Replace(ts, m, text))
         == Render(ts) + ("\n" + ("\n" + (m.startMarker + ("\n" + (text + ("\n" + (m.endMarker + "\n")))))))
  {
    var more := [Token(m.startMarker, "\n" + text + "\n"), Token(m.endMarker, "\n")];
    RenderJoin(Extended(ts, "\n\n"), more);
    RenderExtended(ts, "\n\n");
    RenderSection(m, text);
    TwoBreaks(Render(ts), Render(more));
  }

  lemma TwoBreaks(a: string, x: string)
    ensures (a + "\n\n") + x == a + ("\n" + ("\n" + x))
  {
    Assoc(a, "\n\n", x);
    Assoc("\n", "\n", x);
  }

  lemma FirstAt(ts: seq<Token>, k: nat)
    requires k < |ts|
    ensures Render(ts) == Render(ts[..k]) + (ts[k].marker + (ts[k].after + Render(ts[k + 1..])))
    ensures Render(ts[k..]) == ts[k].marker + (ts[k].after + Render(ts[k + 1..]))
  {
    assert ts == ts[..k] + ts[k..];
    RenderJoin(ts[..k], ts[k..]);
  }

  lemma FrontGrows(ts: seq<Token>, i: nat, j: nat)
    requires i < j <= |ts|
    ensures |Render(ts[..i])| + |ts[i].marker| + |ts[i].after| <= |Render(ts[..j])|
  {
    assert ts[..j][..i] == ts[..i];
    FirstAt(ts[..j], i);
  }

  lemma RenderReplaced(ts: seq<Token>, s: nat, e: nat, text: string)
    requires s < e < |ts|
    ensures |Render(ts[..e])| <= |Render(ts)| && |Render(ts[..s])| + |ts[s].marker| <= |Render(ts)|
    ensures Render(ts)[|Render(ts[..e])|..] == Render(ts[e..])
    ensures Render(ts)[..|Render(ts[..s])| + |ts[s].marker|] == Render(ts[..s]) + ts[s].marker
    ensures Render(ts[..s] + [Token(ts[s].marker, text)] + ts[e..])
         == Render(ts[..s]) + (ts[s].marker + (text + Render(ts[e..])))
  {
    FirstAt(ts, s);
    Assoc(Render(ts[..s]), ts[s].marker, ts[s].after + Render(ts[s + 1..]));
    assert ts == ts[..e] + ts[e..];
    RenderJoin(ts[..e], ts[e..]);
    DropLeft(Render(ts[..e]), Render(ts[e..]), 0);
    var t := Token(ts[s].marker, text);
    RenderCons(t, ts[e..]);
    RenderJoin(ts[..s], [t] + ts[e..]);
    Assoc(ts[..s], [t], ts[e..]);
  }

  /** A section in order, in the document and in its list of pieces. */
  lemma OrderedIn(c: char, qs: set<string>, ts: seq<Token>, m: Section)
    requires Fit(c, qs) && Tokenised(qs, ts) && m.startMarker in qs && m.endMarker in qs
    requires m.startMarker != m.endMarker
    ensures var s, e := First(Markers(ts), m.startMarker), First(Markers(ts), m.endMarker);
      && (m.Absent(Render(ts)) <==> s == |ts| && e == |ts|)
      && (m.Ordered(Render(ts)) <==> s < e < |ts|)
      && (s < |ts| ==> Index(Render(ts), m.startMarker) == |Render(ts[..s])|)
      && (e < |ts| ==> Index(Render(ts), m.endMarker) == |Render(ts[..e])|)
  {
    var s, e := First(Markers(ts), m.startMarker), First(Markers(ts), m.endMarker);
    Found(c, qs, ts, m.startMarker);
    Found(c, qs, ts, m.endMarker);
    if s < e {
      FrontGrows(ts, s, e);
    } else if e < s {
      FrontGrows(ts, e, s);
    }
  }

  lemma ReplaceOrdered(ts: seq<Token>, m: Section, text: string, s: nat, e: nat)
    requires s < e < |ts| && ts[s].marker == m.startMarker && m.Ordered(Render(ts))
    requires Index(Render(ts), m.startMarker) == |Render(ts[..s])|
    requires Index(Render(ts), m.endMarker) == |Render(ts[..e])|
    ensures ReplaceSection(Render(ts), m, text)
         == Render(ts[..s] + [Token(m.startMarker, "\n" + text)] + ts[e..])
  {
    RenderReplaced(ts, s, e, "\n" + text);
    ReplaceShape(Render(ts), m, text);
    var front, end := Render(ts[..s]), Render(ts[e..]);
    assert Head(Render(ts), m) == front + m.startMarker && Tail(Render(ts), m) == end;
    Assoc("\n", text, end);
    Assoc(front, m.startMarker, "\n" + (text + end));
  }

  /** Updating a section of a document is updating its list of pieces. */
  lemma ReplaceRefines(c: char, qs: set<string>, ts: seq<Token>, m: Section, text: string)
    requires Fit(c, qs) && Tokenised(qs, ts) && m.startMarker in qs && m.endMarker in qs && Clean(qs, text)
    requires m.startMarker != m.endMarker
    ensures ReplaceSection(Render(ts), m, text) == Render(Replace(ts, m, text))
  {
    var s, e := First(Markers(ts), m.startMarker), First(Markers(ts), m.endMarker);
    OrderedIn(c, qs, ts, m);
    if s == |ts| && e == |ts| {
      RenderAppended(ts, m, text);
    } else if s < e < |ts| {
      CutShape(ts, s, e, Token(m.startMarker, "\n" + text));
      ReplaceOrdered(ts, m, text, s, e);
    }
  }
}
