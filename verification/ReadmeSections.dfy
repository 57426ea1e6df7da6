/** The update of a README: its sections are replaced or appended one after the other. */
module ReadmeSections {
  import opened Text
  import opened ReadmeGenerator
  import opened ReadmeTokens
  import opened ReadmePasses
  import opened ReadmeReplaces

  function Update(content: string, ms: seq<Section>, texts: Section -> string): string
    decreases |ms|
  {
    if ms == [] then content else Update(ReplaceSection(content, ms[0], texts(ms[0])), ms[1..], texts)
  }

  function MarkerSet(ms: seq<Section>): set<string> {
    (set m | m in ms :: m.startMarker) + (set m | m in ms :: m.endMarker)
  }

  /** No marker is the beginning of another, and they differ. */
  predicate Sections(c: char, ms: seq<Section>) {
    Fit(c, MarkerSet(ms)) && Separate(ms)
  }

  /** The texts of the sections have none of their markers. */
  predicate Texts(ms: seq<Section>, texts: Section -> string) {
    forall m | m in ms :: Clean(MarkerSet(ms), texts(m))
  }

  lemma {:induction false} UpdateRefines(c: char, qs: set<string>, ts: seq<Token>, ms: seq<Section>,
                                         texts: Section -> string)
    requires Fit(c, qs) && Tokenised(qs, ts)
    requires forall m | m in ms :: m.startMarker in qs && m.endMarker in qs && m.startMarker != m.endMarker
    requires forall m | m in ms :: Clean(qs, texts(m))
    ensures Tokenised(qs, Applied(ts, ms, texts)) && Update(Render(ts), ms, texts) == Render(Applied(ts, ms, texts))
    decreases |ms|
  {
    if ms != [] {
      var m := ms[0];
      ReplaceTokenised(c, qs, ts, m, texts(m));
      ReplaceRefines(c, qs, ts, m, texts(m));
      UpdateRefines(c, qs, Replace(ts, m, texts(m)), ms[1..], texts);
    }
  }

  /* ---- any document ---- */

  /** A run of updates, each with its own texts. */
  function UpdateAll(content: string, ms: seq<Section>, runs: seq<Section -> string>): string
    decreases |runs|
  {
    if runs == [] then content else UpdateAll(Update(content, ms, runs[0]), ms, runs[1..])
  }

  lemma OneUpdate(c: char, ms: seq<Section>, ts: seq<Token>, texts: Section -> string) returns (next: seq<Token>)
    requires Sections(c, ms) && Tokenised(MarkerSet(ms), ts) && Texts(ms, texts)
    ensures Tokenised(MarkerSet(ms), next) && Render(next) == Update(Render(ts), ms, texts)
    ensures Markers(next) == Pass(Markers(ts), ms) && next == Applied(ts, ms, texts)
  {
    UpdateRefines(c, MarkerSet(ms), ts, ms, texts);
    AppliedMarkers(ts, ms, texts);
    next := Applied(ts, ms, texts);
  }

  function AppliedAll(ts: seq<Token>, ms: seq<Section>, runs: seq<Section -> string>): (r: seq<Token>)
    requires ts != []
    ensures r != []
    decreases |runs|
  {
    if runs == [] then ts else AppliedAll(Applied(ts, ms, runs[0]), ms, runs[1..])
  }

  lemma {:induction false} UpdateAllRefines(c: char, ms: seq<Section>, ts: seq<Token>, runs: seq<Section -> string>)
    requires Sections(c, ms) && Tokenised(MarkerSet(ms), ts) && forall i | 0 <= i < |runs| :: Texts(ms, runs[i])
    ensures Tokenised(MarkerSet(ms), AppliedAll(ts, ms, runs))
    ensures UpdateAll(Render(ts), ms, runs) == Render(AppliedAll(ts, ms, runs))
    decreases |runs|
  {
    if runs != [] {
      assert Texts(ms, runs[0]);
      var next := OneUpdate(c, ms, ts, runs[0]);
      UpdateAllRefines(c, ms, next, runs[1..]);
    }
  }

  lemma {:induction false} RunMarkers(ms: seq<Section>, ts: seq<Token>, runs: seq<Section -> string>,
                                      next: seq<string> -> seq<string>)
    requires ts != [] && forall ps :: next(ps) == Pass(ps, ms)
    ensures Markers(AppliedAll(ts, ms, runs)) == Iterate(next, Markers(ts), |runs|)
    decreases |runs|
  {
    if runs != [] {
      AppliedMarkers(ts, ms, runs[0]);
      RunMarkers(ms, Applied(ts, ms, runs[0]), runs[1..], next);
    }
  }

  /** Whatever a document looks like, with sections missing, nested, interleaved, repeated or cut
      short: after enough updates, one more leaves no trace of the one before it. */
  lemma EveryReadmeSettles(c: char, content: string, ms: seq<Section>, runs: seq<Section -> string>,
                           es: Section -> string, fs: Section -> string)
    requires Sections(c, ms) && Texts(ms, es) && Texts(ms, fs)
    requires |runs| > |content| + |ms| && forall i | 0 <= i < |runs| :: Texts(ms, runs[i])
    ensures var settled := UpdateAll(content, ms, runs);
            Update(Update(settled, ms, es), ms, fs) == Update(settled, ms, fs)
  {
    var ts := Tokenise(c, MarkerSet(ms), content);
    var next := (ps: seq<string>) => Pass(ps, ms);
    PassesSettle(Markers(ts), ms, next, |runs|);
    UpdateAllRefines(c, ms, ts, runs);
    RunMarkers(ms, ts, runs, next);
    var last := AppliedAll(ts, ms, runs);
    StillPlaced(Markers(last), ms);
    Absorbs(c, last, ms, es, fs);
  }

  /* ---- documents whose sections do not overlap ---- */

  predicate NotWithin(content: string, m: Section, q: string) {
    !(Index(content, m.startMarker) < Index(content, q) < Index(content, m.endMarker))
  }

  /** No section has another one's first marker between its own. */
  predicate Disjoint(content: string, ms: seq<Section>) {
    forall m, o | m in ms && o in ms && m != o && m.Ordered(content) ::
      NotWithin(content, m, o.startMarker) && NotWithin(content, m, o.endMarker)
  }

  lemma FoundOrder(c: char, qs: set<string>, ts: seq<Token>, p: string, q: string)
    requires Fit(c, qs) && Tokenised(qs, ts) && p in qs && q in qs
    ensures First(Markers(ts), p) < First(Markers(ts), q) < |ts| <==> 0 <= Index(Render(ts), p) < Index(Render(ts), q)
  {
    var k, l := First(Markers(ts), p), First(Markers(ts), q);
    Found(c, qs, ts, p);
    Found(c, qs, ts, q);
    if k < l {
      FrontGrows(ts, k, l);
    } else if l < k {
      FrontGrows(ts, l, k);
    }
  }

  lemma DisjointPlaced(c: char, ts: seq<Token>, ms: seq<Section>)
    requires Sections(c, ms) && Tokenised(MarkerSet(ms), ts) && Disjoint(Render(ts), ms)
    ensures Placed(Markers(ts), ms)
  {
    forall m, o | m in ms && o in ms && m != o
      ensures Clear(Markers(ts), m, o)
    {
      if m.Ordered(Render(ts)) {
        assert NotWithin(Render(ts), m, o.startMarker) && NotWithin(Render(ts), m, o.endMarker);
      }
      ClearIn(c, MarkerSet(ms), ts, m, o);
    }
  }

  lemma ClearIn(c: char, qs: set<string>, ts: seq<Token>, m: Section, o: Section)
    requires Fit(c, qs) && Tokenised(qs, ts) && m.startMarker != m.endMarker
    requires m.startMarker in qs && m.endMarker in qs && o.startMarker in qs && o.endMarker in qs
    requires m.Ordered(Render(ts)) ==>
               NotWithin(Render(ts), m, o.startMarker) && NotWithin(Render(ts), m, o.endMarker)
    ensures Clear(Markers(ts), m, o)
  {
    OrderedIn(c, qs, ts, m);
    OutsideIn(c, qs, ts, m, o.startMarker);
    OutsideIn(c, qs, ts, m, o.endMarker);
  }

  lemma OutsideIn(c: char, qs: set<string>, ts: seq<Token>, m: Section, q: string)
    requires Fit(c, qs) && Tokenised(qs, ts) && m.startMarker in qs && m.endMarker in qs && q in qs
    ensures InOrder(Markers(ts), m) ==> (NotWithin(Render(ts), m, q) <==> Outside(Markers(ts), m, q))
  {
    FoundOrder(c, qs, ts, m.startMarker, q);
    FoundOrder(c, qs, ts, q, m.endMarker);
    FoundOrder(c, qs, ts, m.startMarker, m.endMarker);
  }

  /** What stands between the markers. */
  predicate Holds(content: string, m: Section, text: string) {
    m.Ordered(content) &&
      var i, j := Index(content, m.startMarker) + |m.startMarker|, Index(content, m.endMarker);
      i + |text| == j && content[i..j] == text
  }

  lemma UnchangedHolds(content: string, m: Section, text: string)
    requires m.Ordered(content) && ReplaceSection(content, m, text) == content
    ensures Holds(content, m, "\n" + text)
  {
    var head, tail := Head(content, m), Tail(content, m);
    ReplaceShape(content, m, text);
    Assoc("\n", text, tail);
    BetweenIs(content, head, "\n" + text, tail);
  }

  lemma BetweenIs(s: string, a: string, b: string, c: string)
    requires s == a + (b + c)
    ensures |s| == |a| + |b| + |c| && s[|a|..|a| + |b|] == b
  {
  }

  lemma PlacedDisjoint(c: char, ts: seq<Token>, ms: seq<Section>)
    requires Sections(c, ms) && Tokenised(MarkerSet(ms), ts) && Placed(Markers(ts), ms)
    ensures Disjoint(Render(ts), ms)
  {
    forall m, o | m in ms && o in ms && m != o && m.Ordered(Render(ts))
      ensures NotWithin(Render(ts), m, o.startMarker) && NotWithin(Render(ts), m, o.endMarker)
    {
      assert Clear(Markers(ts), m, o);
      OrderedIn(c, MarkerSet(ms), ts, m);
      OutsideIn(c, MarkerSet(ms), ts, m, o.startMarker);
      OutsideIn(c, MarkerSet(ms), ts, m, o.endMarker);
    }
  }

  lemma OnceDisjoint(c: char, content: string, ms: seq<Section>, texts: Section -> string)
    requires Sections(c, ms) && Texts(ms, texts) && Disjoint(content, ms)
    ensures Disjoint(Update(content, ms, texts), ms)
  {
    var ts := Tokenise(c, MarkerSet(ms), content);
    DisjointPlaced(c, ts, ms);
    var next := OneUpdate(c, ms, ts, texts);
    AppliedPlaced(ts, ms, ms, texts);
    PlacedDisjoint(c, next, ms);
  }

  /** After an update of a document whose sections are disjoint, each section that was in order or
      absent is in order and holds its new text; one that was appended has a line break behind it. */
  lemma UpdateDelivers(c: char, content: string, ms: seq<Section>, texts: Section -> string, m: Section)
    requires Sections(c, ms) && Texts(ms, texts) && Disjoint(content, ms) && m in ms
    ensures var r := Update(content, ms, texts);
      && Disjoint(r, ms)
      && !m.Absent(r) && (m.Ordered(r) <==> m.Absent(content) || m.Ordered(content))
      && (m.Ordered(content) ==> Holds(r, m, "\n" + texts(m)))
      && (m.Absent(content) ==> Holds(r, m, "\n" + (texts(m) + "\n")))
  {
    var qs := MarkerSet(ms);
    var ts := Tokenise(c, qs, content);
    var j :| 0 <= j < |ms| && ms[j] == m;
    DisjointPlaced(c, ts, ms);
    var next := OneUpdate(c, ms, ts, texts);
    AppliedDelivers(ts, ms, ms, texts, j);
    OnceDisjoint(c, content, ms, texts);
    OrderedIn(c, qs, ts, m);
    OrderedIn(c, qs, next, m);
    var text := if m.Absent(content) then texts(m) + "\n" else texts(m);
    DeliveredClean(c, ms, texts, m);
    ReplaceRefines(c, qs, next, m, text);
    if m.Ordered(Render(next)) {
      UnchangedHolds(Render(next), m, text);
    }
  }

  lemma DeliveredClean(c: char, ms: seq<Section>, texts: Section -> string, m: Section)
    requires Sections(c, ms) && Texts(ms, texts) && m in ms
    ensures Clean(MarkerSet(ms), texts(m)) && Clean(MarkerSet(ms), texts(m) + "\n")
  {
    CleanBreak(c, MarkerSet(ms), texts(m), "");
    CleanEmpty(c, MarkerSet(ms));
    assert texts(m) + ("\n" + "") == texts(m) + "\n";
  }

  lemma HeldTextsDiffer(s: string, t: string, m: Section, text: string, other: string)
    requires Holds(s, m, text) && Holds(t, m, other) && |text| != |other|
    ensures s != t
  {
  }

  /** If the sections are disjoint and none is absent, an update leaves no trace of an earlier one. */
  lemma UpdateAbsorbs(c: char, content: string, ms: seq<Section>, es: Section -> string, fs: Section -> string)
    requires Sections(c, ms) && Texts(ms, es) && Texts(ms, fs) && Disjoint(content, ms)
    requires forall m | m in ms :: !m.Absent(content)
    ensures Update(Update(content, ms, es), ms, fs) == Update(content, ms, fs)
  {
    var ts := Tokenise(c, MarkerSet(ms), content);
    DisjointPlaced(c, ts, ms);
    forall m | m in ms
      ensures !Gone(Markers(ts), m)
    {
      OrderedIn(c, MarkerSet(ms), ts, m);
    }
    Absorbs(c, ts, ms, es, fs);
  }

  lemma Absorbs(c: char, ts: seq<Token>, ms: seq<Section>, es: Section -> string, fs: Section -> string)
    requires Sections(c, ms) && Texts(ms, es) && Texts(ms, fs) && Tokenised(MarkerSet(ms), ts)
    requires Placed(Markers(ts), ms) && forall m | m in ms :: !Gone(Markers(ts), m)
    ensures Update(Update(Render(ts), ms, es), ms, fs) == Update(Render(ts), ms, fs)
  {
    var next := OneUpdate(c, ms, ts, es);
    var once := OneUpdate(c, ms, ts, fs);
    var twice := OneUpdate(c, ms, next, fs);
    AppliedAbsorbs(ts, ms, ms, es, fs);
  }

  lemma AppendedThenTrimmed(c: char, content: string, ms: seq<Section>, texts: Section -> string, m: Section)
    requires Sections(c, ms) && Texts(ms, texts) && Disjoint(content, ms) && m in ms && m.Absent(content)
    ensures Update(Update(content, ms, texts), ms, texts) != Update(content, ms, texts)
  {
    var once := Update(content, ms, texts);
    var twice := Update(once, ms, texts);
    UpdateDelivers(c, content, ms, texts, m);
    UpdateDelivers(c, once, ms, texts, m);
    HeldTextsDiffer(once, twice, m, "\n" + (texts(m) + "\n"), "\n" + texts(m));
  }

  /** If the sections are disjoint, a second update with the same texts changes nothing exactly if no
      section was absent. */
  lemma SecondUpdateExactly(c: char, content: string, ms: seq<Section>, texts: Section -> string)
    requires Sections(c, ms) && Texts(ms, texts) && Disjoint(content, ms)
    ensures Update(Update(content, ms, texts), ms, texts) == Update(content, ms, texts) <==>
              forall m | m in ms :: !m.Absent(content)
  {
    if m :| m in ms && m.Absent(content) {
      AppendedThenTrimmed(c, content, ms, texts, m);
    } else {
      UpdateAbsorbs(c, content, ms, texts, texts);
    }
  }

  /** If the sections are disjoint, then after one update each further one leaves no trace of the one
      before it. */
  lemma OneUpdateSettles(c: char, content: string, ms: seq<Section>, texts: Section -> string,
                         es: Section -> string, fs: Section -> string)
    requires Sections(c, ms) && Texts(ms, texts) && Texts(ms, es) && Texts(ms, fs) && Disjoint(content, ms)
    ensures var once := Update(content, ms, texts); Update(Update(once, ms, es), ms, fs) == Update(once, ms, fs)
  {
    var once := Update(content, ms, texts);
    forall m | m in ms
      ensures !m.Absent(once)
    {
      UpdateDelivers(c, content, ms, texts, m);
    }
    OnceDisjoint(c, content, ms, texts);
    UpdateAbsorbs(c, once, ms, es, fs);
  }

  /* ---- one section leaves the others alone ---- */

  /** What the pieces from a start marker up to the end marker hold. */
  function Held(span: seq<Token>): string
    requires span != []
  {
    span[0].after + Render(span[1..])
  }

  lemma HeldAt(content: string, m: Section, front: string, inner: string, tail: string)
    requires content == front + (m.startMarker + (inner + tail)) && m.Ordered(content)
    requires Index(content, m.startMarker) == |front|
    requires Index(content, m.endMarker) == |front| + |m.startMarker| + |inner|
    ensures Holds(content, m, inner)
  {
    Assoc(front, m.startMarker, inner + tail);
    BetweenIs(content, front + m.startMarker, inner, tail);
  }

  lemma RenderBetween(ts: seq<Token>, s: nat, e: nat)
    requires s < e < |ts|
    ensures Render(ts) == Render(ts[..s]) + (ts[s].marker + (Held(ts[s..e]) + Render(ts[e..])))
    ensures |Render(ts[..e])| == |Render(ts[..s])| + |ts[s].marker| + |Held(ts[s..e])|
  {
    var span := ts[s..e];
    assert Render(span) == span[0].marker + Held(span);
    assert ts[..e] == ts[..s] + span && ts == ts[..e] + ts[e..];
    RenderJoin(ts[..s], span);
    RenderJoin(ts[..e], ts[e..]);
    Assoc(span[0].marker, Held(span), Render(ts[e..]));
    Assoc(Render(ts[..s]), Render(span), Render(ts[e..]));
  }

  lemma HoldsIn(c: char, qs: set<string>, ts: seq<Token>, m: Section, s: nat, e: nat)
    requires Fit(c, qs) && Tokenised(qs, ts) && m.startMarker in qs && m.endMarker in qs
    requires m.startMarker != m.endMarker && Spans(ts, m, s, e)
    ensures Holds(Render(ts), m, Held(ts[s..e]))
  {
    OrderedIn(c, qs, ts, m);
    RenderBetween(ts, s, e);
    HeldAt(Render(ts), m, Render(ts[..s]), Held(ts[s..e]), Render(ts[e..]));
  }

  lemma SliceLeft<T>(a: seq<T>, b: seq<T>, s: nat, e: nat)
    requires s <= e <= |a|
    ensures (a + b)[s..e] == a[s..e]
  {
  }

  lemma SliceRight<T>(a: seq<T>, b: seq<T>, s: nat, e: nat, n: nat)
    requires n == |a| <= s <= e <= |a| + |b|
    ensures (a + b)[s..e] == b[s - n..e - n]
  {
  }

  lemma CutKeeps(ts: seq<Token>, a: nat, b: nat, x: Token, s: nat, e: nat, k: nat, l: nat)
    requires a < b < |ts| && s < e < |ts|
    requires (e <= a && k == s && l == e) || (b <= s && k == s - (b - a - 1) && l == e - (b - a - 1))
    ensures Cut(ts, a, b, x)[k..l] == ts[s..e]
  {
    CutShape(ts, a, b, x);
    if e <= a {
      Assoc(ts[..a], [x], ts[b..]);
      SliceLeft(ts[..a], [x] + ts[b..], s, e);
    } else {
      SliceRight(ts[..a] + [x], ts[b..], k, l, a + 1);
      assert ts[b..][s - b..e - b] == ts[s..e];
    }
  }

  lemma SpanKeptByAppend(ts: seq<Token>, m: Section, text: string, s: nat, e: nat, k: nat, l: nat)
    requires Gone(Markers(ts), m) && s < e < |ts| && k == s && l == e
    ensures l <= |Replace(ts, m, text)| && Replace(ts, m, text)[k..l] == ts[s..e]
  {
    var more := [Token(m.startMarker, "\n" + text + "\n"), Token(m.endMarker, "\n")];
    var last := [Token(ts[|ts| - 1].marker, ts[|ts| - 1].after + "\n\n")];
    ExtendedShape(ts, "\n\n");
    Assoc(ts[..|ts| - 1], last, more);
    SliceLeft(ts[..|ts| - 1], last + more, s, e);
  }

  lemma SpanKeptByCut(ts: seq<Token>, m: Section, text: string, a: nat, b: nat, s: nat, e: nat, k: nat, l: nat)
    requires Spans(ts, m, a, b) && s < e < |ts|
    requires (e <= a && k == s && l == e) || (b <= s && k == s - (b - a - 1) && l == e - (b - a - 1))
    ensures l <= |Replace(ts, m, text)| && Replace(ts, m, text)[k..l] == ts[s..e]
  {
    ReplaceCuts(ts, m, text, a, b);
    CutKeeps(ts, a, b, Token(m.startMarker, "\n" + text), s, e, k, l);
  }

  lemma SpanKeptAsIs(ts: seq<Token>, m: Section, text: string, s: nat, e: nat, k: nat, l: nat)
    requires !Gone(Markers(ts), m) && !InOrder(Markers(ts), m) && s < e < |ts| && k == s && l == e
    ensures l <= |Replace(ts, m, text)| && Replace(ts, m, text)[k..l] == ts[s..e]
  {
    NotInOrder(ts, m, text);
  }

  lemma SpanMovedAside(ps: seq<string>, m: Section, o: Section, s: nat, e: nat, k: nat, l: nat)
    requires m.startMarker != m.endMarker && Differ(m, o) && InOrder(ps, o) && Clear(ps, m, o) && Clear(ps, o, m)
    requires s == First(ps, o.startMarker) && e == First(ps, o.endMarker)
    requires k == Moved(ps, m, s) && l == Moved(ps, m, e)
    ensures InOrder(ps, m) ==> var a, b := First(ps, m.startMarker), First(ps, m.endMarker);
              (e <= a && k == s && l == e) || (b <= s && k == s - (b - a - 1) && l == e - (b - a - 1))
    ensures !InOrder(ps, m) ==> k == s && l == e
  {
  }

  lemma SpanKept(ts: seq<Token>, m: Section, text: string, o: Section, s: nat, e: nat, k: nat, l: nat)
    requires m.startMarker != m.endMarker && Differ(m, o) && Spans(ts, o, s, e)
    requires Clear(Markers(ts), m, o) && Clear(Markers(ts), o, m)
    requires k == Moved(Markers(ts), m, s) && l == Moved(Markers(ts), m, e)
    ensures k < l <= |Replace(ts, m, text)| && Replace(ts, m, text)[k..l] == ts[s..e]
  {
    var ps := Markers(ts);
    SpanMovedAside(ps, m, o, s, e, k, l);
    if InOrder(ps, m) {
      SpanKeptByCut(ts, m, text, First(ps, m.startMarker), First(ps, m.endMarker), s, e, k, l);
    } else if Gone(ps, m) {
      SpanKeptByAppend(ts, m, text, s, e, k, l);
    } else {
      SpanKeptAsIs(ts, m, text, s, e, k, l);
    }
  }

  lemma KeepsHeld(c: char, qs: set<string>, ts: seq<Token>, m: Section, text: string, o: Section, s: nat, e: nat)
    requires Fit(c, qs) && Tokenised(qs, ts) && Clean(qs, text)
    requires m.startMarker in qs && m.endMarker in qs && o.startMarker in qs && o.endMarker in qs
    requires m.startMarker != m.endMarker && o.startMarker != o.endMarker && Differ(m, o) && Spans(ts, o, s, e)
    requires Clear(Markers(ts), m, o) && Clear(Markers(ts), o, m)
    ensures Holds(Render(Replace(ts, m, text)), o, Held(ts[s..e]))
  {
    var ps := Markers(ts);
    var k, l := Moved(ps, m, s), Moved(ps, m, e);
    FirstsAfter(ts, m, text, o);
    ReplaceMarkers(ts, m, text);
    SpanMoves(ps, m, s, e);
    SpanKept(ts, m, text, o, s, e, k, l);
    ReplaceTokenised(c, qs, ts, m, text);
    HoldsIn(c, qs, Replace(ts, m, text), o, k, l);
  }

  lemma SpanMoves(ps: seq<string>, m: Section, s: nat, e: nat)
    requires s < e < |ps| && m.startMarker != m.endMarker
    requires InOrder(ps, m) ==> var a, b := First(ps, m.startMarker), First(ps, m.endMarker);
               !(a < s < b) && !(a < e < b)
    ensures 0 <= Moved(ps, m, s) < Moved(ps, m, e) < |Step(ps, m)|
  {
    MovesKeepOrder(ps, m, s, e);
    MovesKeepOrder(ps, m, e, |ps|);
  }

  /** Replacing or appending a section leaves a disjoint one as it was. */
  lemma ReplaceKeepsOther(c: char, content: string, m: Section, text: string, o: Section, held: string)
    requires Sections(c, [m, o]) && Clean(MarkerSet([m, o]), text) && Disjoint(content, [m, o]) && Holds(content, o, held)
    ensures Holds(ReplaceSection(content, m, text), o, held)
  {
    var ms, qs := [m, o], MarkerSet([m, o]);
    assert ms[0] == m && ms[1] == o && ms[0] != ms[1];
    var ts := Tokenise(c, qs, content);
    DisjointPlaced(c, ts, ms);
    assert Clear(Markers(ts), m, o) && Clear(Markers(ts), o, m);
    KeepsOther(c, qs, ts, m, text, o, held);
  }

  lemma KeepsOther(c: char, qs: set<string>, ts: seq<Token>, m: Section, text: string, o: Section, held: string)
    requires Fit(c, qs) && Tokenised(qs, ts) && Clean(qs, text) && Holds(Render(ts), o, held)
    requires m.startMarker in qs && m.endMarker in qs && o.startMarker in qs && o.endMarker in qs
    requires m.startMarker != m.endMarker && o.startMarker != o.endMarker && Differ(m, o)
    requires Clear(Markers(ts), m, o) && Clear(Markers(ts), o, m)
    ensures Holds(ReplaceSection(Render(ts), m, text), o, held)
  {
    OrderedIn(c, qs, ts, o);
    var s, e := First(Markers(ts), o.startMarker), First(Markers(ts), o.endMarker);
    HoldsIn(c, qs, ts, o, s, e);
    HeldOnce(Render(ts), o, held, Held(ts[s..e]));
    KeepsHeld(c, qs, ts, m, text, o, s, e);
    ReplaceRefines(c, qs, ts, m, text);
  }

  lemma HeldOnce(content: string, m: Section, text: string, other: string)
    requires Holds(content, m, text) && Holds(content, m, other)
    ensures text == other
  {
  }

  /* ---- the generator's sections ---- */

  function NamedSections(names: seq<string>): (ms: seq<Section>)
    ensures |ms| == |names| && forall i | 0 <= i < |names| :: ms[i] == NamedSection(names[i])
  {
    seq(|names|, i requires 0 <= i < |names| => NamedSection(names[i]))
  }

  predicate Name(name: string) {
    name != "" && '<' !in name && '\n' !in name
  }

  /** Names that begin with different characters. */
  predicate Names(names: seq<string>) {
    && (forall i | 0 <= i < |names| :: Name(names[i]))
    && (forall i, j | 0 <= i < |names| && 0 <= j < |names| && names[i][..1] == names[j][..1] :: i == j)
  }

  function Word(opens: bool): (word: string)
    ensures '<' !in word && '\n' !in word && |word| > 4 && word[4] == if opens then 'S' else 'E'
  {
    if opens then "!-- START_" else "!-- END_"
  }

  lemma CommentsApart(opens: bool, name: string, other: bool, named: string)
    requires Name(name) && Name(named) && Comment(Word(opens), name) <= Comment(Word(other), named)
    ensures opens == other && name[..1] == named[..1]
  {
    CommentOpens(Word(opens), name);
    CommentOpens(Word(other), named);
    var c, d, k := Comment(Word(opens), name), Comment(Word(other), named), |Word(opens)| + 1;
    assert c[5] == d[5];
    NameInComment(Word(opens), name);
    NameInComment(Word(other), named);
    assert c[k] == d[k];
  }

  lemma NameInComment(word: string, name: string)
    requires name != ""
    ensures var c := Comment(word, name); |c| > |word| + 1 && c[|word| + 1] == name[0] && name[..1] == [name[0]]
  {
    var c := Comment(word, name);
    assert c[1..] == word + (name + " -->");
    assert (name + " -->")[0] == name[0];
  }

  lemma MarkerIsComment(names: seq<string>, q: string) returns (opens: bool, i: nat)
    requires q in MarkerSet(NamedSections(names))
    ensures i < |names| && q == Comment(Word(opens), names[i])
  {
    var ms := NamedSections(names);
    var m :| m in ms && (q == m.startMarker || q == m.endMarker);
    i :| 0 <= i < |ms| && ms[i] == m;
    opens := q == m.startMarker;
  }

  lemma NamedMarkersFit(names: seq<string>)
    requires Names(names)
    ensures Fit('<', MarkerSet(NamedSections(names)))
  {
    var qs := MarkerSet(NamedSections(names));
    forall q | q in qs
      ensures Opens('<', q)
    {
      var opens, i := MarkerIsComment(names, q);
      CommentOpens(Word(opens), names[i]);
    }
    forall p, q | p in qs && q in qs && p <= q
      ensures p == q
    {
      var opens, i := MarkerIsComment(names, p);
      var other, j := MarkerIsComment(names, q);
      CommentsApart(opens, names[i], other, names[j]);
    }
  }

  lemma NamedMarkersDiffer(name: string, named: string)
    requires Name(name) && Name(named)
    ensures NamedSection(name).startMarker != NamedSection(named).endMarker
    ensures name[..1] != named[..1] ==> Differ(NamedSection(name), NamedSection(named))
  {
    forall opens, other | Comment(Word(opens), name) == Comment(Word(other), named)
      ensures opens == other && name[..1] == named[..1]
    {
      CommentsApart(opens, name, other, named);
    }
    assert NamedSection(name) == Section(Comment(Word(true), name), Comment(Word(false), name));
    assert NamedSection(named) == Section(Comment(Word(true), named), Comment(Word(false), named));
  }

  /** Sections with such names are as the theorems above ask. */
  lemma NamedSectionsFit(names: seq<string>)
    requires Names(names)
    ensures Sections('<', NamedSections(names))
  {
    var ms := NamedSections(names);
    NamedMarkersFit(names);
    forall i | 0 <= i < |ms|
      ensures ms[i].startMarker != ms[i].endMarker
    {
      NamedMarkersDiffer(names[i], names[i]);
    }
    forall i, j | 0 <= i < |ms| && 0 <= j < |ms| && i != j
      ensures Differ(ms[i], ms[j])
    {
      NamedMarkersDiffer(names[i], names[j]);
    }
  }

  /** The three sections an update of the README goes through. */
  lemma GeneratorSectionsFit()
    ensures Sections('<', NamedSections(["DEPLOYMENTS_MAP", "STATUS_BADGES", "TIMESTAMP"]))
  {
    var names := ["DEPLOYMENTS_MAP", "STATUS_BADGES", "TIMESTAMP"];
    forall i | 0 <= i < |names|
      ensures names[i][..1] == [if i == 0 then 'D' else if i == 1 then 'S' else 'T']
    {
    }
    NamedSectionsFit(names);
  }
}
