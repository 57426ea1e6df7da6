/** What taking comments out of a .env file and putting them back does to the file. */
module DotenvRoundTrip {
  import opened Text
  import opened Dotenv

  function RoundTrip(content: string): string {
    Reconstruct(Parse(content).cleaned, Parse(content).comments)
  }

  /** The lines of the file after its line endings are normalised. */
  function LinesOf(content: string): seq<string> {
    SplitLines(NormalizeNewlines(content))
  }

  predicate NoBlank(lines: seq<string>) {
    forall l | l in lines :: KindOf(l) != Blank
  }

  /** `m` interleaves exactly the assignments and the comments of `lines`, each in their order. */
  predicate Interleaves(m: seq<string>, lines: seq<string>) {
    && NoBlank(m)
    && Select(m, Assignment) == Select(lines, Assignment)
    && Select(m, Comment) == Select(lines, Comment)
  }

  /** No assignment, no final line break, and all the comments, at least one, come first. */
  predicate Ragged(content: string) {
    var lines, comments := LinesOf(content), Select(LinesOf(content), Comment);
    && Select(lines, Assignment) == [] && comments != [] && comments <= lines
    && !EndsWithNewline(NormalizeNewlines(content))
  }

  /* ---- lines and text ---- */

  lemma EmptyIsBlank()
    ensures KindOf("") == Blank
  {
  }

  lemma {:induction false} JoinSnoc(ls: seq<string>, l: string)
    requires ls != []
    ensures JoinLines(ls + [l]) == JoinLines(ls) + "\n" + l
    decreases |ls|
  {
    assert (ls + [l])[1..] == ls[1..] + [l];
    if |ls| == 1 {
      assert ls + [l] == [ls[0], l];
    } else {
      JoinSnoc(ls[1..], l);
      Assoc(ls[0] + "\n", JoinLines(ls[1..]) + "\n", l);
      Assoc(ls[0] + "\n", JoinLines(ls[1..]), "\n");
    }
  }

  lemma {:induction false} JoinEnd(ls: seq<string>)
    requires ls != []
    ensures ls[|ls| - 1] != "" ==> JoinLines(ls) != "" && JoinLines(ls)[|JoinLines(ls)| - 1] == ls[|ls| - 1][|ls[|ls| - 1]| - 1]
    decreases |ls|
  {
    if |ls| > 1 { JoinEnd(ls[1..]); }
  }

  /** A text ends in a line break exactly when its last line is empty and not its only one. */
  lemma NewlineAtEnd(text: string)
    ensures var ls := SplitLines(text);
            EndsWithNewline(text) <==> |ls| > 1 && ls[|ls| - 1] == ""
  {
    var ls := SplitLines(text);
    JoinOfSplit(text);
    if |ls| > 1 && ls[|ls| - 1] == "" {
      assert ls == ls[..|ls| - 1] + [""];
      JoinSnoc(ls[..|ls| - 1], "");
      assert text == JoinLines(ls[..|ls| - 1]) + "\n" + "";
    } else {
      JoinEnd(ls);
      assert ls[|ls| - 1] in ls;
    }
  }

  lemma {:induction false} SelectSubset(lines: seq<string>, kind: Kind)
    ensures forall l | l in Select(lines, kind) :: l in lines && KindOf(l) == kind
    decreases |lines|
  {
    if lines != [] { SelectSubset(lines[1..], kind); }
  }

  lemma {:induction false} SplitKeepsOut(s: string, c: char)
    requires c !in s
    ensures forall l | l in SplitLines(s) :: c !in l
    decreases |s|
  {
    if s != "" { SplitKeepsOut(s[1..], c); }
  }

  lemma {:induction false} JoinKeepsOut(ls: seq<string>, c: char)
    requires c != '\n' && forall l | l in ls :: c !in l
    ensures c !in JoinLines(ls)
    decreases |ls|
  {
    if |ls| > 1 { JoinKeepsOut(ls[1..], c); }
  }

  /** Lines as they come out of a normalised text. */
  predicate Plain(ls: seq<string>) {
    forall l | l in ls :: '\n' !in l && '\r' !in l
  }

  lemma LinesArePlain(content: string)
    ensures Plain(LinesOf(content)) && LinesOf(content) != []
    ensures JoinLines(LinesOf(content)) == NormalizeNewlines(content)
  {
    NormalizeFacts(content);
    SplitKeepsOut(NormalizeNewlines(content), '\r');
    JoinOfSplit(NormalizeNewlines(content));
  }

  /** Non-blank lines written out, with or without a final line break. */
  function Written(ls: seq<string>, newline: bool): string {
    if newline then JoinLines(ls) + "\n" else JoinLines(ls)
  }

  lemma WrittenBack(ls: seq<string>, newline: bool)
    requires Plain(ls) && NoBlank(ls)
    ensures NormalizeNewlines(Written(ls, newline)) == Written(ls, newline)
    ensures EndsWithNewline(Written(ls, newline)) == newline
    ensures !EndsWithNewline(JoinLines(ls))
    ensures SplitLines(Written(ls, newline)) == (if ls == [] then [""] else ls) + (if newline then [""] else [])
  {
    JoinKeepsOut(ls, '\r');
    NormalizeFacts(Written(ls, newline));
    EmptyIsBlank();
    if ls != [] {
      SplitOfJoin(ls);
      JoinEnd(ls);
      assert ls[|ls| - 1] in ls;
      if newline {
        SplitOfJoin(ls + [""]);
        JoinSnoc(ls, "");
        assert JoinLines(ls) + "\n" + "" == Written(ls, true);
      }
    } else {
      assert SplitLines("\n") == ["", ""] by { SplitCons("", ""); assert "" + "\n" + "" == "\n"; }
    }
  }

  /* ---- what is parsed ---- */

  lemma ParsedContent(content: string)
    ensures var a := Select(LinesOf(content), Assignment);
      && Plain(a) && NoBlank(a)
      && Parse(content).cleaned == Written(a, EndsWithNewline(NormalizeNewlines(content)))
  {
    LinesArePlain(content);
    SelectSubset(LinesOf(content), Assignment);
    WrittenBack(Select(LinesOf(content), Assignment), false);
  }

  /** The comment map holds exactly the comment lines under their numbers. */
  predicate Maps(m: map<int, string>, lines: seq<string>) {
    && (forall k :: k in m ==> 0 <= k < |lines| && KindOf(lines[k]) == Comment && m[k] == lines[k])
    && (forall k | 0 <= k < |lines| :: KindOf(lines[k]) == Comment ==> k in m)
  }

  lemma MapsGrow(m: map<int, string>, lines: seq<string>, i: nat)
    requires i < |lines| && Maps(m, lines[..i])
    ensures Maps(if KindOf(lines[i]) == Comment then m[i as int := lines[i]] else m, lines[..i + 1])
  {
    var m' := if KindOf(lines[i]) == Comment then m[i as int := lines[i]] else m;
    assert lines[..i + 1][i] == lines[i];
    forall k | 0 <= k < i
      ensures lines[..i + 1][k] == lines[..i][k]
    {}
  }

  lemma {:induction false} InfosMap(m: map<int, string>, lines: seq<string>, i: nat)
    requires i <= |lines| && Maps(m, lines[..i])
    ensures Maps(CommentMap(m, Infos(lines[i..], i)), lines)
    decreases |lines| - i
  {
    if i == |lines| {
      assert lines[..i] == lines;
    } else {
      InfosStep(lines, i);
      var infos, rest := Infos(lines[i..], i), Infos(lines[i + 1..], i + 1);
      MapsGrow(m, lines, i);
      if KindOf(lines[i]) == Comment {
        assert infos[1..] == rest;
        InfosMap(m[i as int := lines[i]], lines, i + 1);
      } else {
        assert infos == rest;
        InfosMap(m, lines, i + 1);
      }
    }
  }

  lemma {:induction false} InfosCount(lines: seq<string>, i: int)
    ensures |Infos(lines, i)| == |Select(lines, Comment)|
    decreases |lines|
  {
    if lines != [] { InfosCount(lines[1..], i + 1); }
  }

  /* ---- the weave ---- */

  lemma SelectCons(l: string, ls: seq<string>, kind: Kind)
    ensures Select([l] + ls, kind) == (if KindOf(l) == kind then [l] else []) + Select(ls, kind)
  {
    assert ([l] + ls)[1..] == ls;
  }

  lemma {:induction false} SelectNone(lines: seq<string>, kind: Kind)
    requires forall l | l in lines :: KindOf(l) != kind
    ensures Select(lines, kind) == []
    decreases |lines|
  {
    if lines != [] { SelectNone(lines[1..], kind); }
  }

  lemma {:induction false} SelectAll(lines: seq<string>, kind: Kind)
    requires forall l | l in lines :: KindOf(l) == kind
    ensures Select(lines, kind) == lines
    decreases |lines|
  {
    if lines != [] { SelectAll(lines[1..], kind); }
  }

  predicate AllOf(lines: seq<string>, kind: Kind) {
    forall l | l in lines :: KindOf(l) == kind
  }

  lemma {:induction false} RemainingIsAll(clean: seq<string>)
    requires AllOf(clean, Assignment)
    ensures Remaining(clean) == clean
    decreases |clean|
  {
    EmptyIsBlank();
    if clean != [] {
      assert clean[0] in clean;
      RemainingIsAll(clean[1..]);
    }
  }

  lemma NoCommentsBehind(m: map<int, string>, lines: seq<string>, maxLine: nat)
    requires Maps(m, lines) && maxLine < |lines| && forall k | k in m :: k <= maxLine
    ensures Select(lines[maxLine + 1..], Comment) == []
  {
    forall l | l in lines[maxLine + 1..]
      ensures KindOf(l) != Comment
    {
      var k :| 0 <= k < |lines[maxLine + 1..]| && lines[maxLine + 1..][k] == l;
      assert lines[k + maxLine + 1] == l;
    }
    SelectNone(lines[maxLine + 1..], Comment);
  }

  /** Whatever blanks the file has, the weave keeps all clean lines and all comments in order. */
  lemma {:induction false} WeaveKeepsBoth(m: map<int, string>, lines: seq<string>, i: nat, maxLine: nat, clean: seq<string>)
    requires Maps(m, lines) && maxLine < |lines| && (forall k | k in m :: k <= maxLine) && i <= maxLine + 1
    requires AllOf(clean, Assignment)
    ensures var w := Weave(m, i, maxLine, clean);
            NoBlank(w) && Select(w, Assignment) == clean && Select(w, Comment) == Select(lines[i..], Comment)
    decreases maxLine + 1 - i
  {
    EmptyIsBlank();
    if i == maxLine + 1 {
      RemainingIsAll(clean);
      SelectAll(clean, Assignment);
      SelectNone(clean, Comment);
      NoCommentsBehind(m, lines, maxLine);
    } else {
      SelectStep(lines, i, Comment);
      if i in m {
        WeaveKeepsBoth(m, lines, i + 1, maxLine, clean);
        var rest := Weave(m, i + 1, maxLine, clean);
        SelectCons(m[i], rest, Assignment);
        SelectCons(m[i], rest, Comment);
      } else if clean == [] {
        WeaveKeepsBoth(m, lines, i + 1, maxLine, clean);
      } else {
        assert clean[0] in clean;
        WeaveKeepsBoth(m, lines, i + 1, maxLine, clean[1..]);
        var rest := Weave(m, i + 1, maxLine, clean[1..]);
        SelectCons(clean[0], rest, Assignment);
        SelectCons(clean[0], rest, Comment);
      }
    }
  }

  lemma WeaveEnds(m: map<int, string>, lines: seq<string>, maxLine: nat)
    requires Maps(m, lines) && maxLine < |lines| && (forall k | k in m :: k <= maxLine) && NoBlank(lines)
    ensures Weave(m, maxLine + 1, maxLine, Select(lines[maxLine + 1..], Assignment)) == lines[maxLine + 1..]
  {
    EmptyIsBlank();
    NoCommentsBehind(m, lines, maxLine);
    OnlyAssignments(lines[maxLine + 1..]);
    RemainingIsAll(lines[maxLine + 1..]);
  }

  /** Without blank lines every line goes back to its place. */
  lemma {:induction false} WeaveRestores(m: map<int, string>, lines: seq<string>, i: nat, maxLine: nat)
    requires Maps(m, lines) && maxLine < |lines| && (forall k | k in m :: k <= maxLine) && i <= maxLine + 1
    requires NoBlank(lines)
    ensures Weave(m, i, maxLine, Select(lines[i..], Assignment)) == lines[i..]
    decreases maxLine + 1 - i
  {
    if i == maxLine + 1 {
      WeaveEnds(m, lines, maxLine);
    } else {
      WeaveRestores(m, lines, i + 1, maxLine);
      WeaveOne(m, lines, i, maxLine, Select(lines[i + 1..], Assignment));
      OneAndRest(lines, i);
    }
  }

  lemma OneAndRest(lines: seq<string>, i: nat)
    requires i < |lines|
    ensures lines[i..] == [lines[i]] + lines[i + 1..]
  {
  }

  /** One line goes back to its place. */
  lemma WeaveOne(m: map<int, string>, lines: seq<string>, i: nat, maxLine: nat, rest: seq<string>)
    requires Maps(m, lines) && maxLine < |lines| && i <= maxLine && NoBlank(lines)
    requires rest == Select(lines[i + 1..], Assignment)
    ensures Weave(m, i, maxLine, Select(lines[i..], Assignment)) == [lines[i]] + Weave(m, i + 1, maxLine, rest)
  {
    EmptyIsBlank();
    SelectStep(lines, i, Assignment);
    assert lines[i] in lines;
    if i in m {
      assert [] + rest == rest;
    } else {
      assert ([lines[i]] + rest)[1..] == rest;
    }
  }

  lemma {:induction false} OnlyAssignments(lines: seq<string>)
    requires NoBlank(lines) && Select(lines, Comment) == []
    ensures AllOf(lines, Assignment) && Select(lines, Assignment) == lines
    decreases |lines|
  {
    if lines != [] {
      assert lines[0] in lines;
      assert forall l | l in lines[1..] :: l in lines;
      OnlyAssignments(lines[1..]);
    }
  }

  lemma AllOfCons(l: string, ls: seq<string>, kind: Kind)
    ensures AllOf([l] + ls, kind) <==> KindOf(l) == kind && AllOf(ls, kind)
  {
    assert l in [l] + ls;
  }

  /** With nothing but the empty clean text, the comments come back, followed by an empty line
      unless some line before the last comment is not a comment. */
  lemma {:induction false} WeaveEmpty(m: map<int, string>, lines: seq<string>, i: nat, maxLine: nat)
    requires Maps(m, lines) && maxLine < |lines| && (forall k | k in m :: k <= maxLine) && i <= maxLine + 1
    ensures Weave(m, i, maxLine, [""]) ==
              Select(lines[i..], Comment) + (if AllOf(lines[i..maxLine + 1], Comment) then [""] else [])
    decreases maxLine + 1 - i
  {
    if i == maxLine + 1 {
      NoCommentsBehind(m, lines, maxLine);
      assert Remaining([""]) == [""];
    } else {
      SelectStep(lines, i, Comment);
      assert lines[i..maxLine + 1] == [lines[i]] + lines[i + 1..maxLine + 1];
      AllOfCons(lines[i], lines[i + 1..maxLine + 1], Comment);
      if i in m {
        WeaveEmpty(m, lines, i + 1, maxLine);
        var end := if AllOf(lines[i + 1..maxLine + 1], Comment) then [""] else [];
        Assoc([lines[i]], Select(lines[i + 1..], Comment), end);
      } else {
        assert [""][1..] == [];
        WeaveNothing(m, lines, i + 1, maxLine);
      }
    }
  }

  lemma {:induction false} WeaveNothing(m: map<int, string>, lines: seq<string>, i: nat, maxLine: nat)
    requires Maps(m, lines) && maxLine < |lines| && (forall k | k in m :: k <= maxLine) && i <= maxLine + 1
    ensures Weave(m, i, maxLine, []) == Select(lines[i..], Comment)
    decreases maxLine + 1 - i
  {
    if i == maxLine + 1 {
      NoCommentsBehind(m, lines, maxLine);
    } else {
      SelectStep(lines, i, Comment);
      WeaveNothing(m, lines, i + 1, maxLine);
    }
  }

  /* ---- one round trip ---- */

  predicate Ends(content: string) {
    EndsWithNewline(NormalizeNewlines(content))
  }

  function CommentsOf(content: string): map<int, string> {
    CommentMap(map[], Infos(LinesOf(content), 0))
  }

  function LastComment(content: string): int {
    MaxLine(Infos(LinesOf(content), 0))
  }

  /** The lines that come back. */
  function Merged(content: string): seq<string> {
    Weave(CommentsOf(content), 0, LastComment(content), Select(LinesOf(content), Assignment))
  }

  lemma MapFacts(content: string)
    ensures Maps(CommentsOf(content), LinesOf(content))
    ensures 0 <= LastComment(content) < |LinesOf(content)|
    ensures forall k | k in CommentsOf(content) :: k <= LastComment(content)
    ensures LastComment(content) == 0 || LastComment(content) in CommentsOf(content)
  {
    var lines := LinesOf(content);
    assert lines[..0] == [] && lines[0..] == lines;
    InfosMap(map[], lines, 0);
    MaxLineOfMap(map[], Infos(lines, 0));
  }

  lemma {:induction false} InSelection(lines: seq<string>, l: string)
    requires l in lines
    ensures l in Select(lines, KindOf(l))
    decreases |lines|
  {
    if lines[0] != l { InSelection(lines[1..], l); }
  }

  lemma MergedInterleaves(content: string)
    ensures Interleaves(Merged(content), LinesOf(content)) && Plain(Merged(content))
  {
    var lines, m := LinesOf(content), Merged(content);
    MapFacts(content);
    SelectSubset(lines, Assignment);
    assert lines[0..] == lines;
    WeaveKeepsBoth(CommentsOf(content), lines, 0, LastComment(content), Select(lines, Assignment));
    LinesArePlain(content);
    InterleavedArePlain(m, lines);
  }

  lemma InterleavedArePlain(m: seq<string>, lines: seq<string>)
    requires Interleaves(m, lines) && Plain(lines)
    ensures Plain(m)
  {
    forall l | l in m
      ensures '\n' !in l && '\r' !in l
    {
      InSelection(m, l);
      SelectSubset(lines, KindOf(l));
      assert l in lines;
    }
  }

  /** Interleaved lines are determined when one of the two kinds is missing. */
  lemma OneKindDetermines(m: seq<string>, lines: seq<string>)
    requires Interleaves(m, lines)
    ensures Select(lines, Comment) == [] ==> m == Select(lines, Assignment)
    ensures Select(lines, Assignment) == [] ==> m == Select(lines, Comment)
  {
    if Select(lines, Comment) == [] { OnlyAssignments(m); }
    if Select(lines, Assignment) == [] {
      forall l | l in m
        ensures KindOf(l) == Comment
      {
        InSelection(m, l);
      }
      SelectAll(m, Comment);
    }
  }

  lemma {:induction false} SelectAppend(a: seq<string>, b: seq<string>, kind: Kind)
    ensures Select(a + b, kind) == Select(a, kind) + Select(b, kind)
    decreases |a|
  {
    if a == [] {
      assert a + b == b;
    } else {
      var head := if KindOf(a[0]) == kind then [a[0]] else [];
      assert a == [a[0]] + a[1..] && a + b == [a[0]] + (a[1..] + b);
      SelectCons(a[0], a[1..] + b, kind);
      SelectCons(a[0], a[1..], kind);
      SelectAppend(a[1..], b, kind);
      Assoc(head, Select(a[1..], kind), Select(b, kind));
    }
  }

  /** The lines up to the last comment are all comments exactly when the comments come first. */
  lemma CommentsFirst(lines: seq<string>, last: nat)
    requires last < |lines| && Select(lines[last + 1..], Comment) == []
    requires Select(lines, Comment) <= lines ==> last < |Select(lines, Comment)|
    ensures AllOf(lines[..last + 1], Comment) <==> Select(lines, Comment) <= lines
  {
    if Select(lines, Comment) <= lines {
      PrefixOfSelection(lines, last + 1);
    } else if AllOf(lines[..last + 1], Comment) {
      PrefixIsSelection(lines, last + 1);
    }
  }

  lemma PrefixIsSelection(lines: seq<string>, n: nat)
    requires n <= |lines| && AllOf(lines[..n], Comment) && Select(lines[n..], Comment) == []
    ensures Select(lines, Comment) == lines[..n] && Select(lines, Comment) <= lines
  {
    assert lines == lines[..n] + lines[n..];
    SelectAppend(lines[..n], lines[n..], Comment);
    SelectAll(lines[..n], Comment);
  }

  lemma PrefixOfSelection(lines: seq<string>, n: nat)
    requires n <= |Select(lines, Comment)| && Select(lines, Comment) <= lines
    ensures AllOf(lines[..n], Comment)
  {
    var comments := Select(lines, Comment);
    SelectSubset(lines, Comment);
    forall l | l in lines[..n]
      ensures KindOf(l) == Comment
    {
      var k :| 0 <= k < n && lines[..n][k] == l;
      assert comments[k] == lines[k];
    }
  }

  lemma LastIsCovered(m: map<int, string>, lines: seq<string>, last: nat)
    requires Maps(m, lines) && last < |lines| && Select(lines, Comment) != [] && (last == 0 || last in m)
    requires Select(lines, Comment) <= lines
    ensures last < |Select(lines, Comment)|
  {
    var comments := Select(lines, Comment);
    var rest := lines[|comments|..];
    assert lines == comments + rest;
    SelectSubset(lines, Comment);
    SelectAppend(comments, rest, Comment);
    SelectAll(comments, Comment);
    assert |comments| + |Select(rest, Comment)| == |comments|;
    if last >= |comments| {
      assert rest[last - |comments|] == lines[last];
      InSelection(rest, lines[last]);
    }
  }

  /** What `Reconstruct` is handed after `Parse`: the assignment lines, or one empty line. */
  lemma HandedBack(content: string)
    ensures var a, clean := Select(LinesOf(content), Assignment), NormalizeNewlines(Parse(content).cleaned);
      && EndsWithNewline(clean) == Ends(content)
      && SplitLines(TrimNewline(clean)) == if a == [] then [""] else a
  {
    var a := Select(LinesOf(content), Assignment);
    ParsedContent(content);
    WrittenBack(a, Ends(content));
    WrittenBack(a, false);
    if Ends(content) { assert (JoinLines(a) + "\n")[..|JoinLines(a)|] == JoinLines(a); }
  }

  /** The result is the merged lines; a ragged file gains a final line break. */
  lemma RoundTripShape(content: string)
    ensures RoundTrip(content) == Written(Merged(content), Ends(content) || Ragged(content))
  {
    var lines := LinesOf(content);
    var a, c := Select(lines, Assignment), Select(lines, Comment);
    InfosCount(lines, 0);
    MergedInterleaves(content);
    if c == [] {
      OneKindDetermines(Merged(content), lines);
      ParsedContent(content);
    } else {
      HandedBack(content);
      if a == [] {
        CommentsOnlyShape(content);
      } else {
        WrittenBack(Merged(content), false);
      }
    }
  }

  lemma CommentsOnlyShape(content: string)
    requires Select(LinesOf(content), Assignment) == [] && Select(LinesOf(content), Comment) != []
    ensures RoundTrip(content) == Written(Merged(content), Ends(content) || Ragged(content))
  {
    var lines, last := LinesOf(content), LastComment(content);
    var c := Select(lines, Comment);
    InfosCount(lines, 0);
    HandedBack(content);
    MapFacts(content);
    MergedInterleaves(content);
    OneKindDetermines(Merged(content), lines);
    WrittenBack(c, false);
    NoCommentsBehind(CommentsOf(content), lines, last);
    if c <= lines { LastIsCovered(CommentsOf(content), lines, last); }
    CommentsFirst(lines, last);
    assert lines[0..] == lines && lines[0..last + 1] == lines[..last + 1];
    WeaveEmpty(CommentsOf(content), lines, 0, last);
    var woven := Weave(CommentsOf(content), 0, last, [""]);
    assert RoundTrip(content) == WithNewline(JoinLines(woven), Ends(content));
    if c <= lines {
      EmptyLineEnds(c, Ends(content));
    } else {
      assert c + [] == c;
    }
  }

  lemma EmptyLineEnds(ls: seq<string>, newline: bool)
    requires ls != []
    ensures WithNewline(JoinLines(ls + [""]), newline) == Written(ls, true)
  {
    JoinSnoc(ls, "");
    assert JoinLines(ls) + "\n" + "" == JoinLines(ls) + "\n";
  }

  /** Out and back, a file becomes an interleaving of exactly its assignments and its comments,
      with a final line break just where it had one; the one exception are ragged files. */
  lemma RoundTripMergesExactly(content: string)
    ensures (exists m :: Interleaves(m, LinesOf(content)) && RoundTrip(content) == Written(m, Ends(content)))
      <==> !Ragged(content)
  {
    MergedInterleaves(content);
    RoundTripShape(content);
    if Ragged(content) {
      forall m | Interleaves(m, LinesOf(content))
        ensures RoundTrip(content) != Written(m, Ends(content))
      {
        OneKindDetermines(m, LinesOf(content));
        OneKindDetermines(Merged(content), LinesOf(content));
      }
    }
  }

  /** Parsing the result gives the same text to encrypt, again except for ragged files. */
  lemma CleanedTextIsStable(content: string)
    ensures Parse(RoundTrip(content)).cleaned == Parse(content).cleaned <==> !Ragged(content)
  {
    var lines, m, r := LinesOf(content), Merged(content), RoundTrip(content);
    MergedInterleaves(content);
    RoundTripShape(content);
    var newline := Ends(content) || Ragged(content);
    WrittenBack(m, newline);
    ParsedContent(content);
    ParsedContent(r);
    EmptyIsBlank();
    BlankTail(m, newline);
    assert Select(LinesOf(r), Assignment) == Select(lines, Assignment);
  }

  lemma BlankTail(m: seq<string>, newline: bool)
    ensures forall kind | kind != Blank ::
              Select((if m == [] then [""] else m) + (if newline then [""] else []), kind) == Select(m, kind)
  {
    EmptyIsBlank();
    forall kind | kind != Blank
      ensures Select((if m == [] then [""] else m) + (if newline then [""] else []), kind) == Select(m, kind)
    {
      SelectAppend(if m == [] then [""] else m, if newline then [""] else [], kind);
      SelectNone([""], kind);
      assert Select(m, kind) + [] == Select(m, kind);
    }
  }

  /* ---- exact restoration ---- */

  /** The lines of the file without the empty string behind its final line break. */
  function Body(content: string): seq<string> {
    if Ends(content) then LinesOf(content)[..|LinesOf(content)| - 1] else LinesOf(content)
  }

  lemma BodyLines(content: string)
    ensures LinesOf(content) == Body(content) + (if Ends(content) then [""] else [])
    ensures Body(content) != [] && Written(Body(content), Ends(content)) == NormalizeNewlines(content)
  {
    NewlineAtEnd(NormalizeNewlines(content));
    LinesArePlain(content);
    if Ends(content) {
      JoinSnoc(Body(content), "");
      assert JoinLines(Body(content)) + "\n" + "" == JoinLines(Body(content)) + "\n";
    }
  }

  lemma BodyIsMerged(content: string)
    requires NoBlank(Body(content))
    ensures Merged(content) == Body(content)
  {
    var body, lines, m := Body(content), LinesOf(content), CommentsOf(content);
    BodyLines(content);
    MapFacts(content);
    EmptyIsBlank();
    assert forall k | 0 <= k < |body| :: lines[k] == body[k];
    assert Maps(m, body);
    BlankTail(body, Ends(content));
    assert body[0..] == body;
    WeaveRestores(m, body, 0, LastComment(content));
  }

  /** The normalised file comes back character for character exactly when it has no blank line
      before its end and is not ragged, or has no line at all. */
  lemma RoundTripRestoresExactly(content: string)
    ensures RoundTrip(content) == NormalizeNewlines(content)
      <==> (NoBlank(Body(content)) && !Ragged(content)) || NormalizeNewlines(content) in {"", "\n"}
  {
    var m, text := Merged(content), NormalizeNewlines(content);
    BodyLines(content);
    MergedInterleaves(content);
    RoundTripShape(content);
    WrittenBack(m, Ends(content) || Ragged(content));
    if NoBlank(Body(content)) {
      BodyIsMerged(content);
    }
    if text in {"", "\n"} {
      NoLines(content);
    }
    if RoundTrip(content) == text {
      if m == [] {
        assert "" + "\n" == "\n" && JoinLines(m) == "";
      } else {
        assert Body(content) == m;
      }
    }
  }

  lemma NoLines(content: string)
    requires NormalizeNewlines(content) in {"", "\n"}
    ensures Merged(content) == [] && !Ragged(content)
  {
    MergedInterleaves(content);
    WrittenBack([], NormalizeNewlines(content) == "\n");
    EmptyIsBlank();
    SelectNone(LinesOf(content), Comment);
    SelectNone(LinesOf(content), Assignment);
    OneKindDetermines(Merged(content), LinesOf(content));
  }

  /** A second round trip changes nothing, except for a file of comments without a final line
      break that does not begin with all of them: it only turns ragged the first time. */
  lemma SecondRoundTripExactly(content: string)
    ensures var lines := LinesOf(content);
            (RoundTrip(RoundTrip(content)) == RoundTrip(content) <==>
               Ragged(content) || Ends(content)
               || Select(lines, Assignment) != [] || Select(lines, Comment) == [])
  {
    var lines, m, r := LinesOf(content), Merged(content), RoundTrip(content);
    var newline := Ends(content) || Ragged(content);
    MergedInterleaves(content);
    RoundTripShape(content);
    WrittenBack(m, newline);
    BlankTail(m, newline);
    RoundTripShape(r);
    if m == [] {
      assert r in {"", "\n"};
      NoLines(r);
    } else {
      assert Body(r) == m;
      BodyIsMerged(r);
      OneKindDetermines(m, lines);
      assert Ragged(r) <==> !newline && Select(lines, Assignment) == [] && Select(lines, Comment) != [];
      if Ragged(r) && !newline {
        assert |Written(m, true)| > |Written(m, false)|;
      }
    }
  }

  /* ---- what is taken out ---- */

  lemma {:induction false} InfosExactly(lines: seq<string>, i: int, info: CommentInfo)
    ensures info in Infos(lines, i) <==>
              i <= info.lineNumber < i + |lines| && lines[info.lineNumber - i] == info.content && KindOf(info.content) == Comment
    decreases |lines|
  {
    if lines != [] {
      InfosExactly(lines[1..], i + 1, info);
      assert info.lineNumber > i && info.lineNumber < i + |lines| ==> lines[info.lineNumber - i] == lines[1..][info.lineNumber - i - 1];
    }
  }

  /** The comments taken out are exactly the lines that begin, after white space, with "#" or have no
      "=" without being blank, each under its own number. */
  lemma CommentsExactly(content: string, n: int, line: string)
    ensures CommentInfo(n, line) in Parse(content).comments <==>
              0 <= n < |LinesOf(content)| && LinesOf(content)[n] == line
              && exists i: nat :: FirstInk(line, i) && (line[i] == '#' || '=' !in line)
  {
    InfosExactly(LinesOf(content), 0, CommentInfo(n, line));
    KindExactly(line);
  }

  /** The lines of the cleaned text are exactly the assignments, if there are any. */
  lemma AssignmentsExactly(content: string, line: string)
    ensures line in Select(LinesOf(content), Assignment) <==>
              line in LinesOf(content) && '=' in line && exists i: nat :: FirstInk(line, i) && line[i] != '#'
  {
    InKind(LinesOf(content), line);
    KindExactly(line);
  }

  lemma {:induction false} InKind(lines: seq<string>, line: string)
    ensures line in Select(lines, Assignment) <==> line in lines && KindOf(line) == Assignment
    decreases |lines|
  {
    if lines != [] {
      InKind(lines[1..], line);
      assert line in lines <==> line == lines[0] || line in lines[1..] by { assert lines == [lines[0]] + lines[1..]; }
    }
  }

  /* ---- putting comments into a text that was edited meanwhile ---- */

  /** `r` takes its lines in order from the two lists, and all of them. */
  predicate Interleaved(r: seq<string>, xs: seq<string>, ys: seq<string>) {
    if r == [] then xs == [] && ys == []
    else
      || (xs != [] && r[0] == xs[0] && Interleaved(r[1..], xs[1..], ys))
      || (ys != [] && r[0] == ys[0] && Interleaved(r[1..], xs, ys[1..]))
  }

  /** The comments by line number. */
  function ByNumber(m: map<int, string>, i: int, maxLine: int): seq<string>
    decreases maxLine - i
  {
    if i > maxLine then [] else (if i in m then [m[i]] else []) + ByNumber(m, i + 1, maxLine)
  }

  function NonEmpty(ls: seq<string>): seq<string> {
    if ls == [] then [] else (if ls[0] != "" then [ls[0]] else []) + NonEmpty(ls[1..])
  }

  lemma {:induction false} RemainingIs(clean: seq<string>)
    ensures Remaining(clean) == NonEmpty(clean) + (if clean != [] && clean[|clean| - 1] == "" then [""] else [])
    decreases |clean|
  {
    if clean != [] {
      RemainingIs(clean[1..]);
      if clean[0] != "" {
        Assoc([clean[0]], NonEmpty(clean[1..]), if |clean| > 1 && clean[|clean| - 1] == "" then [""] else []);
      }
    }
  }

  lemma {:induction false} OneListInterleaved(ys: seq<string>)
    ensures Interleaved(ys, [], ys)
    decreases |ys|
  {
    if ys != [] { OneListInterleaved(ys[1..]); }
  }

  lemma {:induction false} WeaveInterleaves(m: map<int, string>, i: int, maxLine: int, clean: seq<string>) returns (ys: seq<string>)
    ensures ys == NonEmpty(clean) || ys == NonEmpty(clean) + [""]
    ensures Interleaved(Weave(m, i, maxLine, clean), ByNumber(m, i, maxLine), ys)
    decreases maxLine - i
  {
    if i > maxLine {
      RemainingIs(clean);
      ys := Remaining(clean);
      OneListInterleaved(ys);
    } else if i in m {
      ys := WeaveInterleaves(m, i + 1, maxLine, clean);
      TakeFirst(m[i], Weave(m, i + 1, maxLine, clean), ByNumber(m, i + 1, maxLine), ys);
    } else if clean == [] {
      ys := WeaveInterleaves(m, i + 1, maxLine, clean);
      assert [] + ByNumber(m, i + 1, maxLine) == ByNumber(m, i + 1, maxLine);
    } else {
      var rest := WeaveInterleaves(m, i + 1, maxLine, clean[1..]);
      assert [] + ByNumber(m, i + 1, maxLine) == ByNumber(m, i + 1, maxLine);
      if clean[0] != "" {
        ys := [clean[0]] + rest;
        TakeSecond(clean[0], Weave(m, i + 1, maxLine, clean[1..]), ByNumber(m, i + 1, maxLine), rest);
        Assoc([clean[0]], NonEmpty(clean[1..]), [""]);
      } else {
        ys := rest;
        assert [] + Weave(m, i + 1, maxLine, clean[1..]) == Weave(m, i + 1, maxLine, clean[1..]);
        assert [] + NonEmpty(clean[1..]) == NonEmpty(clean[1..]);
      }
    }
  }

  lemma TakeFirst(l: string, r: seq<string>, xs: seq<string>, ys: seq<string>)
    requires Interleaved(r, xs, ys)
    ensures Interleaved([l] + r, [l] + xs, ys)
  {
    assert ([l] + r)[1..] == r && ([l] + xs)[1..] == xs;
  }

  lemma TakeSecond(l: string, r: seq<string>, xs: seq<string>, ys: seq<string>)
    requires Interleaved(r, xs, ys)
    ensures Interleaved([l] + r, xs, [l] + ys)
  {
    assert ([l] + r)[1..] == r && ([l] + ys)[1..] == ys;
  }

  /** Whatever text the comments are put back into, the result interleaves, in order, all the comments by
      number with all lines of the text that are not empty, and at most one empty line at its end. */
  lemma ReconstructInterleaves(cleanContent: string, comments: seq<CommentInfo>) returns (r: seq<string>, ys: seq<string>)
    requires comments != []
    ensures var clean := NormalizeNewlines(cleanContent);
            var lines := SplitLines(TrimNewline(clean));
      && Reconstruct(cleanContent, comments) == WithNewline(JoinLines(r), EndsWithNewline(clean))
      && Interleaved(r, ByNumber(CommentMap(map[], comments), 0, MaxLine(comments)), ys)
      && (ys == NonEmpty(lines) || ys == NonEmpty(lines) + [""])
  {
    var m, lines := CommentMap(map[], comments), SplitLines(TrimNewline(NormalizeNewlines(cleanContent)));
    r := Weave(m, 0, MaxLine(comments), lines);
    ys := WeaveInterleaves(m, 0, MaxLine(comments), lines);
  }
}
