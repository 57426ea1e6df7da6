/** The marker-delimited sections of the generated README. */
module ReadmeGenerator {
  import opened Text

  /** The two markers of one section. */
  datatype Section = Section(startMarker: string, endMarker: string)
  {
    /** What the generator's own marker pairs satisfy: neither contains a line break, the end
        marker does not open the start marker, and the character the end marker starts with
        occurs nowhere else in either. */
    predicate WellMarked() {
      && startMarker != "" && endMarker != ""
      && '\n' !in startMarker && '\n' !in endMarker
      && !(endMarker <= startMarker)
      && endMarker[0] !in startMarker[1..] && endMarker[0] !in endMarker[1..]
    }

    /** Both markers occur, the first start marker before the first end marker. */
    predicate Ordered(content: string) {
      Index(content, startMarker) != -1 && Index(content, startMarker) < Index(content, endMarker)
    }

    predicate Absent(content: string) {
      Index(content, startMarker) == -1 && Index(content, endMarker) == -1
    }
  }

  function ReplaceSection(content: string, m: Section, newContent: string): string {
    var s, e := Index(content, m.startMarker), Index(content, m.endMarker);
    if s == -1 || e == -1 || s >= e then
      if s == -1 && e == -1 then
        content + ("\n" + ("\n" + (m.startMarker + ("\n" + (newContent + ("\n" + (m.endMarker + "\n")))))))
      else content
    else
      content[..s + |m.startMarker|] + "\n" + newContent + content[e..]
  }

  /** A text cut by a line break: a pattern without one lies on one side of it. */
  lemma IndexAfterBreak(a: string, b: string, pat: string)
    requires pat != "" && '\n' !in pat
    requires forall i | 0 <= i <= |a| :: !OccursAt(a, pat, i)
    requires Index(b, pat) != -1
    ensures Index(a + ("\n" + b), pat) == |a| + 1 + Index(b, pat)
  {
    var t := a + ("\n" + b);
    var at := |a| + 1 + Index(b, pat);
    forall i | 0 <= i <= at
      ensures OccursAt(t, pat, i) <==> i == at
    {
      if i + |pat| <= |a| {
        OccursLeft(a, "\n" + b, pat, i);
      } else if i <= |a| {
        if OccursAt(t, pat, i) {
          CharAt(t, pat, i, |a|);
        }
      } else {
        OccursRight(a, "\n" + b, pat, i);
        OccursRight("\n", b, pat, i - |a|);
      }
    }
    IndexIs(t, pat, at);
  }

  /** A pattern that starts the tail is found there unless the text before it has one already. */
  lemma IndexBeforeTail(n: string, tail: string, pat: string)
    requires pat != "" && pat[0] !in pat[1..] && OccursAt(tail, pat, 0)
    ensures Index(n + tail, pat) == if Index(n, pat) == -1 then |n| else Index(n, pat)
  {
    var at := if Index(n, pat) == -1 then |n| else Index(n, pat);
    CharAt(tail, pat, 0, 0);
    forall i | 0 <= i <= at
      ensures OccursAt(n + tail, pat, i) <==> i == at
    {
      if i + |pat| <= |n| {
        OccursLeft(n, tail, pat, i);
      } else if i == |n| {
        OccursRight(n, tail, pat, i);
      } else if OccursAt(n + tail, pat, i) {
        CharAt(n + tail, pat, i, |n|);
      }
    }
    IndexIs(n + tail, pat, at);
  }

  /** The first occurrence lies in the kept head: what follows the head does not matter. */
  lemma IndexInHead(head: string, x: string, y: string, pat: string, s: nat)
    requires Index(head + x, pat) == s && s + |pat| <= |head|
    ensures Index(head + y, pat) == s
  {
    forall i | 0 <= i <= s
      ensures OccursAt(head + y, pat, i) <==> OccursAt(head + x, pat, i)
    {
      OccursLeft(head, x, pat, i);
      OccursLeft(head, y, pat, i);
    }
    IndexIs(head + y, pat, s);
  }

  lemma NoneInHead(head: string, x: string, pat: string)
    requires pat != "" && (Index(head + x, pat) == -1 || Index(head + x, pat) >= |head|)
    ensures forall i | 0 <= i <= |head| :: !OccursAt(head, pat, i)
  {
    forall i | 0 <= i <= |head|
      ensures !OccursAt(head, pat, i)
    {
      if i + |pat| <= |head| {
        OccursLeft(head, x, pat, i);
      }
    }
  }

  lemma MarkersApart(content: string, m: Section)
    requires m.WellMarked() && m.Ordered(content)
    ensures Index(content, m.startMarker) + |m.startMarker| <= Index(content, m.endMarker)
  {
    var s, e := Index(content, m.startMarker), Index(content, m.endMarker);
    if e < s + |m.startMarker| {
      CharAt(content, m.startMarker, s, e);
      CharAt(content, m.endMarker, e, e);
    }
  }

  /** The text up to and with the start marker, and the text from the end marker on. */
  function Head(content: string, m: Section): string
    requires m.Ordered(content)
  {
    content[..Index(content, m.startMarker) + |m.startMarker|]
  }

  function Tail(content: string, m: Section): string
    requires m.Ordered(content)
  {
    content[Index(content, m.endMarker)..]
  }

  lemma TailOpens(content: string, m: Section)
    requires m.Ordered(content)
    ensures OccursAt(Tail(content, m), m.endMarker, 0)
  {
    var e, n := Index(content, m.endMarker), |m.endMarker|;
    assert OccursAt(content, m.endMarker, e);
    assert content[e..][0..n] == content[e..e + n];
  }

  lemma ReplaceShape(content: string, m: Section, newContent: string)
    requires m.Ordered(content)
    ensures ReplaceSection(content, m, newContent) ==
              Head(content, m) + ("\n" + (newContent + Tail(content, m)))
  {
    var head, tail := Head(content, m), Tail(content, m);
    Assoc(head + "\n", newContent, tail);
    Assoc(head, "\n", newContent + tail);
  }

  /** Where the end marker is found in new content followed by the kept tail. */
  function EndOffset(m: Section, newContent: string): nat {
    if Index(newContent, m.endMarker) == -1 then |newContent| else Index(newContent, m.endMarker)
  }

  /** Replacing leaves both markers findable: the start marker where it was, the end marker at
      the first one in the new content, or else right behind it. */
  lemma ReplaceKeepsMarkers(content: string, m: Section, newContent: string)
    requires m.WellMarked() && m.Ordered(content)
    ensures var r := ReplaceSection(content, m, newContent);
      && m.Ordered(r)
      && Index(r, m.startMarker) == Index(content, m.startMarker)
      && Index(r, m.endMarker) == |Head(content, m)| + 1 + EndOffset(m, newContent)
  {
    MarkersApart(content, m);
    var s := Index(content, m.startMarker);
    var head, tail := Head(content, m), Tail(content, m);
    var between := content[|head|..];
    assert content == head + between;
    IndexInHead(head, between, "\n" + (newContent + tail), m.startMarker, s);
    NoneInHead(head, between, m.endMarker);
    TailOpens(content, m);
    IndexBeforeTail(newContent, tail, m.endMarker);
    IndexAfterBreak(head, newContent + tail, m.endMarker);
    ReplaceShape(content, m, newContent);
  }

  /** With both markers in order, what is outside them stays, a second pass changes nothing exactly
      when the new content does not contain the end marker, and otherwise every pass makes the
      document longer. */
  lemma SecondPassExactly(content: string, m: Section, newContent: string)
    requires m.WellMarked() && m.Ordered(content)
    ensures var once := ReplaceSection(content, m, newContent);
            var twice := ReplaceSection(once, m, newContent);
      && m.Ordered(once)
      && Head(once, m) == Head(content, m)
      && (Index(newContent, m.endMarker) == -1 ==> Tail(once, m) == Tail(content, m))
      && (twice == once <==> Index(newContent, m.endMarker) == -1)
      && (Index(newContent, m.endMarker) != -1 ==> |twice| > |once|)
  {
    var head, tail := Head(content, m), Tail(content, m);
    var once := ReplaceSection(content, m, newContent);
    var k := EndOffset(m, newContent);
    ReplaceKeepsMarkers(content, m, newContent);
    ReplaceShape(content, m, newContent);
    ReplaceShape(once, m, newContent);
    DropLeft(head, "\n" + (newContent + tail), 1 + k);
    DropLeft("\n", newContent + tail, k);
    if k == |newContent| {
      DropLeft(newContent, tail, 0);
      NotAtEnd(m, newContent);
    }
  }

  lemma NotAtEnd(m: Section, newContent: string)
    requires m.WellMarked() && EndOffset(m, newContent) == |newContent|
    ensures Index(newContent, m.endMarker) == -1
  {
  }

  /** A document without the section gets it appended, with both markers in order. */
  lemma AppendedSectionIsOrdered(content: string, m: Section, newContent: string)
    requires m.WellMarked() && m.Absent(content)
    ensures m.Ordered(ReplaceSection(content, m, newContent))
  {
    var s, e := m.startMarker, m.endMarker;
    var close := "\n" + (e + "\n");
    var body := newContent + close;
    var inner := s + ("\n" + body);
    OccursLeft(s, "\n" + body, s, 0);
    IndexIs(inner, s, 0);
    assert "" + ("\n" + inner) == "\n" + inner;
    IndexAfterBreak("", inner, s);
    IndexAfterBreak(content, "\n" + inner, s);

    assert OccursAt(body, e, |newContent| + 1) by {
      OccursLeft(e, "\n", e, 0);
      OccursRight("\n", e + "\n", e, 1);
      OccursRight(newContent, close, e, |newContent| + 1);
    }
    EndNotInStart(m);
    IndexAfterBreak(s, body, e);
    IndexAfterBreak("", inner, e);
    IndexAfterBreak(content, "\n" + inner, e);
  }

  lemma LineBehind(l: string, s: string)
    requires '\n' !in l
    ensures SplitLines(l + ("\n" + s)) == [l] + SplitLines(s)
  {
    SplitAround(l, s);
    SplitOfLine(l);
  }

  lemma SectionLines(m: Section, newContent: string)
    requires m.WellMarked()
    ensures SplitLines(m.startMarker + ("\n" + (newContent + ("\n" + (m.endMarker + "\n")))))
         == [m.startMarker] + (SplitLines(newContent) + [m.endMarker, ""])
  {
    LineBehind(m.startMarker, newContent + ("\n" + (m.endMarker + "\n")));
    SplitAround(newContent, m.endMarker + "\n");
    LineBehind(m.endMarker, "");
    assert "\n" + "" == "\n";
    assert [m.endMarker] + [""] == [m.endMarker, ""];
  }

  /** It is appended behind a blank line, on lines of its own: the start marker, the new content, the end
      marker. */
  lemma AppendedLines(content: string, m: Section, newContent: string)
    requires m.WellMarked() && m.Absent(content)
    ensures SplitLines(ReplaceSection(content, m, newContent))
         == SplitLines(content) + ([""] + ([m.startMarker] + (SplitLines(newContent) + [m.endMarker, ""])))
  {
    var section := m.startMarker + ("\n" + (newContent + ("\n" + (m.endMarker + "\n"))));
    SectionLines(m, newContent);
    BlankLine(section);
    SplitAround(content, "\n" + section);
  }

  lemma BlankLine(s: string)
    ensures SplitLines("\n" + s) == [""] + SplitLines(s)
  {
    SplitAround("", s);
    assert "" + ("\n" + s) == "\n" + s;
  }

  lemma EndNotInStart(m: Section)
    requires m.WellMarked()
    ensures forall i | 0 <= i <= |m.startMarker| :: !OccursAt(m.startMarker, m.endMarker, i)
  {
    forall i | 0 <= i <= |m.startMarker|
      ensures !OccursAt(m.startMarker, m.endMarker, i)
    {
      if OccursAt(m.startMarker, m.endMarker, i) {
        CharAt(m.startMarker, m.endMarker, i, i);
      }
    }
  }

  /** For every document: the third pass repeats the second exactly when the new content has no
      end marker, or the document has only one of the markers or has them in the wrong order, in
      which case no pass changes it. */
  lemma ThirdPassExactly(content: string, m: Section, newContent: string)
    requires m.WellMarked()
    ensures var once := ReplaceSection(content, m, newContent);
            var twice := ReplaceSection(once, m, newContent);
            (ReplaceSection(twice, m, newContent) == twice <==>
               Index(newContent, m.endMarker) == -1 || !(m.Ordered(content) || m.Absent(content)))
    ensures !m.Ordered(content) && !m.Absent(content) ==> ReplaceSection(content, m, newContent) == content
  {
    var once := ReplaceSection(content, m, newContent);
    if m.Ordered(content) {
      ReplaceKeepsMarkers(content, m, newContent);
      SecondPassExactly(once, m, newContent);
    } else if m.Absent(content) {
      AppendedSectionIsOrdered(content, m, newContent);
      SecondPassExactly(once, m, newContent);
    }
  }

  /** The generator's sections, by name: STATUS_BADGES, DEPLOYMENTS_MAP and TIMESTAMP. */
  function Comment(word: string, name: string): string {
    "<" + (word + (name + " -->"))
  }

  function NamedSection(name: string): Section {
    Section(Comment("!-- START_", name), Comment("!-- END_", name))
  }

  lemma CommentOpens(word: string, name: string)
    requires '<' !in word && '\n' !in word && '<' !in name && '\n' !in name
    ensures var c := Comment(word, name); c != "" && c[0] == '<' && '<' !in c[1..] && '\n' !in c
    ensures |word| > 4 ==> Comment(word, name)[5] == word[4]
  {
    var rest := word + (name + " -->");
    assert '<' !in rest && '\n' !in rest;
    DropLeft("<", rest, 0);
  }

  lemma NamedSectionsQualify(name: string)
    requires '<' !in name && '\n' !in name
    ensures NamedSection(name).WellMarked()
  {
    CommentOpens("!-- START_", name);
    CommentOpens("!-- END_", name);
    var m := NamedSection(name);
    assert m.startMarker[5] == 'S' && m.endMarker[5] == 'E';
  }
}
