/** Comments of a .env file are taken out before encryption and put back after decryption, by the
    line numbers they had. */
module Dotenv {
  import opened Text

  /** `unicode.IsSpace`. */
  predicate IsSpace(c: char) {
    || '\t' <= c <= '\r' || c == ' ' || c == '\U{0085}' || c == '\U{00A0}' || c == '\U{1680}'
    || '\U{2000}' <= c <= '\U{200A}' || c == '\U{2028}' || c == '\U{2029}' || c == '\U{202F}'
    || c == '\U{205F}' || c == '\U{3000}'
  }

  function TrimLeft(s: string): string {
    if s != "" && IsSpace(s[0]) then TrimLeft(s[1..]) else s
  }

  function TrimRight(s: string): string {
    if s != "" && IsSpace(s[|s| - 1]) then TrimRight(s[..|s| - 1]) else s
  }

  function TrimSpace(s: string): string {
    TrimRight(TrimLeft(s))
  }

  /** A line without "=" that is not blank is treated as a comment too. */
  datatype Kind = Comment | Blank | Assignment

  function KindOf(line: string): Kind {
    var trimmed := TrimSpace(line);
    if HasPrefix(trimmed, "#") then Comment
    else if trimmed == "" then Blank
    else if '=' in trimmed then Assignment
    else Comment
  }

  /** The first character of the line that is not white space. */
  predicate FirstInk(line: string, i: nat) {
    i < |line| && !IsSpace(line[i]) && forall j | 0 <= j < i :: IsSpace(line[j])
  }

  lemma {:induction false} TrimLeftAt(s: string) returns (k: nat)
    ensures k <= |s| && TrimLeft(s) == s[k..] && forall j | 0 <= j < k :: IsSpace(s[j])
    ensures k < |s| ==> !IsSpace(s[k])
    decreases |s|
  {
    if s != "" && IsSpace(s[0]) {
      k := TrimLeftAt(s[1..]);
      k := k + 1;
      assert forall j | 0 < j < k :: s[j] == s[1..][j - 1];
    } else {
      k := 0;
    }
  }

  lemma {:induction false} TrimRightKeeps(s: string)
    ensures TrimRight(s) <= s && forall c | c in s && !IsSpace(c) :: c in TrimRight(s)
    ensures s != "" && !IsSpace(s[0]) ==> TrimRight(s) != "" && TrimRight(s)[0] == s[0]
    decreases |s|
  {
    if s != "" && IsSpace(s[|s| - 1]) {
      var front := s[..|s| - 1];
      TrimRightKeeps(front);
      assert s == front + [s[|s| - 1]];
    }
  }

  lemma TrimmedFacts(line: string)
    ensures '=' in TrimSpace(line) <==> '=' in line
    ensures TrimSpace(line) == "" <==> forall j | 0 <= j < |line| :: IsSpace(line[j])
    ensures forall i: nat | FirstInk(line, i) :: TrimSpace(line) != "" && TrimSpace(line)[0] == line[i]
  {
    var k := TrimLeftAt(line);
    TrimRightKeeps(line[k..]);
    assert line == line[..k] + line[k..];
    forall i: nat | FirstInk(line, i)
      ensures i == k
    {
      if k < |line| { assert !IsSpace(line[k]); }
    }
  }

  /** A line is an assignment exactly if it has a "=" and does not begin, after white space, with "#"; it
      is blank exactly if it is white space; all others are treated as comments. */
  lemma KindExactly(line: string)
    ensures KindOf(line) == Assignment <==> '=' in line && exists i: nat :: FirstInk(line, i) && line[i] != '#'
    ensures KindOf(line) == Blank <==> forall j | 0 <= j < |line| :: IsSpace(line[j])
    ensures KindOf(line) == Comment <==> exists i: nat :: FirstInk(line, i) && (line[i] == '#' || '=' !in line)
  {
    TrimmedFacts(line);
    var k := TrimLeftAt(line);
    if k < |line| { assert FirstInk(line, k); }
    forall i: nat | FirstInk(line, i)
      ensures i == k
    {
    }
  }

  datatype CommentInfo = CommentInfo(lineNumber: int, content: string)

  /** The lines of one kind, in order. */
  function Select(lines: seq<string>, kind: Kind): seq<string> {
    if lines == [] then []
    else (if KindOf(lines[0]) == kind then [lines[0]] else []) + Select(lines[1..], kind)
  }

  /** The comment lines with their numbers, the first line being number `i`. */
  function Infos(lines: seq<string>, i: int): seq<CommentInfo> {
    if lines == [] then []
    else (if KindOf(lines[0]) == Comment then [CommentInfo(i, lines[0])] else []) + Infos(lines[1..], i + 1)
  }

  datatype Parsed = Parsed(cleaned: string, comments: seq<CommentInfo>)

  function WithNewline(s: string, wanted: bool): string {
    if wanted && !EndsWithNewline(s) then s + "\n" else s
  }

  function Parse(content: string): Parsed {
    var text := NormalizeNewlines(content);
    var lines := SplitLines(text);
    Parsed(WithNewline(JoinLines(Select(lines, Assignment)), EndsWithNewline(text)), Infos(lines, 0))
  }

  /** One step along the lines. */
  lemma SelectStep(lines: seq<string>, i: nat, kind: Kind)
    requires i < |lines|
    ensures Select(lines[i..], kind) ==
              (if KindOf(lines[i]) == kind then [lines[i]] else []) + Select(lines[i + 1..], kind)
  {
    assert lines[i..][1..] == lines[i + 1..];
  }

  lemma InfosStep(lines: seq<string>, i: nat)
    requires i < |lines|
    ensures Infos(lines[i..], i) ==
              (if KindOf(lines[i]) == Comment then [CommentInfo(i, lines[i])] else []) + Infos(lines[i + 1..], i + 1)
  {
    assert lines[i..][1..] == lines[i + 1..];
  }

  /** What is collected grows by a line of its kind and by no other. */
  lemma SelectGrows(collected: seq<string>, lines: seq<string>, i: nat, kind: Kind)
    requires i < |lines|
    requires collected + Select(lines[i..], kind) == Select(lines, kind)
    ensures var grown := if KindOf(lines[i]) == kind then collected + [lines[i]] else collected;
            grown + Select(lines[i + 1..], kind) == Select(lines, kind)
  {
    SelectStep(lines, i, kind);
    Assoc(collected, [lines[i]], Select(lines[i + 1..], kind));
  }

  lemma InfosGrow(collected: seq<CommentInfo>, lines: seq<string>, i: nat)
    requires i < |lines|
    requires collected + Infos(lines[i..], i) == Infos(lines, 0)
    ensures var grown := if KindOf(lines[i]) == Comment then collected + [CommentInfo(i, lines[i])] else collected;
            grown + Infos(lines[i + 1..], i + 1) == Infos(lines, 0)
  {
    InfosStep(lines, i);
    Assoc(collected, [CommentInfo(i, lines[i])], Infos(lines[i + 1..], i + 1));
  }

  /** The loop over the lines. */
  method SeparateLines(lines: seq<string>) returns (cleanedLines: seq<string>, comments: seq<CommentInfo>)
    ensures cleanedLines == Select(lines, Assignment) && comments == Infos(lines, 0)
  {
    cleanedLines, comments := [], [];
    assert lines[0..] == lines;
    for i := 0 to |lines|
      invariant cleanedLines + Select(lines[i..], Assignment) == Select(lines, Assignment)
      invariant comments + Infos(lines[i..], i) == Infos(lines, 0)
    {
      var line := lines[i];
      SelectGrows(cleanedLines, lines, i, Assignment);
      InfosGrow(comments, lines, i);
      var trimmed := TrimSpace(line);
      if HasPrefix(trimmed, "#") {
        comments := comments + [CommentInfo(i, line)];
        continue;
      }
      if trimmed == "" {
        continue;
      }
      if '=' in trimmed {
        cleanedLines := cleanedLines + [line];
      } else {
        comments := comments + [CommentInfo(i, line)];
      }
    }
    assert lines[|lines|..] == [];
  }

  method ParseDotenvWithComments(content: string) returns (cleanedContent: string, comments: seq<CommentInfo>)
    ensures Parsed(cleanedContent, comments) == Parse(content)
  {
    var text := NormalizeNewlines(content);
    var cleanedLines;
    cleanedLines, comments := SeparateLines(SplitLines(text));
    cleanedContent := JoinLines(cleanedLines);
    if EndsWithNewline(text) && !EndsWithNewline(cleanedContent) {
      cleanedContent := cleanedContent + "\n";
    }
  }

  /* ---- putting comments back ---- */

  /** Later comments with the same line number replace earlier ones. */
  function CommentMap(m: map<int, string>, comments: seq<CommentInfo>): map<int, string>
    decreases |comments|
  {
    if comments == [] then m
    else CommentMap(m[comments[0].lineNumber := comments[0].content], comments[1..])
  }

  /** The comment that counts for a line number is the last one that has it. */
  lemma {:induction false} CommentMapExactly(m: map<int, string>, comments: seq<CommentInfo>, n: int, content: string)
    ensures n in CommentMap(m, comments) && CommentMap(m, comments)[n] == content <==>
              || (exists i | 0 <= i < |comments| :: comments[i] == CommentInfo(n, content)
                    && forall j | i < j < |comments| :: comments[j].lineNumber != n)
              || (n in m && m[n] == content && forall j | 0 <= j < |comments| :: comments[j].lineNumber != n)
    decreases |comments|
  {
    if comments != [] {
      var rest := comments[1..];
      assert forall j | 0 <= j < |rest| :: rest[j] == comments[j + 1];
      assert forall j | 0 < j < |comments| :: comments[j] == rest[j - 1];
      CommentMapExactly(m[comments[0].lineNumber := comments[0].content], rest, n, content);
    }
  }

  predicate IsMaxLine(m: map<int, string>, max: int) {
    max >= 0 && (max == 0 || max in m) && forall k | k in m :: k <= max
  }

  function MaxLine(comments: seq<CommentInfo>): int {
    if comments == [] then 0
    else
      var rest := MaxLine(comments[1..]);
      if comments[0].lineNumber > rest then comments[0].lineNumber else rest
  }

  lemma {:induction false} MaxLineOfMap(m: map<int, string>, comments: seq<CommentInfo>)
    ensures forall k | k in CommentMap(m, comments) :: k in m || k <= MaxLine(comments)
    ensures forall k | k in m :: k in CommentMap(m, comments)
    ensures MaxLine(comments) >= 0 && (MaxLine(comments) == 0 || MaxLine(comments) in CommentMap(m, comments))
    decreases |comments|
  {
    if comments != [] {
      MaxLineOfMap(m[comments[0].lineNumber := comments[0].content], comments[1..]);
    }
  }

  /** What is left of the clean lines behind the last comment. */
  function Remaining(clean: seq<string>): seq<string> {
    if clean == [] then []
    else (if clean[0] != "" || |clean| == 1 then [clean[0]] else []) + Remaining(clean[1..])
  }

  /** From line `i` on: a comment where there is one, the next clean line elsewhere. */
  function Weave(m: map<int, string>, i: int, maxLine: int, clean: seq<string>): seq<string>
    decreases maxLine - i
  {
    if i > maxLine then Remaining(clean)
    else if i in m then [m[i]] + Weave(m, i + 1, maxLine, clean)
    else if clean == [] then Weave(m, i + 1, maxLine, clean)
    else (if clean[0] != "" then [clean[0]] else []) + Weave(m, i + 1, maxLine, clean[1..])
  }

  function TrimNewline(s: string): string {
    if EndsWithNewline(s) then s[..|s| - 1] else s
  }

  function Reconstruct(cleanContent: string, comments: seq<CommentInfo>): string {
    if comments == [] then cleanContent
    else
      var clean := NormalizeNewlines(cleanContent);
      var woven := Weave(CommentMap(map[], comments), 0, MaxLine(comments), SplitLines(TrimNewline(clean)));
      WithNewline(JoinLines(woven), EndsWithNewline(clean))
  }

  /** The largest line number, found over the unordered entries of the map. */
  method FindMaxLine(m: map<int, string>) returns (maxLine: int)
    ensures IsMaxLine(m, maxLine)
  {
    maxLine := 0;
    var keys: set<int> := m.Keys;
    while keys != {}
      invariant keys <= m.Keys && maxLine >= 0 && (maxLine == 0 || maxLine in m)
      invariant forall k | k in m && k !in keys :: k <= maxLine
      decreases |keys|
    {
      assert exists k :: k in keys by { if !exists k :: k in keys { assert false; } }
      var lineNum: int :| lineNum in keys;
      if lineNum > maxLine { maxLine := lineNum; }
      keys := keys - {lineNum};
    }
  }

  /** The last loop: clean lines behind the last comment. */
  method RemainingLines(cleanLines: seq<string>) returns (result: seq<string>)
    ensures result == Remaining(cleanLines)
  {
    result := [];
    var cleanIndex := 0;
    assert cleanLines[0..] == cleanLines;
    while cleanIndex < |cleanLines|
      invariant 0 <= cleanIndex <= |cleanLines|
      invariant result + Remaining(cleanLines[cleanIndex..]) == Remaining(cleanLines)
    {
      assert cleanLines[cleanIndex..][1..] == cleanLines[cleanIndex + 1..];
      Assoc(result, [cleanLines[cleanIndex]], Remaining(cleanLines[cleanIndex + 1..]));
      if cleanLines[cleanIndex] != "" || cleanIndex == |cleanLines| - 1 {
        result := result + [cleanLines[cleanIndex]];
      }
      cleanIndex := cleanIndex + 1;
    }
  }

  /** The loop with the cursors `i` over line numbers and `cleanIndex` over clean lines. */
  method WeaveLines(commentMap: map<int, string>, maxLine: int, cleanLines: seq<string>) returns (result: seq<string>)
    requires maxLine >= 0
    ensures result == Weave(commentMap, 0, maxLine, cleanLines)
  {
    result := [];
    var cleanIndex := 0;
    assert cleanLines[0..] == cleanLines;
    ghost var woven := Weave(commentMap, 0, maxLine, cleanLines);
    var i := 0;
    while i <= maxLine
      invariant 0 <= i <= maxLine + 1 && 0 <= cleanIndex <= |cleanLines|
      invariant result + Weave(commentMap, i, maxLine, cleanLines[cleanIndex..]) == woven
    {
      if i in commentMap {
        Assoc(result, [commentMap[i]], Weave(commentMap, i + 1, maxLine, cleanLines[cleanIndex..]));
        result := result + [commentMap[i]];
      } else if cleanIndex < |cleanLines| {
        assert cleanLines[cleanIndex..][1..] == cleanLines[cleanIndex + 1..];
        Assoc(result, [cleanLines[cleanIndex]], Weave(commentMap, i + 1, maxLine, cleanLines[cleanIndex + 1..]));
        if cleanLines[cleanIndex] != "" {
          result := result + [cleanLines[cleanIndex]];
        }
        cleanIndex := cleanIndex + 1;
      }
      i := i + 1;
    }
    var rest := RemainingLines(cleanLines[cleanIndex..]);
    result := result + rest;
  }

  method ReconstructDotenvWithComments(cleanContent: string, comments: seq<CommentInfo>) returns (reconstructed: string)
    ensures reconstructed == Reconstruct(cleanContent, comments)
  {
    if comments == [] { return cleanContent; }
    var normalizedClean := NormalizeNewlines(cleanContent);
    var endsWithNewline := EndsWithNewline(normalizedClean);
    var cleanLines := SplitLines(TrimNewline(normalizedClean));

    var commentMap: map<int, string> := map[];
    assert comments[0..] == comments;
    for j := 0 to |comments|
      invariant CommentMap(commentMap, comments[j..]) == CommentMap(map[], comments)
    {
      assert comments[j..][1..] == comments[j + 1..];
      commentMap := commentMap[comments[j].lineNumber := comments[j].content];
    }
    var maxLine := FindMaxLine(commentMap);
    MaxLineOfMap(map[], comments);
    var result := WeaveLines(commentMap, maxLine, cleanLines);
    reconstructed := JoinLines(result);
    if endsWithNewline && !EndsWithNewline(reconstructed) {
      reconstructed := reconstructed + "\n";
    }
  }
}
