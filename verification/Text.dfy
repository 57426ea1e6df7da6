/** The string operations of the Go standard library that several components rely on. */
module Text {
  predicate OccursAt(s: string, pat: string, i: nat) {
    i + |pat| <= |s| && s[i..i + |pat|] == pat
  }

  /** `strings.Index`: the first place `pat` occurs at or after `from`, or -1. */
  function IndexFrom(s: string, pat: string, from: nat): (r: int)
    requires from <= |s|
    ensures r == -1 ==> forall i | from <= i <= |s| :: !OccursAt(s, pat, i)
    ensures r != -1 ==> from <= r <= |s| && OccursAt(s, pat, r) && forall i | from <= i < r :: !OccursAt(s, pat, i)
    decreases |s| - from
  {
    if OccursAt(s, pat, from) then from
    else if from == |s| then -1
    else IndexFrom(s, pat, from + 1)
  }

  function Index(s: string, pat: string): (r: int)
    ensures r == -1 ==> forall i | 0 <= i <= |s| :: !OccursAt(s, pat, i)
    ensures r != -1 ==> 0 <= r <= |s| && OccursAt(s, pat, r) && forall i | 0 <= i < r :: !OccursAt(s, pat, i)
  {
    IndexFrom(s, pat, 0)
  }

  lemma IndexIs(s: string, pat: string, at: nat)
    requires at <= |s| && OccursAt(s, pat, at)
    requires forall i | 0 <= i < at :: !OccursAt(s, pat, i)
    ensures Index(s, pat) == at
  {
  }

  lemma CharAt(s: string, pat: string, i: nat, j: nat)
    requires OccursAt(s, pat, i) && i <= j < i + |pat|
    ensures s[j] == pat[j - i] && pat[j - i] in pat
    ensures j > i ==> pat[j - i] in pat[1..]
  {
    assert s[i..i + |pat|][j - i] == s[j];
    if j > i {
      assert pat[1..][j - i - 1] == pat[j - i];
    }
  }

  lemma OccursLeft(a: string, b: string, pat: string, i: nat)
    requires i + |pat| <= |a|
    ensures OccursAt(a + b, pat, i) <==> OccursAt(a, pat, i)
  {
    assert (a + b)[i..i + |pat|] == a[i..i + |pat|];
  }

  lemma OccursRight(a: string, b: string, pat: string, i: nat)
    requires |a| <= i
    ensures OccursAt(a + b, pat, i) <==> OccursAt(b, pat, i - |a|)
  {
    if i + |pat| <= |a| + |b| {
      assert (a + b)[i..i + |pat|] == b[i - |a|..i - |a| + |pat|];
    }
  }

  lemma DropLeft(a: string, b: string, k: nat)
    requires k <= |b|
    ensures (a + b)[|a| + k..] == b[k..] && (a + b)[..|a|] == a
  {
  }

  predicate HasPrefix(s: string, pat: string) {
    pat <= s
  }

  predicate EndsWithNewline(s: string) {
    s != "" && s[|s| - 1] == '\n'
  }

  /** `strings.Split(s, "\n")`. */
  function SplitLines(s: string): (ls: seq<string>)
    ensures ls != [] && forall l | l in ls :: '\n' !in l
    decreases |s|
  {
    if s == "" then [""]
    else
      var rest := SplitLines(s[1..]);
      if s[0] == '\n' then [""] + rest else [[s[0]] + rest[0]] + rest[1..]
  }

  /** `strings.Join(ls, "\n")`. */
  function JoinLines(ls: seq<string>): string {
    if ls == [] then "" else if |ls| == 1 then ls[0] else ls[0] + "\n" + JoinLines(ls[1..])
  }

  lemma {:induction false} JoinOfSplit(s: string)
    ensures JoinLines(SplitLines(s)) == s
    decreases |s|
  {
    if s != "" {
      JoinOfSplit(s[1..]);
      var rest := SplitLines(s[1..]);
      if s[0] == '\n' {
        assert SplitLines(s)[1..] == rest;
      } else {
        assert SplitLines(s)[1..] == rest[1..];
      }
      assert s == [s[0]] + s[1..];
    }
  }

  lemma {:induction false} SplitCons(l: string, s: string)
    requires '\n' !in l
    ensures SplitLines(l + "\n" + s) == [l] + SplitLines(s)
    decreases |l|
  {
    if l == "" {
      assert l + "\n" + s == "\n" + s;
    } else {
      SplitCons(l[1..], s);
      assert (l + "\n" + s)[1..] == l[1..] + "\n" + s;
      assert [l[0]] + l[1..] == l;
    }
  }

  lemma {:induction false} SplitOfLine(l: string)
    requires '\n' !in l
    ensures SplitLines(l) == [l]
    decreases |l|
  {
    if l != "" {
      SplitOfLine(l[1..]);
      assert [l[0]] + l[1..] == l;
    }
  }

  lemma {:induction false} SplitOfJoin(ls: seq<string>)
    requires ls != [] && forall l | l in ls :: '\n' !in l
    ensures SplitLines(JoinLines(ls)) == ls
    decreases |ls|
  {
    if |ls| == 1 {
      SplitOfLine(ls[0]);
    } else {
      SplitOfJoin(ls[1..]);
      SplitCons(ls[0], JoinLines(ls[1..]));
    }
  }

  /** Where a single character occurs. */
  lemma IndexOfChar(s: string, c: char)
    ensures var i := Index(s, [c]);
            if i == -1 then c !in s else 0 <= i < |s| && s[i] == c && c !in s[..i]
  {
    forall j | 0 <= j < |s|
      ensures OccursAt(s, [c], j) <==> s[j] == c
    {
      assert s[j..j + 1] == [s[j]];
    }
  }

  lemma Assoc<T>(a: seq<T>, b: seq<T>, c: seq<T>)
    ensures (a + b) + c == a + (b + c)
  {
  }

  /** `strings.ReplaceAll`: left to right, without overlap. */
  function ReplaceAll(s: string, pat: string, sub: string): string
    requires pat != ""
    decreases |s|
  {
    if s == "" then ""
    else if HasPrefix(s, pat) then sub + ReplaceAll(s[|pat|..], pat, sub)
    else [s[0]] + ReplaceAll(s[1..], pat, sub)
  }

  /** The two replacements that turn every line ending into a line feed. */
  function NormalizeNewlines(s: string): string {
    ReplaceAll(ReplaceAll(s, "\r\n", "\n"), "\r", "\n")
  }

  lemma {:induction false} ReplaceAllAbsent(s: string, pat: string, sub: string)
    requires pat != "" && pat[0] !in s
    ensures ReplaceAll(s, pat, sub) == s
    decreases |s|
  {
    if s != "" {
      ReplaceAllAbsent(s[1..], pat, sub);
      assert s == [s[0]] + s[1..];
    }
  }

  lemma {:induction false} ReplaceAllRemoves(s: string, c: char, sub: string)
    requires c !in sub
    ensures c !in ReplaceAll(s, [c], sub)
    decreases |s|
  {
    if s != "" {
      ReplaceAllRemoves(s[1..], c, sub);
    }
  }

  /** Normalised text has no carriage return, and text without one is already normalised. */
  lemma NormalizeFacts(s: string)
    ensures '\r' !in NormalizeNewlines(s)
    ensures '\r' !in s ==> NormalizeNewlines(s) == s
  {
    ReplaceAllRemoves(ReplaceAll(s, "\r\n", "\n"), '\r', "\n");
    if '\r' !in s {
      ReplaceAllAbsent(s, "\r\n", "\n");
      ReplaceAllAbsent(s, "\r", "\n");
    }
  }

  /** Each line ending, "\r\n" or a single "\r" or "\n", becomes one line feed; nothing else changes. */
  lemma NormalizeSteps(s: string)
    requires s != ""
    ensures NormalizeNewlines(s) ==
              if "\r\n" <= s then "\n" + NormalizeNewlines(s[2..])
              else if s[0] == '\r' then "\n" + NormalizeNewlines(s[1..])
              else [s[0]] + NormalizeNewlines(s[1..])
  {
    var once := ReplaceAll(s, "\r\n", "\n");
    if "\r\n" <= s {
      assert once[1..] == ReplaceAll(s[2..], "\r\n", "\n");
    } else {
      assert once[1..] == ReplaceAll(s[1..], "\r\n", "\n") && once[0] == s[0];
    }
  }

  /** A character in front of the first line, or a line break. */
  function PushChar(c: char, ls: seq<string>): seq<string>
    requires ls != []
  {
    if c == '\n' then [""] + ls else [[c] + ls[0]] + ls[1..]
  }

  lemma SplitPush(s: string)
    requires s != ""
    ensures SplitLines(s) == PushChar(s[0], SplitLines(s[1..]))
  {
  }

  lemma PushAppend(c: char, a: seq<string>, b: seq<string>)
    requires a != []
    ensures PushChar(c, a + b) == PushChar(c, a) + b
  {
    assert (a + b)[1..] == a[1..] + b;
    if c == '\n' {
      Assoc([""], a, b);
    } else {
      Assoc([[c] + a[0]], a[1..], b);
    }
  }

  lemma {:induction false} SplitAround(a: string, b: string)
    ensures SplitLines(a + ("\n" + b)) == SplitLines(a) + SplitLines(b)
    decreases |a|
  {
    var s := a + ("\n" + b);
    SplitPush(s);
    if a == "" {
      assert s == "\n" + b;
      assert s[1..] == b;
    } else {
      assert s[1..] == a[1..] + ("\n" + b);
      SplitAround(a[1..], b);
      SplitPush(a);
      PushAppend(a[0], SplitLines(a[1..]), SplitLines(b));
    }
  }
}
