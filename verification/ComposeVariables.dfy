/** Resolution of `${NAME}` and `${NAME:-default}` in compose values.  The program rewrites its
    own output from the start until no placeholder is left. */
module ComposeVariables {
  import opened Text

  /** The three places a variable can be defined, in order of precedence. */
  datatype Env = Env(root: map<string, string>, service: map<string, string>, files: seq<map<string, string>>)
  {
    /** No value contains the character. */
    ghost predicate Lacks(c: char) {
      && (forall k | k in root :: c !in root[k])
      && (forall k | k in service :: c !in service[k])
      && (forall i, k | 0 <= i < |files| && k in files[i] :: c !in files[i][k])
    }

    /** Some character of a placeholder occurs in no value. */
    ghost predicate Tame() {
      exists c | c in "${}" :: Lacks(c)
    }

    /** The values use only the given characters. */
    ghost predicate Over(allowed: set<char>) {
      forall c | c !in allowed :: Lacks(c)
    }
  }

  /** The value in the first file that defines the name, even if that value is empty. */
  function FirstDefinition(files: seq<map<string, string>>, name: string): string {
    if files == [] then ""
    else if name in files[0] then files[0][name]
    else FirstDefinition(files[1..], name)
  }

  function Lookup(env: Env, name: string): string {
    if name in env.root && env.root[name] != "" then env.root[name]
    else if name in env.service && env.service[name] != "" then env.service[name]
    else FirstDefinition(env.files, name)
  }

  /** The text between the braces: a name, or a name and a default. */
  function NameOf(expr: string): string {
    if Index(expr, ":-") > 0 then expr[..Index(expr, ":-")] else expr
  }

  function DefaultOf(expr: string): string {
    if Index(expr, ":-") > 0 then expr[Index(expr, ":-") + 2..] else ""
  }

  function Expand(env: Env, expr: string): string {
    if Lookup(env, NameOf(expr)) != "" then Lookup(env, NameOf(expr)) else DefaultOf(expr)
  }

  /** A text around its first placeholder. */
  datatype Cut = Whole | Cut(pre: string, body: string, rest: string)

  function FirstPlaceholder(s: string): Cut {
    var start := Index(s, "${");
    if start == -1 then Whole
    else
      var len := Index(s[start..], "}");
      if len == -1 then Whole
      else
        PlaceholderBounds(s, start);
        Cut(s[..start], s[start + 2..start + len], s[start + len + 1..])
  }

  /** The closing brace lies behind the opening one. */
  lemma PlaceholderBounds(s: string, start: nat)
    requires start <= |s| && OccursAt(s, "${", start) && Index(s[start..], "}") != -1
    ensures 2 <= Index(s[start..], "}") < |s| - start
    ensures s[start] == '$' && s[start + 1] == '{' && s[start + Index(s[start..], "}")] == '}'
  {
    CharAt(s, "${", start, start);
    CharAt(s, "${", start, start + 1);
    CharAt(s[start..], "}", Index(s[start..], "}"), Index(s[start..], "}"));
  }

  datatype Round = Stop | Next(text: string)

  /** One turn of the loop: the first placeholder is replaced, or there is none. */
  function Rewrite(env: Env, s: string): Round {
    match FirstPlaceholder(s)
    case Whole => Stop
    case Cut(pre, body, rest) => Next(pre + Expand(env, body) + rest)
  }

  /* ---- the loop ends ---- */

  function Count(s: string, c: char): nat {
    if s == "" then 0 else (if s[0] == c then 1 else 0) + Count(s[1..], c)
  }

  lemma {:induction false} CountAppend(a: string, b: string, c: char)
    ensures Count(a + b, c) == Count(a, c) + Count(b, c)
    decreases |a|
  {
    if a == "" {
      assert a + b == b;
    } else {
      CountAppend(a[1..], b, c);
      assert (a + b)[1..] == a[1..] + b;
    }
  }

  lemma {:induction false} CountZero(s: string, c: char)
    ensures Count(s, c) == 0 <==> c !in s
    decreases |s|
  {
    if s != "" {
      CountZero(s[1..], c);
      assert s == [s[0]] + s[1..];
    }
  }

  lemma {:induction false} FirstDefinitionLacks(files: seq<map<string, string>>, name: string, c: char)
    requires forall i, k | 0 <= i < |files| && k in files[i] :: c !in files[i][k]
    ensures c !in FirstDefinition(files, name)
    decreases |files|
  {
    if files != [] && name !in files[0] {
      forall i, k | 0 <= i < |files[1..]| && k in files[1..][i]
        ensures c !in files[1..][i][k]
      {
        assert files[1..][i] == files[i + 1];
      }
      FirstDefinitionLacks(files[1..], name, c);
    }
  }

  lemma LookupLacks(env: Env, name: string, c: char)
    requires env.Lacks(c)
    ensures c !in Lookup(env, name) && Count(Lookup(env, name), c) == 0
  {
    FirstDefinitionLacks(env.files, name, c);
    CountZero(Lookup(env, name), c);
  }

  /** What replaces a placeholder has no more of a character that no value contains than its body. */
  lemma ExpandCount(env: Env, expr: string, c: char)
    requires env.Lacks(c)
    ensures Count(Expand(env, expr), c) <= Count(expr, c)
  {
    if Lookup(env, NameOf(expr)) != "" {
      LookupLacks(env, NameOf(expr), c);
    } else if Index(expr, ":-") > 0 {
      assert expr == expr[..Index(expr, ":-") + 2] + DefaultOf(expr);
      CountAppend(expr[..Index(expr, ":-") + 2], DefaultOf(expr), c);
    }
  }

  lemma CountSplit(s: string, i: nat, j: nat, c: char)
    requires i <= j <= |s|
    ensures Count(s[i..], c) == Count(s[i..j], c) + Count(s[j..], c)
  {
    CountAppend(s[i..j], s[j..], c);
    assert s[i..] == s[i..j] + s[j..];
  }

  lemma CountAt(s: string, i: nat, c: char)
    requires i < |s|
    ensures Count(s[i..], c) == (if s[i] == c then 1 else 0) + Count(s[i + 1..], c)
  {
    assert s[i..][1..] == s[i + 1..];
  }

  lemma CountBeside(s: string, start: nat, end: nat, c: char)
    requires start + 2 <= end < |s| && c in [s[start], s[start + 1], s[end]]
    ensures Count(s[..start], c) + Count(s[start + 2..end], c) + Count(s[end + 1..], c) < Count(s, c)
  {
    assert s[0..] == s && s[0..start] == s[..start];
    CountSplit(s, 0, start, c);
    CountAt(s, start, c);
    CountAt(s, start + 1, c);
    CountSplit(s, start + 2, end, c);
    CountAt(s, end, c);
  }

  lemma CutCount(s: string, c: char)
    requires FirstPlaceholder(s).Cut? && c in "${}"
    ensures var cut := FirstPlaceholder(s); Count(cut.pre, c) + Count(cut.body, c) + Count(cut.rest, c) < Count(s, c)
  {
    var start := Index(s, "${");
    PlaceholderBounds(s, start);
    CountBeside(s, start, start + Index(s[start..], "}"), c);
  }

  /** Every turn loses at least the placeholder's own "$", "{" and "}", also when a default or a
      seam makes a new placeholder; so whichever of the three no value contains gets rarer. */
  lemma RewriteUsesUp(env: Env, s: string, c: char)
    requires env.Lacks(c) && c in "${}" && Rewrite(env, s).Next?
    ensures Count(Rewrite(env, s).text, c) < Count(s, c)
  {
    var cut := FirstPlaceholder(s);
    CutCount(s, c);
    ExpandCount(env, cut.body, c);
    CountAppend(cut.pre + Expand(env, cut.body), cut.rest, c);
    CountAppend(cut.pre, Expand(env, cut.body), c);
  }

  function Turn(env: Env): string -> Round {
    s => Rewrite(env, s)
  }

  /** `n` turns of a loop, unless it stopped earlier. */
  function Rounds(turn: string -> Round, s: string, n: nat): Round
    decreases n
  {
    if n == 0 then Next(s)
    else
      match turn(s)
      case Stop => Stop
      case Next(t) => Rounds(turn, t, n - 1)
  }

  ghost predicate Ends(turn: string -> Round, s: string) {
    exists n: nat :: Rounds(turn, s, n).Stop?
  }

  /** The loop ends with this text. */
  ghost predicate Yields(turn: string -> Round, s: string, t: string) {
    turn(t).Stop? && exists n: nat :: Rounds(turn, s, n) == Next(t)
  }

  lemma OneRound(turn: string -> Round, s: string, t: string, left: nat)
    requires turn(s) == Next(t) && Rounds(turn, s, left).Stop?
    ensures left > 0 && Rounds(turn, t, left - 1).Stop?
    ensures forall u :: Yields(turn, t, u) ==> Yields(turn, s, u)
  {
    forall u | Yields(turn, t, u)
      ensures Yields(turn, s, u)
    {
      var n: nat :| Rounds(turn, t, n) == Next(u);
      assert Rounds(turn, s, n + 1) == Next(u);
    }
  }

  lemma LastRound(turn: string -> Round, s: string)
    requires turn(s).Stop?
    ensures Yields(turn, s, s)
  {
    assert Rounds(turn, s, 0) == Next(s);
  }

  lemma {:induction false} RoundsStopAfter(turn: string -> Round, s: string, n: nat, t: string)
    requires turn(t).Stop? && Rounds(turn, s, n) == Next(t)
    ensures Rounds(turn, s, n + 1).Stop?
    decreases n
  {
    if n > 0 { RoundsStopAfter(turn, turn(s).text, n - 1, t); }
  }

  lemma {:induction false} RoundsAgree(turn: string -> Round, s: string, m: nat, n: nat, t: string, u: string)
    requires turn(t).Stop? && turn(u).Stop? && Rounds(turn, s, m) == Next(t) && Rounds(turn, s, n) == Next(u)
    ensures t == u
    decreases m
  {
    if m > 0 && n > 0 { RoundsAgree(turn, turn(s).text, m - 1, n - 1, t, u); }
  }

  /** A loop that yields a text ends, and yields no other. */
  lemma YieldsOne(turn: string -> Round, s: string, t: string)
    requires Yields(turn, s, t)
    ensures Ends(turn, s) && forall u :: Yields(turn, s, u) ==> u == t
  {
    var n: nat :| Rounds(turn, s, n) == Next(t);
    RoundsStopAfter(turn, s, n, t);
    forall u | Yields(turn, s, u)
      ensures u == t
    {
      var m: nat :| Rounds(turn, s, m) == Next(u);
      RoundsAgree(turn, s, m, n, u, t);
    }
  }

  predicate HasPlaceholder(s: string) {
    exists i, j | 0 <= i <= j < |s| :: OccursAt(s, "${", i) && s[j] == '}'
  }

  /** The loop stops exactly on texts without a placeholder. */
  lemma StopsExactly(s: string)
    ensures FirstPlaceholder(s).Whole? <==> !HasPlaceholder(s)
  {
    var start := Index(s, "${");
    if start != -1 {
      var len := Index(s[start..], "}");
      if len == -1 {
        forall i, j | 0 <= i <= j < |s| && OccursAt(s, "${", i)
          ensures s[j] != '}'
        {
          assert start <= i;
          assert !OccursAt(s[start..], "}", j - start);
          assert s[start..][j - start..j - start + 1] == [s[j]];
        }
      } else {
        PlaceholderBounds(s, start);
      }
    }
  }

  lemma TurnStopsExactly(env: Env, s: string)
    ensures Turn(env)(s).Stop? <==> !HasPlaceholder(s)
  {
    StopsExactly(s);
  }

  /** The lookup by precedence, level by level. */
  method LookupVariable(env: Env, varName: string) returns (value: string)
    ensures value == Lookup(env, varName)
  {
    value := "";
    if varName in env.root {
      value := env.root[varName];
    }
    if value == "" && varName in env.service {
      value := env.service[varName];
    }
    if value == "" {
      assert env.files[0..] == env.files;
      for i := 0 to |env.files|
        invariant value == "" && FirstDefinition(env.files, varName) == FirstDefinition(env.files[i..], varName)
      {
        assert env.files[i..][1..] == env.files[i + 1..];
        if varName in env.files[i] {
          value := env.files[i][varName];
          break;
        }
      }
    }
  }

  /** The value put in place of one placeholder. */
  method ExpandVariable(env: Env, varExpr: string) returns (value: string)
    ensures value == Expand(env, varExpr)
  {
    var varName, defaultVal;
    var idx := Index(varExpr, ":-");
    if idx > 0 {
      varName, defaultVal := varExpr[..idx], varExpr[idx + 2..];
    } else {
      varName, defaultVal := varExpr, "";
    }
    value := LookupVariable(env, varName);
    if value == "" {
      value := defaultVal;
    }
  }

  /** The body of the loop: find the first placeholder and put its value in its place. */
  method ReplaceFirst(text: string, env: Env) returns (found: bool, rewritten: string)
    ensures Rewrite(env, text) == if found then Next(rewritten) else Stop
    ensures found || !HasPlaceholder(text)
  {
    StopsExactly(text);
    var start := Index(text, "${");
    if start == -1 { return false, text; }
    var end := Index(text[start..], "}");
    if end == -1 { return false, text; }
    PlaceholderBounds(text, start);
    end := end + start;
    assert FirstPlaceholder(text) == Cut(text[..start], text[start + 2..end], text[end + 1..]);
    var value := ExpandVariable(env, text[start + 2..end]);
    found, rewritten := true, text[..start] + value + text[end + 1..];
  }

  /** The loop; `turn` is what one turn of it does. */
  method ReplaceAllFirst(input: string, env: Env, ghost turn: string -> Round) returns (result: string)
    requires (forall s {:trigger FirstPlaceholder(s)} :: turn(s) == Rewrite(env, s)) && Ends(turn, input)
    ensures Yields(turn, input, result) && !HasPlaceholder(result)
  {
    result := input;
    ghost var left: nat :| Rounds(turn, input, left).Stop?;
    while true
      invariant Rounds(turn, result, left).Stop?
      invariant forall t :: Yields(turn, result, t) ==> Yields(turn, input, t)
      decreases left
    {
      var found, rewritten := ReplaceFirst(result, env);
      assert turn(result) == (if found then Next(rewritten) else Stop) by {
        var _ := FirstPlaceholder(result);
      }
      if !found {
        LastRound(turn, result);
        break;
      }
      OneRound(turn, result, rewritten, left);
      result := rewritten;
      left := left - 1;
    }
  }

  /** Wherever the loop of the source ends, it ends with this result. */
  method ResolveVariables(input: string, env: Env) returns (result: string)
    requires Ends(Turn(env), input)
    ensures Yields(Turn(env), input, result)
    ensures !HasPlaceholder(result)
  {
    result := ReplaceAllFirst(input, env, Turn(env));
  }

  /* ---- when the loop ends ---- */

  ghost predicate UsesUp(turn: string -> Round, c: char) {
    forall s | turn(s).Next? :: Count(turn(s).text, c) < Count(s, c)
  }

  lemma {:induction false} UsingUpEnds(turn: string -> Round, c: char, s: string)
    requires UsesUp(turn, c)
    ensures Ends(turn, s)
    decreases Count(s, c)
  {
    if turn(s).Stop? {
      assert Rounds(turn, s, 1).Stop?;
    } else {
      var t := turn(s).text;
      UsingUpEnds(turn, c, t);
      var n: nat :| Rounds(turn, t, n).Stop?;
      assert Rounds(turn, s, n + 1).Stop?;
    }
  }

  lemma TameEnds(env: Env, s: string)
    requires env.Tame()
    ensures Ends(Turn(env), s)
  {
    var c :| c in "${}" && env.Lacks(c);
    forall t | Turn(env)(t).Next?
      ensures Count(Turn(env)(t).text, c) < Count(t, c)
    {
      RewriteUsesUp(env, t, c);
    }
    UsingUpEnds(Turn(env), c, s);
  }

  function Wrap(body: string): string {
    "${" + body + "}"
  }

  lemma EmptyEnds(w: string)
    ensures w + "" == w && "" + w == w
  {
  }

  /** The first placeholder behind a text without dollars is where it should be. */
  lemma PlaceholderAt(pre: string, body: string, rest: string)
    requires '$' !in pre && '}' !in body
    ensures var t := "${" + (body + ("}" + rest));
            Index(pre + t, "${") == |pre| && Index(t, "}") == |body| + 2
  {
    var u := body + ("}" + rest);
    var t := "${" + u;
    forall i | 0 <= i <= |pre|
      ensures OccursAt(pre + t, "${", i) <==> i == |pre|
    {
      OccursRight(pre, t, "${", |pre|);
      OccursLeft("${", u, "${", 0);
      if i < |pre| && OccursAt(pre + t, "${", i) { CharAt(pre + t, "${", i, i); }
    }
    IndexIs(pre + t, "${", |pre|);
    forall i | 0 <= i <= |body| + 2
      ensures OccursAt(t, "}", i) <==> i == |body| + 2
    {
      OccursRight("${", u, "}", |body| + 2);
      OccursRight(body, "}" + rest, "}", |body|);
      OccursLeft("}", rest, "}", 0);
      if i < |body| + 2 && OccursAt(t, "}", i) { CharAt(t, "}", i, i); }
    }
    IndexIs(t, "}", |body| + 2);
  }

  lemma FirstPlaceholderAt(pre: string, body: string, rest: string)
    requires '$' !in pre && '}' !in body
    ensures FirstPlaceholder(pre + ("${" + (body + ("}" + rest)))) == Cut(pre, body, rest)
  {
    var u := body + ("}" + rest);
    var t := "${" + u;
    PlaceholderAt(pre, body, rest);
    DropLeft(pre, t, 0);
    var end := |pre| + |body| + 2;
    assert (pre + t)[|pre| + 2..end] == body;
    assert (pre + t)[end + 1..] == rest;
  }

  /** Behind a text without dollars, the placeholder is the one that is rewritten. */
  lemma RewriteAt(env: Env, pre: string, body: string, rest: string)
    requires '$' !in pre && '}' !in body
    ensures Rewrite(env, pre + (Wrap(body) + rest)) == Next(pre + Expand(env, body) + rest)
  {
    FirstPlaceholderAt(pre, body, rest);
    assert Wrap(body) + rest == "${" + (body + ("}" + rest));
  }

  lemma SelfReferenceRewrites(env: Env, name: string)
    requires '}' !in name && Index(name, ":-") == -1
    requires Lookup(env, name) == Wrap(name)
    ensures Turn(env)(Wrap(name)) == Next(Wrap(name))
  {
    RewriteAt(env, "", name, "");
    assert Expand(env, name) == Wrap(name);
    EmptyEnds(Wrap(name));
  }

  lemma {:induction false} FixedTextStays(turn: string -> Round, t: string, n: nat)
    requires turn(t) == Next(t)
    ensures Rounds(turn, t, n) == Next(t)
  {
    if n > 0 { FixedTextStays(turn, t, n - 1); }
  }

  /** A variable whose value is a reference to itself is rewritten to itself without end. */
  lemma SelfReferenceNeverEnds(env: Env, name: string)
    requires '}' !in name && Index(name, ":-") == -1
    requires Lookup(env, name) == Wrap(name)
    ensures !Ends(Turn(env), Wrap(name))
  {
    SelfReferenceRewrites(env, name);
    forall n: nat
      ensures !Rounds(Turn(env), Wrap(name), n).Stop?
    {
      FixedTextStays(Turn(env), Wrap(name), n);
    }
  }

  /** Whatever the input, the loop ends with all values over a set of characters exactly if the set
      lacks "$", "{" or "}". */
  lemma EndsExactly(allowed: set<char>)
    ensures (forall env: Env, s | env.Over(allowed) :: Ends(Turn(env), s))
      <==> !('$' in allowed && '{' in allowed && '}' in allowed)
  {
    if '$' in allowed && '{' in allowed && '}' in allowed {
      var env := Env(map["" := Wrap("")], map[], []);
      assert Wrap("") == "${}";
      assert env.Over(allowed);
      SelfReferenceNeverEnds(env, "");
    } else {
      forall env: Env, s | env.Over(allowed)
        ensures Ends(Turn(env), s)
      {
        var c := if '$' !in allowed then '$' else if '{' !in allowed then '{' else '}';
        assert c in "${}" && env.Lacks(c);
        TameEnds(env, s);
      }
    }
  }
}
