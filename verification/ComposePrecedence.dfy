/** Which definition of a variable decides what a placeholder becomes, and which do not matter. */
module ComposePrecedence {
  import opened Text
  import opened ComposeVariables

  /* ---- the levels: root, service, then each file ---- */

  /** The level defines the name in a way that counts: an empty value counts in a file only. */
  predicate Decides(env: Env, name: string, level: nat, value: string) {
    if level == 0 then value != "" && name in env.root && env.root[name] == value
    else if level == 1 then value != "" && name in env.service && env.service[name] == value
    else level - 2 < |env.files| && name in env.files[level - 2] && env.files[level - 2][name] == value
  }

  /** The least level that decides gives this value, or there is none and it is empty. */
  ghost predicate Decided(env: Env, name: string, value: string) {
    || (exists level: nat :: Decides(env, name, level, value) && forall l: nat, v | l < level :: !Decides(env, name, l, v))
    || (value == "" && forall l: nat, v :: !Decides(env, name, l, v))
  }

  lemma {:induction false} FirstFile(files: seq<map<string, string>>, name: string) returns (k: nat)
    ensures k <= |files| && forall i | 0 <= i < k :: name !in files[i]
    ensures k < |files| ==> name in files[k] && FirstDefinition(files, name) == files[k][name]
    ensures k == |files| ==> FirstDefinition(files, name) == ""
    decreases |files|
  {
    if files == [] || name in files[0] {
      k := 0;
    } else {
      k := FirstFile(files[1..], name);
      k := k + 1;
      assert forall i | 0 < i < |files| :: files[i] == files[1..][i - 1];
    }
  }

  lemma LookupIsDecided(env: Env, name: string)
    ensures Decided(env, name, Lookup(env, name))
  {
    var k := FirstFile(env.files, name);
    var value := Lookup(env, name);
    if name in env.root && env.root[name] != "" {
      assert Decides(env, name, 0, value);
    } else if name in env.service && env.service[name] != "" {
      assert Decides(env, name, 1, value);
    } else if k < |env.files| {
      assert Decides(env, name, k + 2, value);
    }
  }

  lemma DecidedOnce(env: Env, name: string, a: string, b: string)
    requires Decided(env, name, a) && Decided(env, name, b)
    ensures a == b
  {
    if m: nat :| Decides(env, name, m, a) && forall l: nat, v | l < m :: !Decides(env, name, l, v) {
      if n: nat :| Decides(env, name, n, b) && forall l: nat, v | l < n :: !Decides(env, name, l, v) {
        assert m == n;
      }
    }
  }

  /* ---- one turn of the loop ---- */

  /** A name in front of the first ":-", and the default behind it. */
  predicate Splits(body: string, name: string, default: string) {
    name != "" && body == name + (":-" + default) && forall i | 0 <= i < |name| :: !OccursAt(body, ":-", i)
  }

  /** The text between the braces is a name with a default, or all of it is a name. */
  ghost predicate Means(body: string, name: string, default: string) {
    Splits(body, name, default) || (name == body && default == "" && forall n, d :: !Splits(body, n, d))
  }

  lemma SplitsExactly(body: string, name: string, default: string)
    ensures Splits(body, name, default) <==>
              Index(body, ":-") > 0 && name == NameOf(body) && default == DefaultOf(body)
  {
    var i := Index(body, ":-");
    if Splits(body, name, default) {
      OccursRight(name, ":-" + default, ":-", |name|);
      OccursLeft(":-", default, ":-", 0);
      IndexIs(body, ":-", |name|);
      DropLeft(name, ":-" + default, 2);
      DropLeft(":-", default, 0);
    }
    if i > 0 {
      assert body == body[..i] + (body[i..i + 2] + body[i + 2..]);
    }
  }

  lemma MeansExactly(body: string, name: string, default: string)
    ensures Means(body, name, default) <==> name == NameOf(body) && default == DefaultOf(body)
  {
    SplitsExactly(body, name, default);
    SplitsExactly(body, NameOf(body), DefaultOf(body));
    forall n, d
      ensures Splits(body, n, d) ==> Index(body, ":-") > 0
    {
      SplitsExactly(body, n, d);
    }
  }

  /** The first "${" of the text and the first "}" behind it. */
  predicate FirstIn(s: string, pre: string, body: string, rest: string) {
    && s == pre + ("${" + (body + ("}" + rest)))
    && '}' !in body && forall i | 0 <= i < |pre| :: !OccursAt(s, "${", i)
  }

  lemma EndBehind(body: string, rest: string)
    requires '}' !in body
    ensures Index("${" + (body + ("}" + rest)), "}") == |body| + 2
  {
    PlaceholderAt("", body, rest);
    EmptyEnds("${" + (body + ("}" + rest)));
  }

  lemma Around(pre: string, body: string, rest: string)
    ensures var s, end := pre + ("${" + (body + ("}" + rest))), |pre| + 2 + |body|;
      && end < |s| && s[..|pre|] == pre && s[|pre|..] == "${" + (body + ("}" + rest))
      && s[|pre| + 2..end] == body && s[end + 1..] == rest
  {
    var t := body + ("}" + rest);
    DropLeft(pre, "${" + t, 0);
    DropLeft(pre, "${" + t, 2);
    DropLeft("${", t, 0);
    assert t[..|body|] == body;
    var s := pre + ("${" + t);
    assert s[|pre| + 2..] == t;
    assert s[|pre| + 2..|pre| + 2 + |body|] == t[..|body|];
    DropLeft(body, "}" + rest, 1);
    assert s[|pre| + 2 + |body| + 1..] == t[|body| + 1..];
  }

  lemma FirstInIs(s: string, pre: string, body: string, rest: string)
    requires FirstIn(s, pre, body, rest)
    ensures FirstPlaceholder(s) == Cut(pre, body, rest)
  {
    OccursRight(pre, "${" + (body + ("}" + rest)), "${", |pre|);
    OccursLeft("${", body + ("}" + rest), "${", 0);
    IndexIs(s, "${", |pre|);
    EndBehind(body, rest);
    Around(pre, body, rest);
  }

  lemma CutApart(s: string, start: nat, end: nat)
    requires start + 2 <= end < |s| && s[start] == '$' && s[start + 1] == '{' && s[end] == '}'
    ensures s == s[..start] + ("${" + (s[start + 2..end] + ("}" + s[end + 1..])))
  {
    assert s[start..start + 2] == "${" && s[end..end + 1] == "}";
    assert s[end..] == s[end..end + 1] + s[end + 1..];
    assert s[start + 2..] == s[start + 2..end] + s[end..];
    assert s[start..] == s[start..start + 2] + s[start + 2..];
    assert s == s[..start] + s[start..];
  }

  lemma NoEndInside(s: string, start: nat, end: nat)
    requires start + 2 <= end < |s| && Index(s[start..], "}") == end - start
    ensures '}' !in s[start + 2..end]
  {
    var body := s[start + 2..end];
    forall j | 0 <= j < |body|
      ensures body[j] != '}'
    {
      assert !OccursAt(s[start..], "}", j + 2);
      assert s[start..][j + 2..j + 3] == [body[j]];
    }
  }

  lemma FirstInAt(s: string, start: nat, len: nat, pre: string, body: string, rest: string)
    requires 2 <= len < |s| - start && s[start] == '$' && s[start + 1] == '{' && s[start + len] == '}'
    requires Index(s, "${") == start && Index(s[start..], "}") == len
    requires pre == s[..start] && body == s[start + 2..start + len] && rest == s[start + len + 1..]
    ensures FirstIn(s, pre, body, rest)
  {
    CutApart(s, start, start + len);
    NoEndInside(s, start, start + len);
  }

  lemma CutIsFirst(s: string)
    requires FirstPlaceholder(s).Cut?
    ensures var cut := FirstPlaceholder(s); FirstIn(s, cut.pre, cut.body, cut.rest)
  {
    var cut := FirstPlaceholder(s);
    PlaceholderBounds(s, Index(s, "${"));
    FirstInAt(s, Index(s, "${"), Index(s[Index(s, "${")..], "}"), cut.pre, cut.body, cut.rest);
  }

  /** What a placeholder becomes: the value of the least level that decides its name, or the default if
      that value is empty. */
  ghost predicate Becomes(env: Env, body: string, value: string) {
    exists name, default, v :: Means(body, name, default) && Decided(env, name, v) && value == if v != "" then v else default
  }

  lemma BecomesExactly(env: Env, body: string, value: string)
    ensures Becomes(env, body, value) <==> value == Expand(env, body)
  {
    MeansExactly(body, NameOf(body), DefaultOf(body));
    LookupIsDecided(env, NameOf(body));
    if Becomes(env, body, value) {
      var name, default, v :| Means(body, name, default) && Decided(env, name, v) && value == if v != "" then v else default;
      MeansExactly(body, name, default);
      DecidedOnce(env, name, v, Lookup(env, name));
    }
  }

  /** One turn, for every environment and text: exactly the first placeholder becomes what its levels and
      its default say, and the text around it stays. */
  lemma TurnExactly(env: Env, s: string, t: string)
    ensures Turn(env)(s) == Next(t) <==>
              exists pre, body, rest, value :: FirstIn(s, pre, body, rest) && Becomes(env, body, value) && t == pre + value + rest
  {
    if Turn(env)(s) == Next(t) {
      var cut := FirstPlaceholder(s);
      CutIsFirst(s);
      BecomesExactly(env, cut.body, Expand(env, cut.body));
      assert FirstIn(s, cut.pre, cut.body, cut.rest) && Becomes(env, cut.body, Expand(env, cut.body));
    }
    if pre, body, rest, value :| FirstIn(s, pre, body, rest) && Becomes(env, body, value) && t == pre + value + rest {
      FirstInIs(s, pre, body, rest);
      BecomesExactly(env, body, value);
    }
  }

  /** A reference by itself resolves to the value of the least level that decides it. */
  lemma ReferenceResolves(env: Env, name: string, value: string)
    requires '}' !in name && '$' !in value && Means(name, name, "") && Decided(env, name, value)
    ensures Yields(Turn(env), Wrap(name), value)
  {
    MeansExactly(name, name, "");
    LookupIsDecided(env, name);
    DecidedOnce(env, name, value, Lookup(env, name));
    EmptyEnds(Wrap(name));
    EmptyEnds(value);
    RewriteAt(env, "", name, "");
    assert Rounds(Turn(env), Wrap(name), 1) == Next(value) by { assert Rounds(Turn(env), value, 0) == Next(value); }
    NoDollarStops(env, value);
  }

  lemma NoDollarStops(env: Env, s: string)
    requires '$' !in s
    ensures Turn(env)(s).Stop?
  {
    forall i | 0 <= i <= |s|
      ensures !OccursAt(s, "${", i)
    {
      if i < |s| { assert s[i] in s; }
      if OccursAt(s, "${", i) { CharAt(s, "${", i, i); }
    }
    assert !HasPlaceholder(s);
    TurnStopsExactly(env, s);
  }

  /* ---- definitions that do not matter ---- */

  predicate SameEntry(a: map<string, string>, b: map<string, string>, name: string) {
    (name in a <==> name in b) && (name in a && name in b ==> a[name] == b[name])
  }

  predicate Settles(m: map<string, string>, name: string) {
    name in m && m[name] != ""
  }

  /** The environments agree on a name down to the level that settles it. */
  predicate SameDownTo(a: Env, b: Env, name: string) {
    && SameEntry(a.root, b.root, name)
    && (Settles(a.root, name) ||
        (&& SameEntry(a.service, b.service, name)
         && (Settles(a.service, name) ||
             (|a.files| == |b.files| && forall i | 0 <= i < |a.files| :: SameEntry(a.files[i], b.files[i], name)))))
  }

  lemma SameFiles(a: Env, b: Env, name: string)
    requires |a.files| == |b.files| && forall i | 0 <= i < |a.files| :: SameEntry(a.files[i], b.files[i], name)
    ensures FirstDefinition(a.files, name) == FirstDefinition(b.files, name)
  {
    var k := FirstFile(a.files, name);
    var l := FirstFile(b.files, name);
    assert k < |a.files| ==> SameEntry(a.files[k], b.files[k], name);
    assert l < |b.files| ==> SameEntry(a.files[l], b.files[l], name);
  }

  lemma {:induction false} RoundsSame(a: string -> Round, b: string -> Round, s: string, n: nat)
    requires forall x :: a(x) == b(x)
    ensures Rounds(a, s, n) == Rounds(b, s, n)
    decreases n
  {
    if n > 0 && a(s).Next? { RoundsSame(a, b, a(s).text, n - 1); }
  }

  /** A service value and the files do not matter where the root settles a name, nor the files where the
      service does: for every text the loop ends or not alike, and with the same result. */
  lemma LowerLevelsDoNotMatter(a: Env, b: Env, s: string, t: string)
    requires forall name :: SameDownTo(a, b, name)
    ensures Ends(Turn(a), s) <==> Ends(Turn(b), s)
    ensures Yields(Turn(a), s, t) <==> Yields(Turn(b), s, t)
  {
    forall x
      ensures Turn(a)(x) == Turn(b)(x)
    {
      if FirstPlaceholder(x).Cut? { SameLookup(a, b, NameOf(FirstPlaceholder(x).body)); }
    }
    forall n: nat
      ensures Rounds(Turn(a), s, n) == Rounds(Turn(b), s, n)
    {
      RoundsSame(Turn(a), Turn(b), s, n);
    }
  }

  lemma SameLookup(a: Env, b: Env, name: string)
    requires SameDownTo(a, b, name)
    ensures Lookup(a, name) == Lookup(b, name)
  {
    if !Settles(a.root, name) && !Settles(a.service, name) { SameFiles(a, b, name); }
  }
}
