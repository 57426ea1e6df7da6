/** Templates of literals and placeholders: when resolving them by rescanning ends, and what it
    computes. */
module ComposeTemplates {
  import opened Text
  import opened ComposeVariables

  datatype Piece = Literal(text: string) | Ref(name: string) | RefOr(name: string, default: string)
  {
    predicate Plain() {
      match this
      case Literal(text) => '$' !in text
      case Ref(name) => '$' !in name && '}' !in name && Index(name, ":-") == -1
      case RefOr(name, default) =>
        && name != "" && '$' !in name && '}' !in name && Index(name, ":-") == -1
        && '$' !in default && '}' !in default
    }

    function Render(): string {
      match this
      case Literal(text) => text
      case Ref(name) => Wrap(name)
      case RefOr(name, default) => Wrap(name + (":-" + default))
    }

    /** The meaning of one piece, looked up once. */
    function Value(env: Env): string {
      match this
      case Literal(text) => text
      case Ref(name) => Lookup(env, name)
      case RefOr(name, default) => if Lookup(env, name) != "" then Lookup(env, name) else default
    }
  }

  function Render(ps: seq<Piece>): string {
    if ps == [] then "" else ps[0].Render() + Render(ps[1..])
  }

  function OnePass(env: Env, ps: seq<Piece>): string {
    if ps == [] then "" else ps[0].Value(env) + OnePass(env, ps[1..])
  }

  lemma DefaultAt(name: string, default: string)
    requires Index(name, ":-") == -1
    ensures Index(name + (":-" + default), ":-") == |name|
  {
    var body := name + (":-" + default);
    forall i | 0 <= i <= |name|
      ensures OccursAt(body, ":-", i) <==> i == |name|
    {
      OccursRight(name, ":-" + default, ":-", |name|);
      OccursLeft(":-", default, ":-", 0);
      if i + 2 <= |name| {
        OccursLeft(name, ":-" + default, ":-", i);
      } else if i < |name| && OccursAt(body, ":-", i) {
        CharAt(body, ":-", i, i + 1);
      }
    }
    IndexIs(body, ":-", |name|);
  }

  lemma ExpandPiece(env: Env, p: Piece)
    requires p.Plain() && !p.Literal?
    ensures var body := if p.Ref? then p.name else p.name + (":-" + p.default);
      && '}' !in body && p.Render() == Wrap(body) && Expand(env, body) == p.Value(env)
  {
    if p.RefOr? {
      var tail := ":-" + p.default;
      DefaultAt(p.name, p.default);
      DropLeft(p.name, tail, 2);
      assert tail[2..] == p.default;
    }
  }

  function Joined(f: Piece -> string, ps: seq<Piece>): string {
    if ps == [] then "" else f(ps[0]) + Joined(f, ps[1..])
  }

  lemma {:induction false} JoinedAppend(f: Piece -> string, a: seq<Piece>, b: seq<Piece>)
    ensures Joined(f, a + b) == Joined(f, a) + Joined(f, b)
    decreases |a|
  {
    if a == [] {
      assert a + b == b;
    } else {
      JoinedAppend(f, a[1..], b);
      assert (a + b)[1..] == a[1..] + b;
      Assoc(f(a[0]), Joined(f, a[1..]), Joined(f, b));
    }
  }

  function Rendering(): Piece -> string {
    (p: Piece) => p.Render()
  }

  lemma {:induction false} RenderIsJoined(ps: seq<Piece>)
    ensures Render(ps) == Joined(Rendering(), ps)
    decreases |ps|
  {
    if ps != [] { RenderIsJoined(ps[1..]); }
  }

  lemma RenderAppend(a: seq<Piece>, b: seq<Piece>)
    ensures Render(a + b) == Render(a) + Render(b)
  {
    RenderIsJoined(a);
    RenderIsJoined(b);
    RenderIsJoined(a + b);
    JoinedAppend(Rendering(), a, b);
  }

  predicate AllPlain(ps: seq<Piece>) {
    forall p | p in ps :: p.Plain()
  }

  /* ---- values that are templates themselves ---- */

  /** Every value is the rendering of a template; an unknown name has the empty one. */
  type Definitions = string -> seq<Piece>

  ghost predicate Defines(env: Env, def: Definitions) {
    forall name :: Lookup(env, name) == Render(def(name)) && AllPlain(def(name))
  }

  predicate Mentions(ps: seq<Piece>, name: string) {
    exists p | p in ps :: !p.Literal? && p.name == name
  }

  /** A variable ranks above those its value refers to. */
  ghost predicate Acyclic(def: Definitions, rank: string -> nat) {
    forall n, m | Mentions(def(n), m) :: rank(m) < rank(n)
  }

  /** What a placeholder is replaced by. */
  function Unfolded(def: Definitions, p: Piece): seq<Piece>
    requires !p.Literal?
  {
    if Render(def(p.name)) != "" then def(p.name) else if p.Ref? then [] else [Literal(p.default)]
  }

  predicate Bare(s: string) {
    '$' !in s
  }

  /** The loop unfolds the first placeholder of a rendered template, and stops without one. */
  ghost predicate Unfolds(turn: string -> Round, def: Definitions) {
    && (forall name :: AllPlain(def(name)))
    && (forall s {:trigger Bare(s)} | Bare(s) :: turn(s).Stop?)
    && (forall pre, p: Piece, tail {:trigger Unfolded(def, p), pre + (p.Render() + tail)} |
          '$' !in pre && p.Plain() && !p.Literal? ::
          turn(pre + (p.Render() + tail)) == Next(pre + (Render(Unfolded(def, p)) + tail)))
  }

  lemma UnfoldTurn(env: Env, def: Definitions, pre: string, p: Piece, tail: string)
    requires Defines(env, def) && p.Plain() && !p.Literal? && '$' !in pre
    ensures Turn(env)(pre + (p.Render() + tail)) == Next(pre + (Render(Unfolded(def, p)) + tail))
  {
    ExpandPiece(env, p);
    RewriteAt(env, pre, if p.Ref? then p.name else p.name + (":-" + p.default), tail);
    assert Render(Unfolded(def, p)) == p.Value(env) by {
      if p.RefOr? { EmptyEnds(p.default); }
    }
    Assoc(pre, p.Value(env), tail);
  }

  lemma DollarFreeStops(env: Env, s: string)
    requires '$' !in s
    ensures Turn(env)(s).Stop?
  {
    assert !HasPlaceholder(s) by {
      forall i | 0 <= i <= |s| && OccursAt(s, "${", i) ensures false { CharAt(s, "${", i, i); }
    }
    TurnStopsExactly(env, s);
  }

  lemma TurnUnfolds(env: Env, def: Definitions)
    requires Defines(env, def)
    ensures Unfolds(Turn(env), def)
  {
    forall s | Bare(s)
      ensures Turn(env)(s).Stop?
    {
      DollarFreeStops(env, s);
    }
    forall pre, p: Piece, tail | '$' !in pre && p.Plain() && !p.Literal?
      ensures Turn(env)(pre + (p.Render() + tail)) == Next(pre + (Render(Unfolded(def, p)) + tail))
    {
      UnfoldTurn(env, def, pre, p, tail);
    }
  }

  lemma PlainUnfolded(turn: string -> Round, def: Definitions, p: Piece)
    requires Unfolds(turn, def) && p.Plain() && !p.Literal?
    ensures AllPlain(Unfolded(def, p))
  {
  }

  /** What a template means when everything it refers to is expanded in turn. */
  ghost function Meaning(def: Definitions, rank: string -> nat, ps: seq<Piece>, bound: nat): string
    requires Acyclic(def, rank) && forall n | Mentions(ps, n) :: rank(n) < bound
    decreases bound, |ps|
  {
    if ps == [] then ""
    else
      var p := ps[0];
      assert !p.Literal? ==> Mentions(ps, p.name);
      assert forall n | Mentions(ps[1..], n) :: Mentions(ps, n);
      (if p.Literal? then p.text
       else if Render(def(p.name)) != "" then Meaning(def, rank, def(p.name), rank(p.name))
       else if p.Ref? then "" else p.default)
      + Meaning(def, rank, ps[1..], bound)
  }

  lemma {:induction false} MeaningDollarFree(turn: string -> Round, def: Definitions, rank: string -> nat, ps: seq<Piece>, bound: nat)
    requires Unfolds(turn, def) && AllPlain(ps)
    requires Acyclic(def, rank) && forall n | Mentions(ps, n) :: rank(n) < bound
    ensures '$' !in Meaning(def, rank, ps, bound)
    decreases bound, |ps|
  {
    if ps != [] {
      var p := ps[0];
      assert p.Plain() && (!p.Literal? ==> Mentions(ps, p.name));
      assert forall n | Mentions(ps[1..], n) :: Mentions(ps, n);
      if !p.Literal? && Render(def(p.name)) != "" {
        MeaningDollarFree(turn, def, rank, def(p.name), rank(p.name));
      }
      MeaningDollarFree(turn, def, rank, ps[1..], bound);
    }
  }

  ghost predicate Leads(turn: string -> Round, s: string, t: string) {
    exists n: nat :: Rounds(turn, s, n) == Next(t)
  }

  lemma {:induction false} RoundsAdd(turn: string -> Round, s: string, m: nat, t: string, n: nat)
    requires Rounds(turn, s, m) == Next(t)
    ensures Rounds(turn, s, m + n) == Rounds(turn, t, n)
    decreases m
  {
    if m > 0 { RoundsAdd(turn, turn(s).text, m - 1, t, n); }
  }

  lemma LeadsOn(turn: string -> Round, s: string, t: string, u: string)
    requires Leads(turn, s, t) && Leads(turn, t, u)
    ensures Leads(turn, s, u)
  {
    var m: nat :| Rounds(turn, s, m) == Next(t);
    var n: nat :| Rounds(turn, t, n) == Next(u);
    RoundsAdd(turn, s, m, t, n);
    assert Rounds(turn, s, m + n) == Next(u);
  }

  lemma LeadsStep(turn: string -> Round, s: string, t: string)
    requires turn(s) == Next(t)
    ensures Leads(turn, s, t)
  {
    assert Rounds(turn, s, 1) == Next(t) by { assert Rounds(turn, t, 0) == Next(t); }
  }

  lemma LeadsSelf(turn: string -> Round, s: string)
    ensures Leads(turn, s, s)
  {
    assert Rounds(turn, s, 0) == Next(s);
  }

  /** Behind a text without dollars, a rendered template is replaced by its meaning, whatever follows. */
  lemma {:induction false} Scan(turn: string -> Round, def: Definitions, rank: string -> nat, pre: string, ps: seq<Piece>, tail: string, bound: nat)
    requires Unfolds(turn, def) && AllPlain(ps) && '$' !in pre
    requires Acyclic(def, rank) && forall n | Mentions(ps, n) :: rank(n) < bound
    ensures Leads(turn, pre + (Render(ps) + tail), (pre + Meaning(def, rank, ps, bound)) + tail)
    decreases bound, |ps|
  {
    if ps == [] {
      assert "" + tail == tail && pre + "" == pre;
      LeadsSelf(turn, pre + tail);
    } else {
      var p, rest := ps[0], ps[1..];
      assert p.Plain() && (!p.Literal? ==> Mentions(ps, p.name));
      assert forall n | Mentions(rest, n) :: Mentions(ps, n);
      var tail', last := Render(rest) + tail, Meaning(def, rank, rest, bound);
      Assoc(p.Render(), Render(rest), tail);
      var value := ScanPiece(turn, def, rank, pre, ps, tail', bound);
      Assoc(pre, value, last);
      Scan(turn, def, rank, pre + value, rest, tail, bound);
      LeadsOn(turn, pre + (p.Render() + tail'), (pre + value) + tail', ((pre + value) + last) + tail);
    }
  }

  lemma {:induction false} ScanPiece(turn: string -> Round, def: Definitions, rank: string -> nat, pre: string, ps: seq<Piece>, tail: string, bound: nat)
    returns (value: string)
    requires Unfolds(turn, def) && AllPlain(ps) && '$' !in pre && ps != []
    requires Acyclic(def, rank) && forall n | Mentions(ps, n) :: rank(n) < bound
    ensures (forall n | Mentions(ps[1..], n) :: rank(n) < bound) && '$' !in value
    ensures Meaning(def, rank, ps, bound) == value + Meaning(def, rank, ps[1..], bound)
    ensures Leads(turn, pre + (ps[0].Render() + tail), (pre + value) + tail)
    decreases bound, |ps|, 0
  {
    var p := ps[0];
    assert p.Plain() && (!p.Literal? ==> Mentions(ps, p.name));
    assert forall n | Mentions(ps[1..], n) :: Mentions(ps, n);
    if p.Literal? {
      value := p.text;
      Assoc(pre, value, tail);
      LeadsSelf(turn, (pre + value) + tail);
    } else {
      PlainUnfolded(turn, def, p);
      LeadsStep(turn, pre + (p.Render() + tail), pre + (Render(Unfolded(def, p)) + tail));
      if Render(def(p.name)) != "" {
        value := Meaning(def, rank, def(p.name), rank(p.name));
        MeaningDollarFree(turn, def, rank, def(p.name), rank(p.name));
        Scan(turn, def, rank, pre, def(p.name), tail, rank(p.name));
        LeadsOn(turn, pre + (p.Render() + tail), pre + (Render(def(p.name)) + tail), (pre + value) + tail);
      } else {
        value := if p.Ref? then "" else p.default;
        assert Render(Unfolded(def, p)) == value by { EmptyEnds(value); }
        Assoc(pre, value, tail);
      }
    }
  }

  /** With acyclic references, rescanning a rendered template ends with its meaning, every value
      being expanded in turn. */
  lemma ResolveRefinesMeaning(env: Env, def: Definitions, rank: string -> nat, ps: seq<Piece>, bound: nat)
    requires Defines(env, def) && AllPlain(ps)
    requires Acyclic(def, rank) && forall n | Mentions(ps, n) :: rank(n) < bound
    ensures Yields(Turn(env), Render(ps), Meaning(def, rank, ps, bound))
  {
    TurnUnfolds(env, def);
    TemplateYields(Turn(env), def, rank, ps, bound);
  }

  lemma TemplateYields(turn: string -> Round, def: Definitions, rank: string -> nat, ps: seq<Piece>, bound: nat)
    requires Unfolds(turn, def) && AllPlain(ps)
    requires Acyclic(def, rank) && forall n | Mentions(ps, n) :: rank(n) < bound
    ensures Yields(turn, Render(ps), Meaning(def, rank, ps, bound))
  {
    var meaning := Meaning(def, rank, ps, bound);
    Scan(turn, def, rank, "", ps, "", bound);
    assert "" + (Render(ps) + "") == Render(ps) && ("" + meaning) + "" == meaning;
    MeaningDollarFree(turn, def, rank, ps, bound);
    assert Bare(meaning);
  }

  /* ---- values without placeholders: one lookup each ---- */

  function Flat(env: Env): Definitions {
    name => [Literal(Lookup(env, name))]
  }

  lemma FlatDefines(env: Env)
    requires env.Lacks('$')
    ensures Defines(env, Flat(env)) && Acyclic(Flat(env), n => 0)
  {
    forall name
      ensures Lookup(env, name) == Render(Flat(env)(name)) && AllPlain(Flat(env)(name))
    {
      LookupLacks(env, name, '$');
      EmptyEnds(Lookup(env, name));
      assert Flat(env)(name)[1..] == [];
    }
  }

  lemma {:induction false} FlatMeaning(env: Env, rank: string -> nat, ps: seq<Piece>)
    requires Acyclic(Flat(env), rank) && forall n :: rank(n) == 0
    ensures Meaning(Flat(env), rank, ps, 1) == OnePass(env, ps)
    decreases |ps|
  {
    if ps != [] {
      FlatMeaning(env, rank, ps[1..]);
      if !ps[0].Literal? { FlatName(env, rank, ps[0].name); }
    }
  }

  lemma FlatName(env: Env, rank: string -> nat, name: string)
    requires Acyclic(Flat(env), rank)
    ensures Render(Flat(env)(name)) == Lookup(env, name)
    ensures Meaning(Flat(env), rank, Flat(env)(name), rank(name)) == Lookup(env, name)
  {
    var ps := Flat(env)(name);
    assert ps[1..] == [];
    EmptyEnds(Lookup(env, name));
    assert Meaning(Flat(env), rank, ps[1..], rank(name)) == "";
  }

  /** Rescanning the rendered text gives the pieces looked up once each and joined. */
  lemma ResolveRefinesOnePass(env: Env, ps: seq<Piece>)
    requires env.Lacks('$') && AllPlain(ps)
    ensures Yields(Turn(env), Render(ps), OnePass(env, ps))
  {
    var rank: string -> nat := n => 0;
    FlatDefines(env);
    FlatMeaning(env, rank, ps);
    ResolveRefinesMeaning(env, Flat(env), rank, ps, 1);
  }

  /* ---- when templates can be resolved at all ---- */

  /** More than the rank of everything mentioned. */
  function Bound(rank: string -> nat, ps: seq<Piece>): (b: nat)
    ensures forall n | Mentions(ps, n) :: rank(n) < b
  {
    if ps == [] then 1
    else
      var b := Bound(rank, ps[1..]);
      assert forall n | Mentions(ps, n) :: Mentions(ps[1..], n) || (!ps[0].Literal? && ps[0].name == n);
      if !ps[0].Literal? && rank(ps[0].name) >= b then rank(ps[0].name) + 1 else b
  }

  /** What is left of a run when it comes to the text behind a template. */
  lemma {:induction false} RunBehind(turn: string -> Round, def: Definitions, pre: string, ps: seq<Piece>, tail: string, n: nat)
    returns (pre': string, n': nat)
    requires Unfolds(turn, def) && AllPlain(ps) && '$' !in pre
    requires Rounds(turn, pre + (Render(ps) + tail), n).Stop?
    ensures '$' !in pre' && n' <= n && Rounds(turn, pre' + tail, n').Stop?
    decreases n, |ps|
  {
    if ps == [] {
      assert "" + tail == tail;
      pre', n' := pre, n;
    } else {
      var p, rest := ps[0], ps[1..];
      assert p.Plain();
      Assoc(p.Render(), Render(rest), tail);
      if p.Literal? {
        Assoc(pre, p.text, Render(rest) + tail);
        pre', n' := RunBehind(turn, def, pre + p.text, rest, tail, n);
      } else {
        PlainUnfolded(turn, def, p);
        RenderAppend(Unfolded(def, p), rest);
        Assoc(Render(Unfolded(def, p)), Render(rest), tail);
        pre', n' := RunBehind(turn, def, pre, Unfolded(def, p) + rest, tail, n - 1);
      }
    }
  }

  /** A template resolved amid other text takes as many turns as by itself. */
  lemma {:induction false} RunInside(turn: string -> Round, def: Definitions, pre: string, ps: seq<Piece>, tail: string, own: string, n: nat)
    requires Unfolds(turn, def) && AllPlain(ps) && '$' !in pre && '$' !in own
    requires Rounds(turn, pre + (Render(ps) + tail), n).Stop?
    ensures Rounds(turn, own + Render(ps), n).Stop?
    decreases n, |ps|
  {
    if ps == [] {
      assert own + "" == own && Bare(own);
    } else {
      var p, rest := ps[0], ps[1..];
      assert p.Plain();
      Assoc(p.Render(), Render(rest), tail);
      if p.Literal? {
        Assoc(pre, p.text, Render(rest) + tail);
        Assoc(own, p.text, Render(rest));
        RunInside(turn, def, pre + p.text, rest, tail, own + p.text, n);
      } else {
        PlainUnfolded(turn, def, p);
        PlainUnfolded(turn, def, p);
        RenderAppend(Unfolded(def, p), rest);
        Assoc(Render(Unfolded(def, p)), Render(rest), tail);
        RunInside(turn, def, pre, Unfolded(def, p) + rest, tail, own, n - 1);
      }
    }
  }

  lemma {:induction false} StopsLater(turn: string -> Round, s: string, n: nat)
    requires Rounds(turn, s, n).Stop?
    ensures Rounds(turn, s, n + 1).Stop?
    decreases n
  {
    if turn(s).Next? { StopsLater(turn, turn(s).text, n - 1); }
  }

  /** The turns until the loop ends, its last look included. */
  ghost function Least(turn: string -> Round, s: string, n: nat): (k: nat)
    requires Rounds(turn, s, n).Stop?
    ensures Rounds(turn, s, k).Stop? && k <= n && (k > 0 ==> Rounds(turn, s, k - 1).Next?)
  {
    if n > 0 && Rounds(turn, s, n - 1).Stop? then Least(turn, s, n - 1) else n
  }

  ghost function Turns(turn: string -> Round, s: string): (k: nat)
    requires Ends(turn, s)
    ensures Rounds(turn, s, k).Stop? && (k > 0 ==> Rounds(turn, s, k - 1).Next?)
  {
    var n: nat :| Rounds(turn, s, n).Stop?;
    Least(turn, s, n)
  }

  lemma {:induction false} StopsFrom(turn: string -> Round, s: string, m: nat, n: nat)
    requires Rounds(turn, s, m).Stop? && m <= n
    ensures Rounds(turn, s, n).Stop?
    decreases n
  {
    if m < n {
      StopsFrom(turn, s, m, n - 1);
      StopsLater(turn, s, n - 1);
    }
  }

  lemma TurnsAreLeast(turn: string -> Round, s: string, n: nat)
    requires Rounds(turn, s, n).Stop?
    ensures Turns(turn, s) <= n
  {
    var k := Turns(turn, s);
    if n < k { StopsFrom(turn, s, n, k - 1); }
  }

  lemma {:induction false} SplitAt(ps: seq<Piece>, name: string) returns (k: nat)
    requires Mentions(ps, name)
    ensures k < |ps| && !ps[k].Literal? && ps[k].name == name
  {
    var p :| p in ps && !p.Literal? && p.name == name;
    k :| 0 <= k < |ps| && ps[k] == p;
  }

  lemma JoinedSplit(f: Piece -> string, ps: seq<Piece>, k: nat)
    requires k < |ps|
    ensures Joined(f, ps) == Joined(f, ps[..k]) + (f(ps[k]) + Joined(f, ps[k + 1..]))
  {
    JoinedAppend(f, ps[..k], ps[k..]);
    assert ps == ps[..k] + ps[k..] && ps[k..][1..] == ps[k + 1..];
  }

  lemma RenderSplit(ps: seq<Piece>, k: nat)
    requires k < |ps|
    ensures Render(ps) == Render(ps[..k]) + (ps[k].Render() + Render(ps[k + 1..]))
  {
    RenderIsJoined(ps);
    RenderIsJoined(ps[..k]);
    RenderIsJoined(ps[k + 1..]);
    JoinedSplit(Rendering(), ps, k);
  }

  lemma RunFrom(turn: string -> Round, def: Definitions, ps: seq<Piece>, k: nat, n: nat) returns (pre: string, m: nat)
    requires Unfolds(turn, def) && AllPlain(ps) && k < |ps| && Rounds(turn, Render(ps), n).Stop?
    ensures '$' !in pre && m <= n && Rounds(turn, pre + (ps[k].Render() + Render(ps[k + 1..])), m).Stop?
  {
    var tail := ps[k].Render() + Render(ps[k + 1..]);
    RenderSplit(ps, k);
    assert "" + (Render(ps[..k]) + tail) == Render(ps);
    pre, m := RunBehind(turn, def, "", ps[..k], tail, n);
  }

  /** A template takes more turns than the value of any variable in it. */
  lemma TakesLessAt(turn: string -> Round, def: Definitions, ps: seq<Piece>, k: nat, n: nat) returns (m: nat)
    requires Unfolds(turn, def) && AllPlain(ps) && k < |ps| && !ps[k].Literal? && Rounds(turn, Render(ps), n).Stop?
    ensures 0 < m <= n && Rounds(turn, Render(def(ps[k].name)), m - 1).Stop?
  {
    var pre;
    pre, m := RunFrom(turn, def, ps, k, n);
    var p, tail := ps[k], Render(ps[k + 1..]);
    UnfoldedTakesLess(turn, def, pre, p, tail, m);
  }

  lemma UnfoldedTakesLess(turn: string -> Round, def: Definitions, pre: string, p: Piece, tail: string, n: nat)
    requires Unfolds(turn, def) && '$' !in pre && p.Plain() && !p.Literal?
    requires Rounds(turn, pre + (p.Render() + tail), n).Stop?
    ensures n > 0 && Rounds(turn, Render(def(p.name)), n - 1).Stop?
  {
    PlainUnfolded(turn, def, p);
    StopsAfterTurn(turn, pre + (p.Render() + tail), pre + (Render(Unfolded(def, p)) + tail), n);
    if Render(def(p.name)) != "" {
      RunInside(turn, def, pre, def(p.name), tail, "", n - 1);
      EmptyEnds(Render(def(p.name)));
    } else {
      assert Bare("");
      StopsAtOnce(turn, "", n - 1);
    }
  }

  lemma StopsAfterTurn(turn: string -> Round, s: string, t: string, n: nat)
    requires turn(s) == Next(t) && Rounds(turn, s, n).Stop?
    ensures n > 1 && Rounds(turn, t, n - 1).Stop?
  {
    assert Rounds(turn, t, 0).Next?;
  }

  lemma StopsAtOnce(turn: string -> Round, s: string, n: nat)
    requires turn(s).Stop? && n > 0
    ensures Rounds(turn, s, n).Stop?
  {
  }

  /** Every template can be resolved exactly if no variable refers to itself, directly or through
      others. */
  lemma TemplatesEndExactly(env: Env, def: Definitions)
    requires Defines(env, def)
    ensures (forall ps | AllPlain(ps) :: Ends(Turn(env), Render(ps))) <==> exists rank :: Acyclic(def, rank)
  {
    if rank :| Acyclic(def, rank) {
      forall ps | AllPlain(ps)
        ensures Ends(Turn(env), Render(ps))
      {
        ResolveRefinesMeaning(env, def, rank, ps, Bound(rank, ps));
        YieldsOne(Turn(env), Render(ps), Meaning(def, rank, ps, Bound(rank, ps)));
      }
    }
    if forall ps | AllPlain(ps) :: Ends(Turn(env), Render(ps)) {
      TurnUnfolds(env, def);
      TurnsRank(Turn(env), def);
    }
  }

  lemma TurnsRank(turn: string -> Round, def: Definitions)
    requires Unfolds(turn, def) && forall ps | AllPlain(ps) :: Ends(turn, Render(ps))
    ensures exists rank :: Acyclic(def, rank)
  {
    var rank: string -> nat := n => if Ends(turn, Render(def(n))) then Turns(turn, Render(def(n))) else 0;
    forall n, m | Mentions(def(n), m)
      ensures rank(m) < rank(n)
    {
      assert AllPlain(def(n)) && AllPlain(def(m));
      TurnsDrop(turn, def, n, m);
    }
    assert Acyclic(def, rank);
  }

  lemma TurnsDrop(turn: string -> Round, def: Definitions, n: string, m: string)
    requires Unfolds(turn, def) && Mentions(def(n), m)
    requires Ends(turn, Render(def(n))) && Ends(turn, Render(def(m)))
    ensures Turns(turn, Render(def(m))) < Turns(turn, Render(def(n)))
  {
    var k := SplitAt(def(n), m);
    var left := TakesLessAt(turn, def, def(n), k, Turns(turn, Render(def(n))));
    TurnsAreLeast(turn, Render(def(m)), left - 1);
  }
}
