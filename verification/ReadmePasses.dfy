/** What the updates of several sections do to the list of a document's markers. */
module ReadmePasses {
  import opened ReadmeGenerator
  import opened ReadmeTokens

  predicate Gone(ps: seq<string>, m: Section) {
    First(ps, m.startMarker) == |ps| && First(ps, m.endMarker) == |ps|
  }

  predicate InOrder(ps: seq<string>, m: Section) {
    First(ps, m.startMarker) < First(ps, m.endMarker) < |ps|
  }

  /** The markers of a section differ from each other and from those of the other sections. */
  predicate Separate(ms: seq<Section>) {
    && (forall m | m in ms :: m.startMarker != m.endMarker)
    && (forall m, o | m in ms && o in ms && m != o :: Differ(m, o))
    && (forall i, j | 0 <= i < j < |ms| :: ms[i] != ms[j])
  }

  predicate Differ(m: Section, o: Section) {
    && m.startMarker != o.startMarker && m.startMarker != o.endMarker
    && m.endMarker != o.startMarker && m.endMarker != o.endMarker
  }

  function Pass(ps: seq<string>, ms: seq<Section>): seq<string>
    decreases |ms|
  {
    if ms == [] then ps else Pass(Step(ps, ms[0]), ms[1..])
  }

  predicate Still(ps: seq<string>, ms: seq<Section>) {
    forall m | m in ms :: Step(ps, m) == ps
  }

  lemma FirstIs(ps: seq<string>, q: string, k: nat)
    requires k <= |ps| && (k < |ps| ==> ps[k] == q) && forall i | 0 <= i < k :: ps[i] != q
    ensures First(ps, q) == k
  {
  }

  lemma FirstInJoin(a: seq<string>, b: seq<string>, q: string)
    ensures First(a + b, q) == if First(a, q) < |a| then First(a, q) else |a| + First(b, q)
  {
    FirstIs(a + b, q, if First(a, q) < |a| then First(a, q) else |a| + First(b, q));
  }

  /* ---- passes settle: old markers only go, and a section is appended at most once ---- */

  function Flat(done: seq<Section>): (ps: seq<string>)
    ensures |ps| == 2 * |done|
  {
    if done == [] then []
    else Flat(done[..|done| - 1]) + [done[|done| - 1].startMarker, done[|done| - 1].endMarker]
  }

  /** Different sections without a marker in the base. */
  predicate Added(base: seq<string>, done: seq<Section>, ms: seq<Section>) {
    done == [] ||
      var front, m := done[..|done| - 1], done[|done| - 1];
      m in ms && m !in front && m.startMarker !in base && m.endMarker !in base && Added(base, front, ms)
  }

  /** Markers that were always there, followed by appended sections. */
  predicate Grown(ps: seq<string>, base: seq<string>, done: seq<Section>, ms: seq<Section>) {
    ps == base + Flat(done) && Added(base, done, ms)
  }

  lemma {:induction false} AddedIn(base: seq<string>, done: seq<Section>, ms: seq<Section>, m: Section)
    requires Added(base, done, ms) && m in done
    ensures m in ms && m.startMarker !in base && m.endMarker !in base
  {
    var front, o := done[..|done| - 1], done[|done| - 1];
    assert done == front + [o];
    if m != o {
      AddedIn(base, front, ms, m);
    }
  }

  lemma {:induction false} AddedShorter(base: seq<string>, done: seq<Section>, ms: seq<Section>, less: seq<string>)
    requires Added(base, done, ms) && forall q | q in less :: q in base
    ensures Added(less, done, ms)
  {
    if done != [] {
      AddedShorter(base, done[..|done| - 1], ms, less);
    }
  }

  lemma FirstInPair(ms: seq<Section>, o: Section, m: Section)
    requires Separate(ms) && o in ms && m in ms
    ensures var pair := [o.startMarker, o.endMarker];
      && First(pair, m.startMarker) == (if m == o then 0 else 2)
      && First(pair, m.endMarker) == (if m == o then 1 else 2)
  {
    assert m != o ==> Differ(m, o);
    FirstIs([o.startMarker, o.endMarker], m.startMarker, if m == o then 0 else 2);
    FirstIs([o.startMarker, o.endMarker], m.endMarker, if m == o then 1 else 2);
  }

  lemma {:induction false} FirstInFlat(base: seq<string>, done: seq<Section>, ms: seq<Section>, m: Section)
    requires Separate(ms) && m in ms && Added(base, done, ms)
    ensures m !in done ==> Gone(Flat(done), m)
    ensures m in done ==> First(Flat(done), m.endMarker) == First(Flat(done), m.startMarker) + 1 < |Flat(done)|
  {
    if done != [] {
      var front, o := done[..|done| - 1], done[|done| - 1];
      var pair := [o.startMarker, o.endMarker];
      FirstInFlat(base, front, ms, m);
      FirstInJoin(Flat(front), pair, m.startMarker);
      FirstInJoin(Flat(front), pair, m.endMarker);
      assert done == front + [o];
      FirstInPair(ms, o, m);
    }
  }

  lemma FirstInGrown(ps: seq<string>, base: seq<string>, done: seq<Section>, ms: seq<Section>, m: Section)
    requires Separate(ms) && m in ms && Grown(ps, base, done, ms)
    ensures m in done ==> First(ps, m.endMarker) == First(ps, m.startMarker) + 1 < |ps|
    ensures m !in done ==>
      && First(ps, m.startMarker) == (if m.startMarker in base then First(base, m.startMarker) else |ps|)
      && First(ps, m.endMarker) == (if m.endMarker in base then First(base, m.endMarker) else |ps|)
  {
    FirstInFlat(base, done, ms, m);
    if m in done {
      AddedIn(base, done, ms, m);
    }
    FirstInJoin(base, Flat(done), m.startMarker);
    FirstInJoin(base, Flat(done), m.endMarker);
  }

  lemma GrownLonger(ps: seq<string>, base: seq<string>, done: seq<Section>, ms: seq<Section>, m: Section)
    requires Grown(ps, base, done, ms) && m in ms && m !in done && m.startMarker !in base && m.endMarker !in base
    ensures Grown(ps + [m.startMarker, m.endMarker], base, done + [m], ms)
  {
    assert (done + [m])[..|done|] == done;
    assert base + Flat(done + [m]) == ps + [m.startMarker, m.endMarker];
  }

  lemma GrownShorter(ps: seq<string>, base: seq<string>, done: seq<Section>, ms: seq<Section>, s: nat, e: nat)
    requires Grown(ps, base, done, ms) && s < e < |base|
    ensures Grown(ps[..s + 1] + ps[e..], base[..s + 1] + base[e..], done, ms)
  {
    StepWithin(base, Flat(done), s, e);
    AddedShorter(base, done, ms, base[..s + 1] + base[e..]);
  }

  /** One section's update takes old markers away, or appends the section, or changes no marker. */
  lemma StepGrown(ps: seq<string>, base: seq<string>, done: seq<Section>, ms: seq<Section>, m: Section)
      returns (left: seq<string>, more: seq<Section>)
    requires Separate(ms) && m in ms && Grown(ps, base, done, ms)
    ensures Grown(Step(ps, m), left, more, ms)
    ensures |left| - |more| < |base| - |done| || (left == base && more == done && Step(ps, m) == ps)
  {
    FirstInGrown(ps, base, done, ms, m);
    var s, e := First(ps, m.startMarker), First(ps, m.endMarker);
    left, more := base, done;
    if s == |ps| && e == |ps| {
      GrownLonger(ps, base, done, ms, m);
      more := done + [m];
    } else if s + 1 < e < |ps| {
      GrownShorter(ps, base, done, ms, s, e);
      left := base[..s + 1] + base[e..];
    } else {
      SameStep(ps, m);
    }
  }

  lemma SameStep(ps: seq<string>, m: Section)
    requires !Gone(ps, m) && !(First(ps, m.startMarker) + 1 < First(ps, m.endMarker) < |ps|)
    ensures Step(ps, m) == ps
  {
    var s, e := First(ps, m.startMarker), First(ps, m.endMarker);
    if s < e < |ps| {
      Glue(ps, s + 1);
    }
  }

  lemma Glue<T>(s: seq<T>, k: nat)
    requires k <= |s|
    ensures s[..k] + s[k..] == s
  {
  }

  lemma StepWithin(a: seq<string>, b: seq<string>, s: nat, e: nat)
    requires s < e < |a|
    ensures (a + b)[..s + 1] + (a + b)[e..] == (a[..s + 1] + a[e..]) + b
  {
    assert (a + b)[..s + 1] == a[..s + 1];
    assert (a + b)[e..] == a[e..] + b;
  }

  lemma {:induction false} PassGrown(ps: seq<string>, base: seq<string>, done: seq<Section>, ms: seq<Section>,
                                     rest: seq<Section>) returns (left: seq<string>, more: seq<Section>)
    requires Separate(ms) && Grown(ps, base, done, ms) && forall m | m in rest :: m in ms
    ensures Grown(Pass(ps, rest), left, more, ms)
    ensures |left| - |more| < |base| - |done| || (left == base && more == done && Still(ps, rest))
    decreases |rest|
  {
    left, more := base, done;
    if rest != [] {
      left, more := StepGrown(ps, base, done, ms, rest[0]);
      left, more := PassGrown(Step(ps, rest[0]), left, more, ms, rest[1..]);
    }
  }

  lemma {:induction false} StillPass(ps: seq<string>, ms: seq<Section>)
    requires Still(ps, ms)
    ensures Pass(ps, ms) == ps
    decreases |ms|
  {
    if ms != [] {
      StillPass(ps, ms[1..]);
    }
  }

  lemma {:induction false} AtMost(base: seq<string>, done: seq<Section>, ms: seq<Section>)
    requires Added(base, done, ms)
    ensures |done| <= |ms|
    decreases |done|
  {
    if done != [] {
      var front, m := done[..|done| - 1], done[|done| - 1];
      var i :| 0 <= i < |ms| && ms[i] == m;
      AddedWithout(base, front, ms, i);
      AtMost(base, front, ms[..i] + ms[i + 1..]);
    }
  }

  lemma {:induction false} AddedWithout(base: seq<string>, done: seq<Section>, ms: seq<Section>, i: nat)
    requires Added(base, done, ms) && i < |ms| && ms[i] !in done
    ensures Added(base, done, ms[..i] + ms[i + 1..])
    decreases |done|
  {
    if done != [] {
      var front, o := done[..|done| - 1], done[|done| - 1];
      AddedWithout(base, front, ms, i);
      var k :| 0 <= k < |ms| && ms[k] == o;
      assert done[|done| - 1] in done;
      assert (ms[..i] + ms[i + 1..])[if k < i then k else k - 1] == o;
    }
  }

  /** What is left to use up: old markers, and sections not appended yet. */
  ghost predicate Budget(ps: seq<string>, ms: seq<Section>, n: int) {
    exists base, done :: Grown(ps, base, done, ms) && |base| + |ms| - |done| <= n
  }

  lemma BudgetIs(ps: seq<string>, base: seq<string>, done: seq<Section>, ms: seq<Section>, n: int)
    requires Grown(ps, base, done, ms) && |base| + |ms| - |done| <= n
    ensures Budget(ps, ms, n) && n >= 0
  {
    AtMost(base, done, ms);
  }

  /** A pass that changes anything uses some of it up. */
  lemma PassUsesUp(ps: seq<string>, ms: seq<Section>, n: int)
    requires Separate(ms) && Budget(ps, ms, n)
    ensures Still(ps, ms) || (n > 0 && Budget(Pass(ps, ms), ms, n - 1))
  {
    var base, done :| Grown(ps, base, done, ms) && |base| + |ms| - |done| <= n;
    var left, more := PassGrown(ps, base, done, ms, ms);
    if !Still(ps, ms) {
      BudgetIs(Pass(ps, ms), left, more, ms, n - 1);
    }
  }

  function Iterate<S>(next: S -> S, s: S, k: nat): S
    decreases k
  {
    if k == 0 then s else Iterate(next, next(s), k - 1)
  }

  lemma {:induction false} IterateStill<S>(next: S -> S, s: S, k: nat)
    requires next(s) == s
    ensures Iterate(next, s, k) == s
  {
    if k > 0 {
      IterateStill(next, s, k - 1);
    }
  }

  /** Steps that use up a budget until nothing changes end where nothing changes. */
  lemma {:induction false} Descends<S(!new)>(next: S -> S, still: S -> bool, holds: (S, nat) -> bool, s: S, k: nat)
    requires holds(s, k) && forall t | still(t) :: next(t) == t
    requires forall t, n: nat | holds(t, n) :: still(t) || (n > 0 && holds(next(t), n - 1))
    ensures still(Iterate(next, s, k))
    decreases k
  {
    if still(s) {
      IterateStill(next, s, k);
    } else {
      Descends(next, still, holds, next(s), k - 1);
    }
  }

  lemma PassesSettle(ps: seq<string>, ms: seq<Section>, next: seq<string> -> seq<string>, k: nat)
    requires Separate(ms) && k >= |ps| + |ms| && forall qs :: next(qs) == Pass(qs, ms)
    ensures Still(Iterate(next, ps, k), ms)
  {
    var still := (qs: seq<string>) => Still(qs, ms);
    var holds := (qs: seq<string>, n: nat) => Budget(qs, ms, n);
    forall qs | still(qs)
      ensures next(qs) == qs
    {
      StillPass(qs, ms);
    }
    forall qs, n: nat | holds(qs, n)
      ensures still(qs) || (n > 0 && holds(next(qs), n - 1))
    {
      PassUsesUp(qs, ms, n);
    }
    assert ps == ps + Flat([]);
    BudgetIs(ps, ps, [], ms, k);
    Descends(next, still, holds, ps, k);
    assert still(Iterate(next, ps, k));
  }

  /* ---- sections whose spans hold no other section's marker ---- */

  predicate Outside(ps: seq<string>, m: Section, q: string) {
    !(First(ps, m.startMarker) < First(ps, q) < First(ps, m.endMarker))
  }

  predicate Clear(ps: seq<string>, m: Section, o: Section) {
    InOrder(ps, m) ==> Outside(ps, m, o.startMarker) && Outside(ps, m, o.endMarker)
  }

  predicate Placed(ps: seq<string>, ms: seq<Section>) {
    forall m, o | m in ms && o in ms && m != o :: Clear(ps, m, o)
  }

  /** Where a place of the old list is in the new one. */
  function Moved(ps: seq<string>, m: Section, k: nat): int {
    var s, e := First(ps, m.startMarker), First(ps, m.endMarker);
    if Gone(ps, m) then if k == |ps| then k + 2 else k
    else if InOrder(ps, m) && k > s then k - (e - s - 1)
    else k
  }

  lemma FirstMoves(ps: seq<string>, m: Section, q: string)
    requires q != m.startMarker && q != m.endMarker && (InOrder(ps, m) ==> Outside(ps, m, q))
    ensures First(Step(ps, m), q) == Moved(ps, m, First(ps, q))
  {
    var k := First(ps, q);
    if Gone(ps, m) {
      FirstInJoin(ps, [m.startMarker, m.endMarker], q);
      FirstIs([m.startMarker, m.endMarker], q, 2);
    } else if InOrder(ps, m) {
      FirstIs(Step(ps, m), q, Moved(ps, m, k));
    }
  }

  lemma OwnFirst(ps: seq<string>, m: Section)
    requires m.startMarker != m.endMarker
    ensures var r, s := Step(ps, m), First(ps, m.startMarker);
            if Gone(ps, m) || InOrder(ps, m)
            then First(r, m.startMarker) == s && First(r, m.endMarker) == s + 1 < |r|
            else r == ps
  {
    var s, e := First(ps, m.startMarker), First(ps, m.endMarker);
    if Gone(ps, m) || InOrder(ps, m) {
      FirstIs(Step(ps, m), m.startMarker, s);
      FirstIs(Step(ps, m), m.endMarker, s + 1);
    }
  }

  /** Another section keeps its order, and the two stay clear of each other. */
  lemma StepClear(ps: seq<string>, m: Section, o: Section)
    requires m.startMarker != m.endMarker && Differ(m, o) && Clear(ps, m, o) && Clear(ps, o, m)
    ensures var r := Step(ps, m);
      && (InOrder(r, o) <==> InOrder(ps, o)) && (Gone(r, o) <==> Gone(ps, o))
      && Clear(r, m, o) && Clear(r, o, m) && !Gone(r, m)
  {
    FirstMoves(ps, m, o.startMarker);
    FirstMoves(ps, m, o.endMarker);
    OwnFirst(ps, m);
  }

  /** Places outside the span keep their order. */
  lemma MovesKeepOrder(ps: seq<string>, m: Section, j: nat, k: nat)
    requires j <= |ps| && k <= |ps| && m.startMarker != m.endMarker
    requires InOrder(ps, m) ==> var s, e := First(ps, m.startMarker), First(ps, m.endMarker);
               !(s < j < e) && !(s < k < e)
    ensures Moved(ps, m, j) < Moved(ps, m, k) <==> j < k
    ensures Moved(ps, m, |ps|) == |Step(ps, m)|
  {
  }

  lemma OutsideMoves(ps: seq<string>, m: Section, o: Section, q: string)
    requires m.startMarker != m.endMarker && Differ(m, o) && Clear(ps, m, o)
    requires q != m.startMarker && q != m.endMarker && (InOrder(ps, m) ==> Outside(ps, m, q))
    ensures Outside(Step(ps, m), o, q) <==> Outside(ps, o, q)
  {
    FirstMoves(ps, m, o.startMarker);
    FirstMoves(ps, m, o.endMarker);
    FirstMoves(ps, m, q);
    MovesKeepOrder(ps, m, First(ps, o.startMarker), First(ps, q));
    MovesKeepOrder(ps, m, First(ps, q), First(ps, o.endMarker));
  }

  lemma OrderMoves(ps: seq<string>, m: Section, o: Section)
    requires m.startMarker != m.endMarker && Differ(m, o) && Clear(ps, m, o)
    ensures InOrder(Step(ps, m), o) <==> InOrder(ps, o)
  {
    FirstMoves(ps, m, o.startMarker);
    FirstMoves(ps, m, o.endMarker);
    MovesKeepOrder(ps, m, First(ps, o.startMarker), First(ps, o.endMarker));
    MovesKeepOrder(ps, m, First(ps, o.endMarker), |ps|);
  }

  lemma OthersClear(ps: seq<string>, m: Section, o: Section, p: Section)
    requires m.startMarker != m.endMarker && Differ(m, o) && Differ(m, p)
    requires Clear(ps, m, o) && Clear(ps, m, p) && Clear(ps, o, p)
    ensures Clear(Step(ps, m), o, p)
  {
    OrderMoves(ps, m, o);
    OutsideMoves(ps, m, o, p.startMarker);
    OutsideMoves(ps, m, o, p.endMarker);
  }

  lemma StepPlaced(ps: seq<string>, ms: seq<Section>, m: Section)
    requires Separate(ms) && Placed(ps, ms) && m in ms
    ensures Placed(Step(ps, m), ms) && !Gone(Step(ps, m), m)
    ensures forall o | o in ms && o != m ::
      (InOrder(Step(ps, m), o) <==> InOrder(ps, o)) && (Gone(Step(ps, m), o) <==> Gone(ps, o))
  {
    OwnFirst(ps, m);
    forall o | o in ms && o != m
      ensures (InOrder(Step(ps, m), o) <==> InOrder(ps, o)) && (Gone(Step(ps, m), o) <==> Gone(ps, o))
      ensures Clear(Step(ps, m), m, o) && Clear(Step(ps, m), o, m)
    {
      StepClear(ps, m, o);
    }
    forall o, p | o in ms && p in ms && o != p
      ensures Clear(Step(ps, m), o, p)
    {
      if o != m && p != m {
        OthersClear(ps, m, o, p);
      }
    }
  }

  lemma StillPlaced(ps: seq<string>, ms: seq<Section>)
    requires Still(ps, ms)
    ensures Placed(ps, ms) && forall m | m in ms :: !Gone(ps, m)
  {
    forall m | m in ms
      ensures !Gone(ps, m) && (InOrder(ps, m) ==> First(ps, m.endMarker) == First(ps, m.startMarker) + 1)
    {
      assert |Step(ps, m)| == |ps|;
    }
  }
}
