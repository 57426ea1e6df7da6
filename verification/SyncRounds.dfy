/** What sync operations do one after another when every command works and nobody else pushes. */
module SyncRounds {
  import opened Git
  import opened Mirror
  import opened GitSync

  /** The clone has no unfinished merge and no commit the remote lacks. */
  predicate Settled(w: World) {
    w.Valid() && w.mergeHead.None? && Reaches(w.store, w.remote, w.head)
  }

  /** Every command behind `git pull` works, undisturbed. */
  predicate SmoothEnd(s: PullScript) {
    && s.toGit.Whole() && s.addOk && s.commitOk
    && s.beforePush == [] && s.push.Delivered? && s.finalResetOk && s.toData.Whole()
  }

  /** Every command of the pull works, undisturbed. */
  predicate Smooth(s: PullScript) {
    s.beforePull == [] && s.pull.Merges? && SmoothEnd(s)
  }

  function RemoteTree(w: World): Tree {
    w.TreeOf(w.remote)
  }

  /** The clone comes to the remote tip, and nothing else changed but its files. */
  predicate ArrivesAtRemote(w: World, s: PullScript) {
    var a := Arrive(w, s);
    && a.failure.None? && a.world.Valid() && a.world.mergeHead.None?
    && a.world.head == a.world.remote == w.remote && a.world.store == w.store && a.world.data == w.data
  }

  lemma SmoothArrival(w: World, s: PullScript)
    requires Settled(w) && Smooth(s)
    ensures ArrivesAtRemote(w, s)
  {
    if Reaches(w.store, w.head, w.remote) {
      ReachesDescends(w.store, w.head, w.remote);
      ReachesDescends(w.store, w.remote, w.head);
    }
  }

  /** Afterwards the remote tip holds exactly the files of the clone, on top of the old tip. */
  lemma SmoothPreservation(w: World, s: PullScript)
    requires w.Valid() && w.mergeHead.None? && w.head == w.remote && SmoothEnd(s)
    ensures var p := Preserve(w, s);
      && p.ok && p.world.Valid() && p.world.mergeHead.None?
      && p.world.data == w.data && p.world.work == p.world.index == w.work
      && RemoteTree(p.world) == w.work && p.world.TreeOf(w.remote) == RemoteTree(w)
      && Reaches(p.world.store, p.world.remote, w.remote)
  {
    if !w.Clean() {
      var c := GitCommit(AddAll(w, true), true);
      if c.exit.Committed? {
        assert c.world.store[c.world.head].parents[0] == w.remote;
        assert Reaches(c.world.store, c.world.store[c.world.head].parents[0], w.remote);
      }
    }
  }

  /** `n` exchanges lie between the two worlds. */
  predicate Exchanged(cfg: Config, w: World, end: World, n: nat) {
    && Untracked(cfg, end.data) == Untracked(cfg, w.data)
    && View(cfg, end.data) == View(cfg, if n % 2 == 0 then w.data else RemoteTree(w))
    && View(cfg, RemoteTree(end)) == View(cfg, if n % 2 == 0 then RemoteTree(w) else w.data)
  }

  lemma SmoothCopy(cfg: Config, src: Tree, dst: Tree, s: CopyScript)
    requires s.Whole()
    ensures var r := CopyTracked(cfg, src, dst, s);
            r.ok && View(cfg, r.tree) == View(cfg, src) && Untracked(cfg, r.tree) == Untracked(cfg, dst)
  {
    CopyTrackedExact(cfg, src, dst, s);
  }

  /** The steps of a pull up to its last copy, and the files that copy reads. */
  lemma SmoothPull(cfg: Config, w: World, s: PullScript) returns (clean: World)
    requires w.Valid() && ArrivesAtRemote(w, s) && SmoothEnd(s)
    ensures Settled(clean) && clean.data == w.data && clean.work == RemoteTree(w)
    ensures View(cfg, RemoteTree(clean)) == View(cfg, w.data)
    ensures var r, back := Pulled(cfg, w, s), CopyTracked(cfg, clean.work, clean.data, s.toData);
            r.world == clean.(data := back.tree) && (back.ok ==> r.exit == PullDone)
  {
    var a := Arrive(w, s).world;
    var mirrored := Mirrored(cfg, a, s.toGit);
    SmoothCopy(cfg, a.data, a.work, s.toGit);
    SmoothPreservation(mirrored, s);
    var kept := Preserve(mirrored, s).world;
    ResetFromStaged(kept, w.remote);
    clean := ResetHard(kept, w.remote, true);
  }

  lemma LastCopy(cfg: Config, w: World, clean: World, s: CopyScript) returns (end: World)
    requires Settled(clean) && clean.data == w.data && clean.work == RemoteTree(w) && s.Whole()
    requires View(cfg, RemoteTree(clean)) == View(cfg, w.data)
    ensures CopyTracked(cfg, clean.work, clean.data, s).ok
    ensures end == clean.(data := CopyTracked(cfg, clean.work, clean.data, s).tree)
    ensures Settled(end) && Exchanged(cfg, w, end, 1)
  {
    end := clean.(data := CopyTracked(cfg, clean.work, clean.data, s).tree);
    SmoothCopy(cfg, clean.work, clean.data, s);
    assert RemoteTree(end) == RemoteTree(clean);
  }

  /** A pull exchanges the tracked files of the data directory and of the remote tip: the data
      directory gets the remote's, and the preservation commit makes the old local ones the
      remote's. */
  lemma PullExchanges(cfg: Config, w: World, s: PullScript) returns (r: PullRun)
    requires Settled(w) && Smooth(s)
    ensures r == Pulled(cfg, w, s) && r.exit == PullDone
    ensures Settled(r.world) && Exchanged(cfg, w, r.world, 1)
  {
    SmoothArrival(w, s);
    r := ArrivalExchanges(cfg, w, s);
  }

  lemma ArrivalExchanges(cfg: Config, w: World, s: PullScript) returns (r: PullRun)
    requires w.Valid() && ArrivesAtRemote(w, s) && SmoothEnd(s)
    ensures r == Pulled(cfg, w, s) && r.exit == PullDone
    ensures Settled(r.world) && Exchanged(cfg, w, r.world, 1)
  {
    var clean := SmoothPull(cfg, w, s);
    var end := LastCopy(cfg, w, clean, s.toData);
    r := Pulled(cfg, w, s);
    assert r.world == end;
  }

  /** One pull, and a run of them. */
  function Pulling(cfg: Config): (World, PullScript) -> World {
    (w, s) => Pulled(cfg, w, s).world
  }

  function Repeat(pull: (World, PullScript) -> World, w: World, ss: seq<PullScript>): World
    decreases |ss|
  {
    if ss == [] then w else Repeat(pull, pull(w, ss[0]), ss[1..])
  }

  lemma OneMoreExchange(cfg: Config, w: World, next: World, end: World, n: nat)
    requires Exchanged(cfg, w, next, 1) && Exchanged(cfg, next, end, n)
    ensures Exchanged(cfg, w, end, n + 1)
  {
  }

  lemma EvenExchange(cfg: Config, w: World, end: World, n: nat)
    requires Exchanged(cfg, w, end, n) && n % 2 == 0
    ensures end.data == w.data
  {
    TreeSplit(cfg, end.data, w.data);
  }

  ghost predicate Exchanges(cfg: Config, pull: (World, PullScript) -> World) {
    forall w, s | Settled(w) && Smooth(s) :: Settled(pull(w, s)) && Exchanged(cfg, w, pull(w, s), 1)
  }

  lemma {:induction false} ExchangesAlternate(cfg: Config, pull: (World, PullScript) -> World, w: World, ss: seq<PullScript>)
    requires Exchanges(cfg, pull) && Settled(w) && forall s | s in ss :: Smooth(s)
    ensures Exchanged(cfg, w, Repeat(pull, w, ss), |ss|)
    decreases |ss|
  {
    if ss != [] {
      var next := pull(w, ss[0]);
      ExchangesAlternate(cfg, pull, next, ss[1..]);
      OneMoreExchange(cfg, w, next, Repeat(pull, next, ss[1..]), |ss| - 1);
    }
  }

  lemma PullingExchanges(cfg: Config)
    ensures Exchanges(cfg, Pulling(cfg))
  {
    forall w, s | Settled(w) && Smooth(s)
      ensures Settled(Pulling(cfg)(w, s)) && Exchanged(cfg, w, Pulling(cfg)(w, s), 1)
    {
      var r := PullExchanges(cfg, w, s);
    }
  }

  /** So pulls in a row alternate between the two states, and every second one restores the data
      directory completely. */
  lemma PullsAlternate(cfg: Config, w: World, ss: seq<PullScript>)
    requires Settled(w) && forall s | s in ss :: Smooth(s)
    ensures var end := Repeat(Pulling(cfg), w, ss);
      && Exchanged(cfg, w, end, |ss|)
      && (|ss| % 2 == 0 ==> end.data == w.data)
  {
    PullingExchanges(cfg);
    ExchangesAlternate(cfg, Pulling(cfg), w, ss);
    if |ss| % 2 == 0 { EvenExchange(cfg, w, Repeat(Pulling(cfg), w, ss), |ss|); }
  }

  /** A second pull is without effect exactly if the first one had nothing to preserve. */
  lemma SecondPullExactly(cfg: Config, w: World, first: PullScript, second: PullScript)
    requires Settled(w) && Smooth(first) && Smooth(second)
    ensures var once := Pulled(cfg, w, first).world;
            var twice := Pulled(cfg, once, second).world;
            (twice.data == once.data <==> View(cfg, w.data) == View(cfg, RemoteTree(w)))
  {
    var one := PullExchanges(cfg, w, first);
    var two := PullExchanges(cfg, one.world, second);
    SecondExchange(cfg, w, one.world, two.world);
  }

  lemma SecondExchange(cfg: Config, w: World, once: World, twice: World)
    requires Exchanged(cfg, w, once, 1) && Exchanged(cfg, once, twice, 1)
    ensures twice.data == once.data <==> View(cfg, w.data) == View(cfg, RemoteTree(w))
  {
    if View(cfg, w.data) == View(cfg, RemoteTree(w)) { TreeSplit(cfg, twice.data, once.data); }
  }

  /** What was pushed is what pulls bring back, however many follow. */
  lemma PullsAfterPush(cfg: Config, w: World, s: PushScript, ss: seq<PullScript>)
    requires w.Valid() && Pushed(cfg, w, s).exit.PushDone? && forall s | s in ss :: Smooth(s)
    ensures Repeat(Pulling(cfg), Pushed(cfg, w, s).world, ss).data == w.data
  {
    var pushed := PushSettles(cfg, w, s);
    PullsAlternate(cfg, pushed, ss);
    PublishedStays(cfg, pushed, Repeat(Pulling(cfg), pushed, ss), |ss|);
  }

  lemma PublishedStays(cfg: Config, w: World, end: World, n: nat)
    requires View(cfg, w.data) == View(cfg, RemoteTree(w)) && Exchanged(cfg, w, end, n)
    ensures end.data == w.data
  {
    TreeSplit(cfg, end.data, w.data);
  }

  lemma PushSettles(cfg: Config, w: World, s: PushScript) returns (pushed: World)
    requires w.Valid() && Pushed(cfg, w, s).exit.PushDone?
    ensures pushed == Pushed(cfg, w, s).world && Settled(pushed) && pushed.data == w.data
    ensures View(cfg, pushed.data) == View(cfg, RemoteTree(pushed))
  {
    pushed := Pushed(cfg, w, s).world;
    PushPublishesData(cfg, w, s);
    PushGrowsRemote(cfg, w, s);
    PushFinishesMerge(cfg, w, s);
  }

  lemma PushFinishesMerge(cfg: Config, w: World, s: PushScript)
    requires w.Valid() && Pushed(cfg, w, s).exit.PushDone?
    ensures Pushed(cfg, w, s).world.mergeHead.None?
  {
    CatchUpGrows(w, s);
    var added := AddAll(Mirrored(cfg, CatchUp(w, s), s.toGit), true);
    CommitGrows(added, s.commitOk);
    InterfereGrows(GitCommit(added, s.commitOk).world, s.beforePush);
  }
}
