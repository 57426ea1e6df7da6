/** How the sync operations end, from the outcomes of the single commands alone. */
module SyncOutcomes {
  import opened Options
  import opened Git
  import opened Mirror
  import opened GitSync
  import opened SyncExactness
  import opened SyncRounds

  predicate HasFileIn(t: Tree, dir: Path) {
    exists p | p in t :: dir <= p
  }

  /** Copying fails: one of the two directories is there and its copy is broken. */
  predicate CopyBreaks(cfg: Config, src: Tree, s: CopyScript) {
    || (cfg.InventoryDir() != [] && HasFileIn(src, cfg.InventoryDir()) && s.inventory.Broken?)
    || (HasFileIn(src, cfg.dockerDir) && s.docker.Broken?)
  }

  lemma PartIsThere(t: Tree, dir: Path)
    ensures Part(t, dir) == map[] <==> !HasFileIn(t, dir)
  {
    if p :| p in t && dir <= p { assert p in Part(t, dir); }
  }

  /** Whatever the destination holds, a copy succeeds exactly if no directory that is there breaks. */
  lemma CopyOkExactly(cfg: Config, src: Tree, dst: Tree, s: CopyScript)
    ensures CopyTracked(cfg, src, dst, s).ok <==> !CopyBreaks(cfg, src, s)
  {
    PartIsThere(src, cfg.InventoryDir());
    PartIsThere(src, cfg.dockerDir);
  }

  /* ---- how a pull ends ---- */

  /** A `git pull` fails on an unfinished merge, and if it does not merge. */
  predicate PullFails(unfinished: bool, o: PullOutcome) {
    unfinished || !o.Merges?
  }

  /** The reset after a failed first attempt ends an unfinished merge, if it works. */
  predicate StillUnfinished(w: World, s: PullScript) {
    !s.resetOk && (w.mergeHead.Some? || s.pull.Conflicts?)
  }

  predicate NeverArrives(w: World, s: PullScript) {
    PullFails(w.mergeHead.Some?, s.pull) && PullFails(StillUnfinished(w, s), s.retry)
  }

  lemma UnfinishedAfterPull(w: World, o: PullOutcome)
    requires w.Valid()
    ensures GitPull(w, o).failure.Some? <==> PullFails(w.mergeHead.Some?, o)
    ensures GitPull(w, o).world.mergeHead.Some? <==> w.mergeHead.Some? || o.Conflicts?
  {
  }

  lemma NeverArrivesExactly(w: World, s: PullScript)
    requires w.Valid()
    ensures Arrive(w, s).failure.Some? <==> NeverArrives(w, s)
  {
    InterfereGrows(w, s.beforePull);
    var w1 := Interfere(w, s.beforePull);
    UnfinishedAfterPull(w1, s.pull);
    PullGrows(w1, s.pull);
    var first := GitPull(w1, s.pull);
    var reset := ResetHard(first.world, first.world.tracking, s.resetOk);
    InterfereGrows(reset, s.beforeRetry);
    UnfinishedAfterPull(Interfere(reset, s.beforeRetry), s.retry);
  }

  /** The preservation commit does not reach the remote: the push goes wrong, or others pushed
      something meanwhile that the commit does not build on. */
  predicate PreservationLost(cfg: Config, w: World, s: PullScript) {
    var a := Arrive(w, s).world;
    var commit := Commit(Staged(cfg, w, s), [a.head]);
    var n := Interfere(a.(store := a.store + [commit]), s.beforePush);
    Commits(cfg, w, s) && !(s.push.Delivered? && Reaches(n.store, |a.store|, n.remote))
  }

  lemma {:induction false} InterfereIgnores(w: World, v: World, fs: seq<Foreign>)
    requires w.store == v.store && w.remote == v.remote
    ensures Interfere(w, fs).store == Interfere(v, fs).store && Interfere(w, fs).remote == Interfere(v, fs).remote
    decreases |fs|
  {
    if fs != [] { InterfereIgnores(ForeignMove(w, fs[0]), ForeignMove(v, fs[0]), fs[1..]); }
  }

  lemma PreserveOkExactly(cfg: Config, w: World, s: PullScript)
    requires w.Valid() && Arrive(w, s).failure.None?
    ensures Preserve(Mirrored(cfg, Arrive(w, s).world, s.toGit), s).ok <==> !PreservationLost(cfg, w, s)
  {
    ArriveGrows(w, s);
    var a := Arrive(w, s).world;
    var m := Mirrored(cfg, a, s.toGit);
    var added := AddAll(m, s.addOk);
    var c := GitCommit(added, s.commitOk);
    assert [a.head] + [] == [a.head];
    if Commits(cfg, w, s) {
      InterfereIgnores(c.world, a.(store := a.store + [Commit(Staged(cfg, w, s), [a.head])]), s.beforePush);
      InterfereGrows(c.world, s.beforePush);
    }
  }

  /** Every way a pull can end, and exactly when: it gives up only after two failed attempts, or when
      the preservation commit does not reach the remote; a failed copy is the last thing that can go
      wrong, and all other failures are passed over. */
  lemma PullEndsExactly(cfg: Config, w: World, s: PullScript)
    requires w.Valid()
    ensures var exit, lost, broken := Pulled(cfg, w, s).exit, PreservationLost(cfg, w, s), CopyBreaks(cfg, Applied(cfg, w, s), s.toData);
      && (exit == PullFailed <==> NeverArrives(w, s))
      && (exit == PreservationNotPushed <==> !NeverArrives(w, s) && lost)
      && (exit == CopyBackFailed <==> !NeverArrives(w, s) && !lost && broken)
      && (exit == PullDone <==> !NeverArrives(w, s) && !lost && !broken)
  {
    NeverArrivesExactly(w, s);
    if Arrive(w, s).failure.None? {
      PreserveOkExactly(cfg, w, s);
      KeptFacts(cfg, w, s);
      var clean := ResetHard(Kept(cfg, w, s), Arrive(w, s).world.head, s.finalResetOk);
      assert clean.work == Applied(cfg, w, s);
      CopyOkExactly(cfg, clean.work, clean.data, s.toData);
    }
  }

  /** A pull whose first attempt failed and whose reset and second attempt work. */
  predicate Retried(w: World, s: PullScript) {
    && s.beforePull == [] && PullFails(w.mergeHead.Some?, s.pull)
    && s.resetOk && s.beforeRetry == [] && s.retry.Merges?
  }

  lemma RetryArrives(w: World, s: PullScript)
    requires w.Valid() && Follows(w) && Retried(w, s)
    ensures ArrivesAtRemote(w, s)
  {
    UnfinishedAfterPull(w, s.pull);
    var first := GitPull(w, s.pull);
    PullGrows(w, s.pull);
    var reset := ResetHard(first.world, first.world.tracking, true);
    assert first.world.store == w.store;
    if Reaches(w.store, reset.head, w.remote) {
      ReachesDescends(w.store, reset.head, w.remote);
      ReachesDescends(w.store, w.remote, reset.head);
    }
  }

  /** Whatever state the clone was in, with an unfinished merge or with commits of its own: if the first
      attempt fails and everything later works undisturbed, the pull is done, the data directory has the
      remote's tracked files, and the remote's tip has those the data directory had. */
  lemma RetriedPullExchanges(cfg: Config, w: World, s: PullScript) returns (r: PullRun)
    requires w.Valid() && Follows(w) && Retried(w, s) && SmoothEnd(s)
    ensures r == Pulled(cfg, w, s) && r.exit == PullDone
    ensures Untracked(cfg, r.world.data) == Untracked(cfg, w.data)
    ensures View(cfg, r.world.data) == View(cfg, RemoteTree(w))
    ensures View(cfg, RemoteTree(r.world)) == View(cfg, w.data)
  {
    RetryArrives(w, s);
    r := ArrivalExchanges(cfg, w, s);
    ExchangedOnce(cfg, w, r.world);
  }

  lemma ExchangedOnce(cfg: Config, w: World, end: World)
    requires Exchanged(cfg, w, end, 1)
    ensures Untracked(cfg, end.data) == Untracked(cfg, w.data)
    ensures View(cfg, end.data) == View(cfg, RemoteTree(w))
    ensures View(cfg, RemoteTree(end)) == View(cfg, w.data)
  {
  }

  /* ---- how a push ends ---- */

  /** The pull complained in one of the ways a push knows how to deal with. */
  predicate Recovers(failure: Option<Complaint>) {
    failure == Some(SaysConflict) || failure == Some(SaysDiverged)
  }

  /** The words of the push's own pull. */
  function PullFailure(w: World, o: PullOutcome): Option<Complaint> {
    if !PullFails(w.mergeHead.Some?, o) then None
    else Some(if o.Merges? then SaysOther else o.complaint)
  }

  /** An unfinished merge is still there when the files are compared. */
  predicate MergeLeft(w: World, s: PushScript) {
    && (w.mergeHead.Some? || s.pull.Conflicts?)
    && match PullFailure(w, s.pull)
       case Some(SaysConflict) => !s.resetOk && !s.resetToRemoteOk
       case Some(SaysDiverged) => !s.resetToRemoteOk
       case _ => true
  }

  lemma PullFailureIs(w: World, s: PushScript)
    requires w.Valid()
    ensures var p := GitPull(Interfere(w, s.beforePull), s.pull);
      && p.failure == PullFailure(w, s.pull) && p.world.Valid()
      && (p.world.mergeHead.Some? <==> w.mergeHead.Some? || s.pull.Conflicts?)
  {
    InterfereGrows(w, s.beforePull);
    var w1 := Interfere(w, s.beforePull);
    UnfinishedAfterPull(w1, s.pull);
    PullGrows(w1, s.pull);
  }

  lemma RefetchMerge(w: World, s: PushScript)
    requires w.Valid()
    ensures Refetched(w, s).mergeHead.Some? <==> w.mergeHead.Some? && !s.resetToRemoteOk
  {
    InterfereGrows(w, s.beforeFetch);
  }

  lemma MergeLeftExactly(w: World, s: PushScript)
    requires w.Valid()
    ensures CatchUp(w, s).mergeHead.Some? <==> MergeLeft(w, s)
  {
    PullFailureIs(w, s);
    var p := GitPull(Interfere(w, s.beforePull), s.pull).world;
    RefetchMerge(p, s);
    RefetchMerge(ResetHard(p, p.head, s.resetOk), s);
  }

  /** Nothing differs from the head the clone came to. */
  predicate NothingNew(cfg: Config, w: World, s: PushScript) {
    var c := CatchUp(w, s);
    var head := c.TreeOf(CaughtHead(w, s));
    && !MergeLeft(w, s)
    && View(cfg, head) == View(cfg, w.data) && Untracked(cfg, head) == Untracked(cfg, c.work)
  }

  /** A commit builds on the head, and on what an unfinished merge was to bring in. */
  function ParentsOf(w: World): seq<CommitId> {
    [w.head] + if w.mergeHead.Some? then [w.mergeHead.value] else []
  }

  /** The commit reaches the remote. */
  predicate Arrives(cfg: Config, w: World, s: PushScript) {
    var c := CatchUp(w, s);
    var n := Interfere(c.(store := c.store + [Commit(MirroredPush(cfg, w, s), ParentsOf(c))]), s.beforePush);
    s.push.Delivered? && Reaches(n.store, |c.store|, n.remote)
  }

  /** The clone's files once the data is mirrored into it. */
  function MirroredPush(cfg: Config, w: World, s: PushScript): Tree {
    CopyTracked(cfg, w.data, CatchUp(w, s).work, s.toGit).tree
  }

  lemma NothingNewExactly(cfg: Config, w: World, s: PushScript)
    requires w.Valid() && !CopyBreaks(cfg, w.data, s.toGit)
    ensures var c := CatchUp(w, s);
            NothingNew(cfg, w, s) <==> c.mergeHead.None? && MirroredPush(cfg, w, s) == c.TreeOf(c.head)
  {
    var c, m := CatchUp(w, s), MirroredPush(cfg, w, s);
    CatchUpHead(w, s);
    MergeLeftExactly(w, s);
    CopyOkExactly(cfg, w.data, c.work, s.toGit);
    CopyTrackedExact(cfg, w.data, c.work, s.toGit);
    if View(cfg, m) == View(cfg, c.TreeOf(c.head)) && Untracked(cfg, m) == Untracked(cfg, c.TreeOf(c.head)) {
      TreeSplit(cfg, m, c.TreeOf(c.head));
    }
  }

  /** The last two steps of a push. */
  lemma PublishEndsExactly(c: World, tree: Tree, s: PushScript)
    requires c.Valid() && s.commitOk
    ensures var r := GitCommit(c.(work := tree, index := tree), true);
            var n := Interfere(c.(store := c.store + [Commit(tree, ParentsOf(c))]), s.beforePush);
      && (r.exit == NothingToCommit <==> c.mergeHead.None? && tree == c.TreeOf(c.head))
      && (r.exit == Committed <==> !(c.mergeHead.None? && tree == c.TreeOf(c.head)))
      && (r.exit == Committed ==>
            (GitPush(Interfere(r.world, s.beforePush), s.push).ok <==>
               s.push.Delivered? && Reaches(n.store, |c.store|, n.remote)))
  {
    var r := GitCommit(c.(work := tree, index := tree), true);
    if r.exit == Committed {
      InterfereIgnores(r.world, c.(store := c.store + [Commit(tree, ParentsOf(c))]), s.beforePush);
      InterfereGrows(r.world, s.beforePush);
    }
  }

  /** Every way a push can end, and exactly when; whatever the push's own pull complained of, the push
      goes on. */
  lemma PushEndsExactly(cfg: Config, w: World, s: PushScript)
    requires w.Valid()
    ensures var exit, broken, nothing := Pushed(cfg, w, s).exit, CopyBreaks(cfg, w.data, s.toGit), NothingNew(cfg, w, s);
            var made := !broken && s.addOk && s.commitOk;
      && (exit == CopyFailed <==> broken)
      && (exit == AddFailed <==> !broken && !s.addOk)
      && (exit == CommitNotMade <==> !broken && s.addOk && !s.commitOk)
      && (exit == NothingToPush <==> made && nothing)
      && (exit == PushDone <==> made && !nothing && Arrives(cfg, w, s))
      && (exit == PushFailed <==> made && !nothing && !Arrives(cfg, w, s))
  {
    var c := CatchUp(w, s);
    CatchUpGrows(w, s);
    CopyOkExactly(cfg, w.data, c.work, s.toGit);
    if !CopyBreaks(cfg, w.data, s.toGit) && s.addOk && s.commitOk {
      NothingNewExactly(cfg, w, s);
      PublishEndsExactly(c, MirroredPush(cfg, w, s), s);
      var m := MirroredPush(cfg, w, s);
      assert AddAll(Mirrored(cfg, c, s.toGit), true) == c.(work := m, index := m);
    }
  }

  /* ---- when a push publishes the data ---- */

  /** Nobody else moves, the pull works or complains in a way that is dealt with, and every later command
      works. */
  predicate SmoothPush(cfg: Config, w: World, s: PushScript) {
    && s.beforePull == [] && s.beforeFetch == [] && s.beforePush == []
    && (PullFailure(w, s.pull).None? || (Recovers(PullFailure(w, s.pull)) && s.fetchOk && s.resetToRemoteOk))
    && !CopyBreaks(cfg, w.data, s.toGit) && s.addOk && s.commitOk && s.push.Delivered?
  }

  /** Then the clone comes to a head that builds on the remote tip. */
  lemma SmoothCatchUp(cfg: Config, w: World, s: PushScript)
    requires w.Valid() && SmoothPush(cfg, w, s)
    ensures var c := CatchUp(w, s);
      && c.Valid() && c.remote == w.remote && c.mergeHead.None? && Reaches(c.store, c.head, c.remote)
  {
    CatchUpHead(w, s);
    MergeLeftExactly(w, s);
    PullFailureIs(w, s);
    PullGrows(w, s.pull);
    if GitPull(w, s.pull).failure.None? {
      PullLandsOnRemote(w, s.pull);
    }
  }

  lemma SmoothPublication(c: World, tree: Tree)
    requires c.Valid() && c.mergeHead.None? && Reaches(c.store, c.head, c.remote)
    ensures Reaches(c.store + [Commit(tree, ParentsOf(c))], |c.store|, c.remote)
  {
    var newer := c.store + [Commit(tree, ParentsOf(c))];
    ReachesStable(c.store, newer, c.head, c.remote);
    assert newer[|c.store|].parents[0] == c.head && Reaches(newer, newer[|c.store|].parents[0], c.remote);
  }

  lemma SmoothPushArrives(cfg: Config, w: World, s: PushScript)
    requires w.Valid() && SmoothPush(cfg, w, s)
    ensures Arrives(cfg, w, s)
  {
    SmoothCatchUp(cfg, w, s);
    SmoothPublication(CatchUp(w, s), MirroredPush(cfg, w, s));
  }

  /** Such a push reports success.  The remote tip then has the tracked data exactly if the clone had to be
      recovered, or a commit was pushed, or the remote had the data before; so always if the clone had
      no commit the remote lacks. */
  lemma SmoothPushPublishes(cfg: Config, w: World, s: PushScript)
    requires w.Valid() && SmoothPush(cfg, w, s)
    ensures var r := Pushed(cfg, w, s);
            var published := View(cfg, RemoteTree(r.world)) == View(cfg, w.data);
      && r.exit.Reported()
      && (published <==> Recovers(PullFailure(w, s.pull)) || r.exit == PushDone || View(cfg, RemoteTree(w)) == View(cfg, w.data))
      && (Reaches(w.store, w.remote, w.head) ==> published)
  {
    SmoothPushArrives(cfg, w, s);
    PushEndsExactly(cfg, w, s);
    PushPublishesData(cfg, w, s);
    PushGrowsRemote(cfg, w, s);
    PullFailureIs(w, s);
    if Pushed(cfg, w, s).exit == NothingToPush {
      NothingPublished(cfg, w, s);
    }
  }

  lemma NothingPublished(cfg: Config, w: World, s: PushScript)
    requires w.Valid() && SmoothPush(cfg, w, s) && Pushed(cfg, w, s).exit == NothingToPush
    ensures var r := Pushed(cfg, w, s).world;
            var published := View(cfg, RemoteTree(r)) == View(cfg, w.data);
      && View(cfg, RemoteTree(r)) == View(cfg, RemoteTree(w))
      && (Recovers(PullFailure(w, s.pull)) || Reaches(w.store, w.remote, w.head) ==> published)
  {
    NothingToPushExactly(cfg, w, s);
    SmoothCatchUp(cfg, w, s);
    CatchUpGrows(w, s);
    CommitGrows(AddAll(Mirrored(cfg, CatchUp(w, s), s.toGit), true), s.commitOk);
    PullFailureIs(w, s);
    PushGrowsRemote(cfg, w, s);
    ReachesStable(w.store, CatchUp(w, s).store, w.remote, w.head);
  }
}
