/** Where the sync operations miss what they are for, and exactly when. */
module SyncExactness {
  import opened Options
  import opened Git
  import opened Mirror
  import opened GitSync

  /* ---- what a pull leaves in the data directory ---- */

  /** The clone's files once the local ones are mirrored into it; that copy may have failed. */
  function MirroredTree(cfg: Config, w: World, s: PullScript): Tree {
    CopyTracked(cfg, w.data, Arrive(w, s).world.work, s.toGit).tree
  }

  /** The index the preservation commit is made from. */
  function Staged(cfg: Config, w: World, s: PullScript): Tree {
    if s.addOk then MirroredTree(cfg, w, s) else Arrive(w, s).world.index
  }

  /** The files of the head a pull goes back to. */
  function Target(w: World, s: PullScript): Tree {
    Arrive(w, s).world.TreeOf(Arrive(w, s).world.head)
  }

  /** The files the last copy reads: going back removes only what was staged. */
  function Applied(cfg: Config, w: World, s: PullScript): Tree {
    if s.finalResetOk then (MirroredTree(cfg, w, s) - Staged(cfg, w, s).Keys) + Target(w, s) else MirroredTree(cfg, w, s)
  }

  /** The world after the preservation step. */
  function Kept(cfg: Config, w: World, s: PullScript): World {
    Preserve(Mirrored(cfg, Arrive(w, s).world, s.toGit), s).world
  }

  lemma KeptFacts(cfg: Config, w: World, s: PullScript)
    requires w.Valid()
    ensures var a, kept := Arrive(w, s).world, Kept(cfg, w, s);
      && a.Valid() && kept.work == MirroredTree(cfg, w, s) && kept.TreeOf(a.head) == Target(w, s) && kept.data == w.data
      && (kept.work - kept.index.Keys) + Target(w, s) == (kept.work - Staged(cfg, w, s).Keys) + Target(w, s)
  {
    var a := Arrive(w, s).world;
    ArriveGrows(w, s);
    var mirrored := Mirrored(cfg, a, s.toGit);
    PreserveGrows(mirrored, s);
    PreserveIndex(mirrored, s);
  }

  /** The pull got past the preservation step and started to write to the data directory. */
  predicate Writes(exit: PullExit) {
    exit == PullDone || exit == CopyBackFailed
  }

  /** The data directory after the last copy, which may have failed with the old files removed. */
  function LeftBehind(cfg: Config, w: World, s: PullScript): Tree {
    CopyTracked(cfg, Applied(cfg, w, s), w.data, s.toData).tree
  }

  /** What a pull leaves, and that a completed one leaves exactly the files applied. */
  lemma PullApplies(cfg: Config, w: World, s: PullScript)
    requires w.Valid() && Writes(Pulled(cfg, w, s).exit)
    ensures var r := Pulled(cfg, w, s);
      && r.world.data == LeftBehind(cfg, w, s)
      && (r.exit == PullDone ==> View(cfg, r.world.data) == View(cfg, Applied(cfg, w, s)))
      && r.world.store == Kept(cfg, w, s).store && r.world.remote == Kept(cfg, w, s).remote
      && r.world.TreeOf(r.originalHead) == Target(w, s)
  {
    KeptFacts(cfg, w, s);
    var kept := Kept(cfg, w, s);
    var clean := ResetHard(kept, Arrive(w, s).world.head, s.finalResetOk);
    assert clean.work == Applied(cfg, w, s);
    CopyTrackedExact(cfg, clean.work, clean.data, s.toData);
  }

  /** Every mirrored tracked file was staged, or belongs to the head anyway. */
  predicate ResetCovers(cfg: Config, files: Tree, staged: Tree, target: Tree) {
    forall p | p in View(cfg, files) :: p in staged || p in target
  }

  lemma ResetViewExactly(cfg: Config, files: Tree, staged: Tree, target: Tree)
    ensures View(cfg, (files - staged.Keys) + target) == View(cfg, target) <==> ResetCovers(cfg, files, staged, target)
  {
    var t := (files - staged.Keys) + target;
    if ResetCovers(cfg, files, staged, target) {
      forall p | cfg.Tracks(p)
        ensures Same(t, target, p)
      {
        assert p in files ==> p in View(cfg, files);
      }
    } else {
      var p :| p in View(cfg, files) && !(p in staged || p in target);
      assert p in View(cfg, t) && p !in View(cfg, target);
    }
  }

  /** Exactly when a completed pull leaves the files of `originalHead`: the final reset worked and
      everything mirrored was staged or known to the index or to that head, or there was nothing
      to change. */
  lemma PullDeliversHeadExactly(cfg: Config, w: World, s: PullScript)
    requires w.Valid() && Pulled(cfg, w, s).exit == PullDone
    ensures var r, m := Pulled(cfg, w, s), MirroredTree(cfg, w, s);
            (View(cfg, r.world.data) == View(cfg, r.world.TreeOf(r.originalHead)) <==>
               || (s.finalResetOk && (s.addOk || ResetCovers(cfg, m, Arrive(w, s).world.index, Target(w, s))))
               || View(cfg, m) == View(cfg, Target(w, s)))
  {
    PullApplies(cfg, w, s);
    var m, staged, target := MirroredTree(cfg, w, s), Staged(cfg, w, s), Target(w, s);
    ResetViewExactly(cfg, m, staged, target);
    if View(cfg, m) == View(cfg, target) {
      forall p | p in View(cfg, m)
        ensures p in target
      {
        assert p in View(cfg, target);
      }
    }
  }

  /* ---- which commit a pull goes back to ---- */

  /** The head the last `git pull` of the operation starts from. */
  function StartingHead(w: World, s: PullScript): CommitId {
    var first := GitPull(Interfere(w, s.beforePull), s.pull);
    if first.failure.Some? && s.resetOk then first.world.tracking else w.head
  }

  /** The head a pull applies is the remote commit it fetched exactly if the remote had the commit
      the last `git pull` started from: the clone's own head, or after a failed first attempt and a
      reset the remote-tracking ref, which the remote always has. */
  lemma PullTakesRemoteExactly(cfg: Config, w: World, s: PullScript)
    requires w.Valid() && Arrive(w, s).failure.None?
    ensures Pulled(cfg, w, s).originalHead == Arrive(w, s).world.head
    ensures var a := Arrive(w, s).world; a.head == a.remote <==> Reaches(a.store, a.remote, StartingHead(w, s))
    ensures Follows(w) && GitPull(Interfere(w, s.beforePull), s.pull).failure.Some? && s.resetOk ==>
              Arrive(w, s).world.head == Arrive(w, s).world.remote
  {
    var w1 := Interfere(w, s.beforePull);
    InterfereGrows(w, s.beforePull);
    var first := GitPull(w1, s.pull);
    if first.failure.None? {
      LandsAfterGrowth(w1, s.pull);
    } else {
      FailedPullKeepsHead(w1, s.pull);
      GrowsTransitive(w, w1, first.world);
      RetryTakesRemote(first.world, s);
    }
  }

  lemma FailedPullKeepsHead(w: World, o: PullOutcome)
    requires w.Valid() && GitPull(w, o).failure.Some?
    ensures GitPull(w, o).world.head == w.head && Grows(w, GitPull(w, o).world)
  {
    PullGrows(w, o);
  }

  /** The second attempt, after a failed one and a reset that may fail too. */
  lemma RetryTakesRemote(w: World, s: PullScript)
    requires w.Valid()
    requires var w2 := Interfere(ResetHard(w, w.tracking, s.resetOk), s.beforeRetry);
             GitPull(w2, s.retry).failure.None?
    ensures var a := GitPull(Interfere(ResetHard(w, w.tracking, s.resetOk), s.beforeRetry), s.retry).world;
      && (a.head == a.remote <==> Reaches(a.store, a.remote, if s.resetOk then w.tracking else w.head))
      && (Follows(w) && s.resetOk ==> a.head == a.remote)
  {
    var reset := ResetHard(w, w.tracking, s.resetOk);
    var w2 := Interfere(reset, s.beforeRetry);
    InterfereGrows(reset, s.beforeRetry);
    LandsAfterGrowth(w2, s.retry);
    if Follows(w) && s.resetOk {
      assert Follows(reset);
      PullGrows(w2, s.retry);
      ReachesStable(w2.store, GitPull(w2, s.retry).world.store, w2.remote, w2.tracking);
    }
  }

  lemma LandsAfterGrowth(w: World, o: PullOutcome)
    requires w.Valid() && GitPull(w, o).failure.None?
    ensures var a := GitPull(w, o).world; a.head == a.remote <==> Reaches(a.store, a.remote, w.head)
  {
    PullLandsOnRemote(w, o);
    PullGrows(w, o);
    ReachesStable(w.store, GitPull(w, o).world.store, w.remote, w.head);
  }

  /* ---- when a pull loses work ---- */

  /** Some commit up to `tip` has these tracked files. */
  predicate Holds(cfg: Config, store: seq<Commit>, tip: CommitId, view: Tree) {
    exists c | 0 <= c < |store| :: Reaches(store, tip, c) && View(cfg, store[c].tree) == view
  }

  /** The preservation commit is made. */
  predicate Commits(cfg: Config, w: World, s: PullScript) {
    s.commitOk && Staged(cfg, w, s) != Target(w, s)
  }

  /** The remote branch after the preservation step: with a commit, that one on top of the head. */
  lemma PreserveMakes(w: World, s: PullScript)
    requires w.Valid() && w.mergeHead.None? && Preserve(w, s).ok
    ensures var staged, kept := if s.addOk then w.work else w.index, Preserve(w, s).world;
            if s.commitOk && staged != w.TreeOf(w.head) then
              kept.remote == |w.store| && w.store + [Commit(staged, [w.head])] <= kept.store
            else kept.remote == w.remote && kept.store == w.store
  {
    if !w.Clean() {
      var c := GitCommit(AddAll(w, s.addOk), s.commitOk);
      assert [w.head] + [] == [w.head];
      CommitGrows(AddAll(w, s.addOk), s.commitOk);
      InterfereGrows(c.world, s.beforePush);
    }
  }

  lemma HeldByCommit(cfg: Config, older: seq<Commit>, newer: seq<Commit>, tree: Tree, head: CommitId, view: Tree)
    requires head < |older| && older + [Commit(tree, [head])] <= newer
    ensures Holds(cfg, newer, |older|, view) <==> View(cfg, tree) == view || Holds(cfg, older, head, view)
  {
    var n := |older|;
    assert newer[n] == Commit(tree, [head]) && newer[n].parents[0] == head;
    assert older <= newer by { assert forall c | 0 <= c < n :: newer[c] == (older + [Commit(tree, [head])])[c]; }
    if Holds(cfg, newer, n, view) && View(cfg, tree) != view {
      var c :| 0 <= c < |newer| && Reaches(newer, n, c) && View(cfg, newer[c].tree) == view;
      assert Reaches(newer, head, c);
      ReachesDescends(newer, head, c);
      ReachesStable(older, newer, head, c);
      assert older[c] == newer[c];
    }
    if Holds(cfg, older, head, view) {
      var c :| 0 <= c < n && Reaches(older, head, c) && View(cfg, older[c].tree) == view;
      ReachesStable(older, newer, head, c);
      assert Reaches(newer, newer[n].parents[0], c);
      assert Reaches(newer, n, c) && newer[c] == older[c];
    }
    if View(cfg, tree) == view { assert Reaches(newer, n, n); }
  }

  /** What the remote holds after a pull that got past the preservation step. */
  lemma PullRecordsExactly(cfg: Config, w: World, s: PullScript, view: Tree)
    requires w.Valid() && Writes(Pulled(cfg, w, s).exit)
    ensures var a := Arrive(w, s).world;
            (OnRemote(cfg, Pulled(cfg, w, s).world, view) <==>
               if Commits(cfg, w, s) then View(cfg, Staged(cfg, w, s)) == view || Holds(cfg, a.store, a.head, view)
               else OnRemote(cfg, a, view))
  {
    var a, kept := Arrive(w, s).world, Kept(cfg, w, s);
    ArriveGrows(w, s);
    PullApplies(cfg, w, s);
    SameHistory(cfg, kept, Pulled(cfg, w, s).world, view);
    PreserveMakes(Mirrored(cfg, a, s.toGit), s);
    if Commits(cfg, w, s) {
      HeldByCommit(cfg, a.store, kept.store, Staged(cfg, w, s), a.head, view);
    } else {
      SameHistory(cfg, a, kept, view);
    }
  }

  /** Whatever failed on the way and however the pull ended, it loses the local files exactly if it
      started to write, replaced them, and neither the commit it made nor the history it built on has
      them. */
  lemma PullLosesWorkExactly(cfg: Config, w: World, s: PullScript)
    requires w.Valid()
    ensures var a, local := Arrive(w, s).world, View(cfg, w.data);
            (Loses(cfg, w, Pulled(cfg, w, s).world) <==>
               && Writes(Pulled(cfg, w, s).exit)
               && View(cfg, LeftBehind(cfg, w, s)) != local
               && (if Commits(cfg, w, s) then
                     View(cfg, Staged(cfg, w, s)) != local && !Holds(cfg, a.store, a.head, local)
                   else !OnRemote(cfg, a, local)))
  {
    if Writes(Pulled(cfg, w, s).exit) {
      PullApplies(cfg, w, s);
      PullRecordsExactly(cfg, w, s, View(cfg, w.data));
    } else {
      PullErrorsLeaveData(cfg, w, s);
    }
  }

  /** No commit has these tracked files. */
  predicate Unrecorded(cfg: Config, w: World, view: Tree) {
    forall c | 0 <= c < |w.store| :: View(cfg, w.store[c].tree) != view
  }

  /** For local files that no commit has: they are lost exactly if they are replaced and not
      committed as they are.  With staging and the final reset working a completed pull always
      replaces them, so then it takes a failed commit or a failed mirror copy. */
  lemma PullLosesNewWorkExactly(cfg: Config, w: World, s: PullScript)
    requires w.Valid() && Unrecorded(cfg, Arrive(w, s).world, View(cfg, w.data))
    ensures var r, local := Pulled(cfg, w, s), View(cfg, w.data);
            var recorded := s.commitOk && View(cfg, Staged(cfg, w, s)) == local;
      && (Loses(cfg, w, r.world) <==> Writes(r.exit) && View(cfg, LeftBehind(cfg, w, s)) != local && !recorded)
      && (r.exit == PullDone && s.addOk && s.finalResetOk ==> (Loses(cfg, w, r.world) <==> !recorded))
  {
    var local := View(cfg, w.data);
    PullLosesWorkExactly(cfg, w, s);
    ArriveGrows(w, s);
    NothingRecorded(cfg, Arrive(w, s).world, local);
    if Pulled(cfg, w, s).exit == PullDone && s.addOk && s.finalResetOk {
      PullApplies(cfg, w, s);
      FullyReplaced(MirroredTree(cfg, w, s), Target(w, s));
    }
  }

  lemma NothingRecorded(cfg: Config, w: World, view: Tree)
    requires w.Valid() && Unrecorded(cfg, w, view)
    ensures View(cfg, w.TreeOf(w.head)) != view && !Holds(cfg, w.store, w.head, view) && !OnRemote(cfg, w, view)
  {
    assert w.TreeOf(w.head) == w.store[w.head].tree;
  }

  lemma FullyReplaced(files: Tree, target: Tree)
    ensures (files - files.Keys) + target == target
  {
  }

  /* ---- lost edits ---- */

  function QuietPull(): PullScript {
    var copy := CopyScript(Rsync, Rsync);
    PullScript([], Merges(map[], map[], map[]), true, [], Merges(map[], map[], map[]),
               copy, true, true, [], Delivered, true, copy)
  }

  function QuietPush(): PushScript {
    PushScript([], Merges(map[], map[], map[]), true, [], true, true,
               CopyScript(Rsync, Rsync), true, true, [], Delivered)
  }

  /** One file, edited locally; the clone is up to date with the remote, which has `known` of it. */
  function LocalEdit(cfg: Config, known: Tree): World {
    World(map[cfg.dockerDir := "new"], known, known, 0, None, 0, 0, [Commit(known, [])])
  }

  lemma OneFile(cfg: Config, known: Tree)
    requires cfg.dockerDir in known ==> known[cfg.dockerDir] != "new"
    ensures var w := LocalEdit(cfg, known);
      && w.Valid() && Unrecorded(cfg, w, View(cfg, w.data)) && View(cfg, w.data) == w.data
      && forall s: PullScript | s.beforePull == [] && s.pull.Merges? :: Arrive(w, s) == PullResult(w, None)
  {
    var w := LocalEdit(cfg, known);
    assert cfg.dockerDir in View(cfg, w.data) && View(cfg, w.data)[cfg.dockerDir] == "new";
    assert cfg.Tracks(cfg.dockerDir);
  }

  /** Only the commit fails. */
  lemma PullCanLoseWork(cfg: Config)
    ensures var w, s := LocalEdit(cfg, map[]), QuietPull().(commitOk := false);
            w.Valid() && Pulled(cfg, w, s).exit == PullDone && Loses(cfg, w, Pulled(cfg, w, s).world)
  {
    var w, s := LocalEdit(cfg, map[]), QuietPull().(commitOk := false);
    OneFile(cfg, map[]);
    QuietEnd(cfg, w, s);
    PullLosesNewWorkExactly(cfg, w, s);
  }

  /** Only the copy of the local files into the clone fails. */
  lemma FailedMirrorLosesWork(cfg: Config)
    ensures var w, s := LocalEdit(cfg, map[]), QuietPull().(toGit := CopyScript(Rsync, Broken(map[])));
            w.Valid() && Pulled(cfg, w, s).exit == PullDone && Loses(cfg, w, Pulled(cfg, w, s).world)
  {
    var w, s := LocalEdit(cfg, map[]), QuietPull().(toGit := CopyScript(Rsync, Broken(map[])));
    OneFile(cfg, map[]);
    QuietEnd(cfg, w, s);
    assert cfg.dockerDir !in MirroredTree(cfg, w, s);
    assert cfg.dockerDir !in View(cfg, MirroredTree(cfg, w, s));
    PullLosesNewWorkExactly(cfg, w, s);
  }

  /** Only staging fails. */
  lemma FailedAddLosesWork(cfg: Config)
    ensures var w, s := LocalEdit(cfg, map[cfg.dockerDir := "old"]), QuietPull().(addOk := false);
            w.Valid() && Pulled(cfg, w, s).exit == PullDone && Loses(cfg, w, Pulled(cfg, w, s).world)
  {
    var w, s := LocalEdit(cfg, map[cfg.dockerDir := "old"]), QuietPull().(addOk := false);
    OneFile(cfg, map[cfg.dockerDir := "old"]);
    QuietEnd(cfg, w, s);
    NothingStaged(cfg, w, s);
    PullApplies(cfg, w, s);
    Differs(cfg, Applied(cfg, w, s), w.data);
    Differs(cfg, Staged(cfg, w, s), w.data);
    PullLosesNewWorkExactly(cfg, w, s);
  }

  /** The old file is all that was ever staged, and it goes back over the new one. */
  lemma NothingStaged(cfg: Config, w: World, s: PullScript)
    requires w == LocalEdit(cfg, map[cfg.dockerDir := "old"]) && !s.addOk && s.finalResetOk
    requires Arrive(w, s) == PullResult(w, None)
    ensures cfg.dockerDir in Staged(cfg, w, s) && Staged(cfg, w, s)[cfg.dockerDir] == "old"
    ensures cfg.dockerDir in Applied(cfg, w, s) && Applied(cfg, w, s)[cfg.dockerDir] == "old"
  {
  }

  lemma Differs(cfg: Config, a: Tree, b: Tree)
    requires cfg.dockerDir in a && cfg.dockerDir in b && a[cfg.dockerDir] != b[cfg.dockerDir]
    ensures View(cfg, a) != View(cfg, b)
  {
    assert View(cfg, a)[cfg.dockerDir] == a[cfg.dockerDir] && View(cfg, b)[cfg.dockerDir] == b[cfg.dockerDir];
  }

  /** Only the last copy fails, when the clone has an unpushed commit that holds the local files: there
      is nothing to preserve, and the remote never gets them. */
  lemma FailedCopyBackLosesWork(cfg: Config)
    ensures var w, s := UnpushedCommit(cfg), QuietPull().(toData := CopyScript(Rsync, Broken(map[])));
            w.Valid() && Pulled(cfg, w, s).exit == CopyBackFailed && Loses(cfg, w, Pulled(cfg, w, s).world)
  {
    var w, s := UnpushedCommit(cfg), QuietPull().(toData := CopyScript(Rsync, Broken(map[])));
    UnpushedFacts(cfg);
    CopyTrackedExact(cfg, w.data, w.work, s.toGit);
    TreeSplit(cfg, MirroredTree(cfg, w, s), w.data);
    FullyReplaced(MirroredTree(cfg, w, s), Target(w, s));
    BrokenEnd(cfg, w, s);
    PullLosesWorkExactly(cfg, w, s);
    forall c | 0 <= c < |w.store| && Reaches(w.store, w.remote, c)
      ensures View(cfg, w.store[c].tree) != View(cfg, w.data)
    {
      ReachesDescends(w.store, w.remote, c);
      assert cfg.dockerDir in View(cfg, w.data);
    }
  }

  /** The commit and the last copy fail. */
  lemma FailedCommitAndCopyLoseWork(cfg: Config)
    ensures var w := LocalEdit(cfg, map[cfg.dockerDir := "old"]);
            var s := QuietPull().(commitOk := false, toData := CopyScript(Rsync, Broken(map[])));
            w.Valid() && Pulled(cfg, w, s).exit == CopyBackFailed && Loses(cfg, w, Pulled(cfg, w, s).world)
  {
    var w := LocalEdit(cfg, map[cfg.dockerDir := "old"]);
    var s := QuietPull().(commitOk := false, toData := CopyScript(Rsync, Broken(map[])));
    OneFile(cfg, map[cfg.dockerDir := "old"]);
    FullyReplaced(MirroredTree(cfg, w, s), Target(w, s));
    BrokenEnd(cfg, w, s);
    PullLosesNewWorkExactly(cfg, w, s);
  }

  /** The docker directory's copy fails when nothing is left of it. */
  lemma CopyBackBreaks(cfg: Config, src: Tree, dst: Tree)
    requires cfg.dockerDir in src
    ensures var r := CopyTracked(cfg, src, dst, CopyScript(Rsync, Broken(map[])));
            !r.ok && cfg.dockerDir !in View(cfg, r.tree)
  {
    assert cfg.dockerDir in Part(src, cfg.dockerDir);
  }

  lemma BrokenEnd(cfg: Config, w: World, s: PullScript)
    requires w.Valid() && Arrive(w, s) == PullResult(w, None)
    requires s.beforePush == [] && s.push.Delivered? && s.toData == CopyScript(Rsync, Broken(map[]))
    requires Reaches(w.store, w.head, w.remote) && w.mergeHead.None?
    requires cfg.dockerDir in Applied(cfg, w, s) && cfg.dockerDir in w.data
    ensures Pulled(cfg, w, s).exit == CopyBackFailed && View(cfg, LeftBehind(cfg, w, s)) != View(cfg, w.data)
  {
    PreservationArrives(Mirrored(cfg, w, s.toGit), s);
    KeptFacts(cfg, w, s);
    assert ResetHard(Kept(cfg, w, s), w.head, s.finalResetOk).work == Applied(cfg, w, s);
    CopyBackBreaks(cfg, Applied(cfg, w, s), w.data);
    assert cfg.dockerDir in View(cfg, w.data);
  }

  lemma QuietEnd(cfg: Config, w: World, s: PullScript)
    requires w.Valid() && Arrive(w, s).failure.None?
    requires s.beforePush == [] && s.push.Delivered? && s.toData == CopyScript(Rsync, Rsync)
    requires Reaches(w.store, w.head, w.remote) && Arrive(w, s).world == w && w.mergeHead.None?
    ensures Pulled(cfg, w, s).exit == PullDone
  {
    PreservationArrives(Mirrored(cfg, w, s.toGit), s);
  }

  lemma PreservationArrives(w: World, s: PullScript)
    requires w.Valid() && w.mergeHead.None? && Reaches(w.store, w.head, w.remote)
    requires s.beforePush == [] && s.push.Delivered?
    ensures Preserve(w, s).ok
  {
    var c := GitCommit(AddAll(w, s.addOk), s.commitOk);
    if !w.Clean() && c.exit.Committed? {
      ReachesStable(w.store, c.world.store, w.head, w.remote);
      assert c.world.store[c.world.head].parents[0] == w.head;
      assert Reaches(c.world.store, c.world.store[c.world.head].parents[0], w.remote);
    }
  }

  /* ---- when a push that reports success has not published the data ---- */

  /** The head a push compares the data with, after it tried to catch up with the remote. */
  function CaughtHead(w: World, s: PushScript): CommitId {
    var p := GitPull(Interfere(w, s.beforePull), s.pull);
    match p.failure
    case None => p.world.head
    case Some(SaysOther) => w.head
    case Some(_) => if s.resetToRemoteOk then CatchUp(w, s).tracking else w.head
  }

  /** Where each branch of catching up ends. */
  lemma CatchUpHead(w: World, s: PushScript)
    requires w.Valid()
    ensures var c, p := CatchUp(w, s), GitPull(Interfere(w, s.beforePull), s.pull);
      && c.Valid() && c.head == CaughtHead(w, s)
      && (p.failure.None? ==> (c.head == c.remote <==> Reaches(c.store, c.remote, w.head)))
      && (p.failure.Some? && p.failure.value != SaysOther && s.fetchOk ==> c.tracking == c.remote)
  {
    CatchUpGrows(w, s);
    InterfereGrows(w, s.beforePull);
    var w1 := Interfere(w, s.beforePull);
    var p := GitPull(w1, s.pull);
    if p.failure.None? {
      LandsAfterGrowth(w1, s.pull);
    } else {
      FailedPullKeepsHead(w1, s.pull);
      RefetchHead(p.world, s);
      RefetchHead(ResetHard(p.world, p.world.head, s.resetOk), s);
    }
  }

  lemma RefetchHead(w: World, s: PushScript)
    requires w.Valid()
    ensures var fetched := Fetch(Interfere(w, s.beforeFetch), s.fetchOk);
            var c := ResetHard(fetched, fetched.tracking, s.resetToRemoteOk);
      && c.head == (if s.resetToRemoteOk then c.tracking else w.head)
      && (s.fetchOk ==> c.tracking == c.remote)
  {
    InterfereGrows(w, s.beforeFetch);
  }

  /** Whatever became of the pull, "nothing to push" leaves the data on the remote exactly if the
      remote tip has the tracked files of the head the data was compared with: so always after a
      working fetch and reset, and after a working pull of a clone without a commit of its own. */
  lemma NothingToPushExactly(cfg: Config, w: World, s: PushScript)
    requires w.Valid() && Pushed(cfg, w, s).exit == NothingToPush
    ensures var r, c, p := Pushed(cfg, w, s).world, CatchUp(w, s), GitPull(Interfere(w, s.beforePull), s.pull);
            var published := View(cfg, r.TreeOf(r.remote)) == View(cfg, r.data);
      && (published <==> View(cfg, c.TreeOf(c.remote)) == View(cfg, c.TreeOf(CaughtHead(w, s))))
      && (p.failure.None? && Reaches(c.store, c.remote, w.head) ==> published)
      && (p.failure.Some? && p.failure.value != SaysOther && s.fetchOk && s.resetToRemoteOk ==> published)
  {
    var c := CatchUp(w, s);
    CatchUpHead(w, s);
    CatchUpGrows(w, s);
    PushPublishesData(cfg, w, s);
    CommitGrows(AddAll(Mirrored(cfg, c, s.toGit), true), s.commitOk);
  }

  function UnpushedCommit(cfg: Config): World {
    var t: Tree := map[cfg.dockerDir := "new"];
    World(t, t, t, 1, None, 0, 0, [Commit(map[], []), Commit(t, [0])])
  }

  lemma UnpushedFacts(cfg: Config)
    ensures var w := UnpushedCommit(cfg);
            w.Valid() && Reaches(w.store, w.head, w.remote) && cfg.dockerDir in View(cfg, w.data)
  {
    var w := UnpushedCommit(cfg);
    assert w.store[1].parents[0] == 0 && Reaches(w.store, w.store[1].parents[0], 0);
  }

  /** After a push that failed at its last step, trying again reports success and the remote still
      lacks the data. */
  lemma PushCanReportUnpushed(cfg: Config)
    ensures UnpushedCommit(cfg).Valid()
    ensures var r := Pushed(cfg, UnpushedCommit(cfg), QuietPush());
      && r.exit.Reported()
      && View(cfg, r.world.TreeOf(r.world.remote)) != View(cfg, r.world.data)
  {
    var w, s := UnpushedCommit(cfg), QuietPush();
    assert w.store[1].parents[0] == 0 && Reaches(w.store, w.store[1].parents[0], 0);
    assert CatchUp(w, s) == w;
    CopyTrackedExact(cfg, w.data, w.work, s.toGit);
    var m := CopyTracked(cfg, w.data, w.work, s.toGit).tree;
    TreeSplit(cfg, m, w.data);
    assert cfg.dockerDir in View(cfg, w.data);
  }

  function RemoteAhead(cfg: Config): World {
    World(map[], map[], map[], 0, None, 0, 1, [Commit(map[], []), Commit(map[cfg.dockerDir := "theirs"], [0])])
  }

  /** A pull that fails for an unknown reason is ignored: the push reports success, and the remote has
      other files. */
  lemma PushCanMissTheRemote(cfg: Config)
    ensures RemoteAhead(cfg).Valid()
    ensures var r := Pushed(cfg, RemoteAhead(cfg), QuietPush().(pull := Unreachable(SaysOther)));
      && r.exit.Reported()
      && View(cfg, r.world.TreeOf(r.world.remote)) != View(cfg, r.world.data)
  {
    var w, s := RemoteAhead(cfg), QuietPush().(pull := Unreachable(SaysOther));
    assert CatchUp(w, s) == w;
    CopyTrackedExact(cfg, w.data, w.work, s.toGit);
    TreeSplit(cfg, CopyTracked(cfg, w.data, w.work, s.toGit).tree, w.data);
    assert cfg.dockerDir in View(cfg, w.TreeOf(1));
  }
}
