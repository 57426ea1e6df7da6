/** The two sync operations, data directory <-> remote branch through a working clone.

    `Pulled` and `Pushed` say what one operation does for every way its commands can go and for
    every move other writers make in between; `GitSyncService` runs them step by step.  The
    lemmas say what survives, first over one operation and then over whole runs. */
module GitSync {
  import opened Options
  import opened Git
  import opened Mirror

  /* ---- pull: remote -> data ---- */

  /** How the commands of one pull go, and what other writers do before each remote contact. */
  datatype PullScript = PullScript(
    beforePull: seq<Foreign>, pull: PullOutcome,
    resetOk: bool, beforeRetry: seq<Foreign>, retry: PullOutcome,
    toGit: CopyScript, addOk: bool, commitOk: bool,
    beforePush: seq<Foreign>, push: PushOutcome,
    finalResetOk: bool, toData: CopyScript)

  datatype PullExit = PullFailed | PreservationNotPushed | CopyBackFailed | PullDone

  datatype PullRun = PullRun(world: World, exit: PullExit, originalHead: CommitId)

  /** Pull; if that fails, reset to the remote-tracking ref and pull once more. */
  function Arrive(w: World, s: PullScript): PullResult {
    var first := GitPull(Interfere(w, s.beforePull), s.pull);
    if first.failure.None? then first
    else GitPull(Interfere(ResetHard(first.world, first.world.tracking, s.resetOk), s.beforeRetry), s.retry)
  }

  function Mirrored(cfg: Config, w: World, s: CopyScript): World {
    w.(work := CopyTracked(cfg, w.data, w.work, s).tree)
  }

  /** Record local changes as a commit on the remote.  A failed commit is only logged. */
  function Preserve(w: World, s: PullScript): PushResult {
    if w.Clean() then PushResult(w, true)
    else
      var c := GitCommit(AddAll(w, s.addOk), s.commitOk);
      if c.exit.Committed? then GitPush(Interfere(c.world, s.beforePush), s.push)
      else PushResult(c.world, true)
  }

  function Pulled(cfg: Config, w: World, s: PullScript): PullRun {
    var arrived := Arrive(w, s);
    var original := arrived.world.head;
    if arrived.failure.Some? then PullRun(arrived.world, PullFailed, original)
    else
      var kept := Preserve(Mirrored(cfg, arrived.world, s.toGit), s);
      if !kept.ok then PullRun(kept.world, PreservationNotPushed, original)
      else
        var clean := ResetHard(kept.world, original, s.finalResetOk);
        var back := CopyTracked(cfg, clean.work, clean.data, s.toData);
        PullRun(clean.(data := back.tree), if back.ok then PullDone else CopyBackFailed, original)
  }

  /* ---- push: data -> remote ---- */

  datatype PushScript = PushScript(
    beforePull: seq<Foreign>, pull: PullOutcome,
    resetOk: bool, beforeFetch: seq<Foreign>, fetchOk: bool, resetToRemoteOk: bool,
    toGit: CopyScript, addOk: bool, commitOk: bool,
    beforePush: seq<Foreign>, push: PushOutcome)

  datatype PushExit = CopyFailed | AddFailed | CommitNotMade | NothingToPush | PushFailed | PushDone
  {
    /** The operation returned without an error. */
    predicate Reported() { NothingToPush? || PushDone? }
  }

  datatype PushRun = PushRun(world: World, exit: PushExit)

  /** Fetch, and reset to the remote-tracking ref. */
  function Refetched(w: World, s: PushScript): World {
    var fetched := Fetch(Interfere(w, s.beforeFetch), s.fetchOk);
    ResetHard(fetched, fetched.tracking, s.resetToRemoteOk)
  }

  /** Pull first; the words of a failed pull decide how the clone is brought to the remote state. */
  function CatchUp(w: World, s: PushScript): World {
    var p := GitPull(Interfere(w, s.beforePull), s.pull);
    match p.failure
    case None => p.world
    case Some(SaysConflict) => Refetched(ResetHard(p.world, p.world.head, s.resetOk), s)
    case Some(SaysDiverged) => Refetched(p.world, s)
    case Some(SaysOther) => p.world
  }

  function Pushed(cfg: Config, w: World, s: PushScript): PushRun {
    var caught := CatchUp(w, s);
    var mirrored := Mirrored(cfg, caught, s.toGit);
    if !CopyTracked(cfg, caught.data, caught.work, s.toGit).ok then PushRun(mirrored, CopyFailed)
    else if !s.addOk then PushRun(mirrored, AddFailed)
    else
      var c := GitCommit(AddAll(mirrored, true), s.commitOk);
      match c.exit
      case NothingToCommit => PushRun(c.world, NothingToPush)
      case CommitFailed => PushRun(c.world, CommitNotMade)
      case Committed =>
        var p := GitPush(Interfere(c.world, s.beforePush), s.push);
        PushRun(p.world, if p.ok then PushDone else PushFailed)
  }

  /* ---- one pull ---- */

  lemma ArriveGrows(w: World, s: PullScript)
    requires w.Valid()
    ensures Grows(w, Arrive(w, s).world) && Arrive(w, s).world.data == w.data
    ensures Arrive(w, s).failure.None? ==> Arrive(w, s).world.mergeHead.None?
  {
    var w1 := Interfere(w, s.beforePull);
    InterfereGrows(w, s.beforePull);
    var first := GitPull(w1, s.pull).world;
    PullGrows(w1, s.pull);
    GrowsTransitive(w, w1, first);
    var reset := ResetHard(first, first.tracking, s.resetOk);
    var w2 := Interfere(reset, s.beforeRetry);
    InterfereGrows(reset, s.beforeRetry);
    PullGrows(w2, s.retry);
    GrowsTransitive(w, reset, w2);
    GrowsTransitive(w, w2, GitPull(w2, s.retry).world);
  }

  lemma PreserveGrows(w: World, s: PullScript)
    requires w.Valid()
    ensures Grows(w, Preserve(w, s).world)
    ensures Preserve(w, s).world.data == w.data && Preserve(w, s).world.work == w.work
  {
    if !w.Clean() {
      var added := AddAll(w, s.addOk);
      var c := GitCommit(added, s.commitOk).world;
      CommitGrows(added, s.commitOk);
      var w1 := Interfere(c, s.beforePush);
      InterfereGrows(c, s.beforePush);
      GrowsTransitive(w, c, w1);
      PushGrows(w1, s.push);
      GrowsTransitive(w, w1, GitPush(w1, s.push).world);
    }
  }

  lemma PullGrowsRemote(cfg: Config, w: World, s: PullScript)
    requires w.Valid()
    ensures Grows(w, Pulled(cfg, w, s).world)
  {
    ArriveGrows(w, s);
    var mirrored := Mirrored(cfg, Arrive(w, s).world, s.toGit);
    PreserveGrows(mirrored, s);
    GrowsTransitive(w, mirrored, Preserve(mirrored, s).world);
  }

  /** The tracked files `view` can be checked out from the remote branch. */
  predicate OnRemote(cfg: Config, w: World, view: Tree) {
    exists c | 0 <= c < |w.store| :: Reaches(w.store, w.remote, c) && View(cfg, w.store[c].tree) == view
  }

  /** The tracked part of the data directory was replaced by something else, and the remote
      branch does not hold what was there. */
  predicate Loses(cfg: Config, before: World, after: World) {
    && View(cfg, after.data) != View(cfg, before.data)
    && !OnRemote(cfg, after, View(cfg, before.data))
  }

  /** When the commit is made, the remote ends up holding the mirrored files, or the pull stops. */
  lemma PreserveRecords(cfg: Config, w: World, s: PullScript)
    requires w.Valid() && !w.Clean() && s.addOk && s.commitOk
    ensures Preserve(w, s).ok ==> OnRemote(cfg, Preserve(w, s).world, View(cfg, w.work)) || w.work == w.TreeOf(w.head)
  {
    var added := AddAll(w, true);
    var c := GitCommit(added, true);
    CommitGrows(added, true);
    if c.exit.Committed? && Preserve(w, s).ok {
      var w1 := Interfere(c.world, s.beforePush);
      InterfereGrows(c.world, s.beforePush);
      PushGrows(w1, s.push);
      var p := Preserve(w, s).world;
      assert p.store[w1.head].tree == w.work;
      assert Reaches(p.store, p.remote, w1.head);
    }
  }

  /** The remote has the head that the pull comes to and goes back to. */
  predicate HeadPublished(w: World, s: PullScript) {
    var a := Arrive(w, s).world;
    Reaches(a.store, a.remote, a.head)
  }

  /** With the copy into the clone, staging and the commit working, and either the copy back working
      or the head on the remote, a pull never overwrites local files the remote branch does not hold,
      whatever else goes wrong and whatever others push meanwhile. */
  lemma PullNeverLosesWork(cfg: Config, w: World, s: PullScript)
    requires w.Valid() && s.addOk && s.commitOk && s.toGit.Whole()
    requires s.toData.Whole() || HeadPublished(w, s)
    ensures !Loses(cfg, w, Pulled(cfg, w, s).world)
  {
    var a := Arrive(w, s).world;
    ArriveGrows(w, s);
    var mirrored := Mirrored(cfg, a, s.toGit);
    CopyTrackedExact(cfg, a.data, a.work, s.toGit);
    var kept := Preserve(mirrored, s);
    if Arrive(w, s).failure.None? && kept.ok {
      if mirrored.work == mirrored.TreeOf(mirrored.head) {
        if s.toData.Whole() {
          GoBackUnchanged(cfg, mirrored, s);
        } else {
          HeadIsKept(cfg, mirrored, s);
          SameHistory(cfg, kept.world, Pulled(cfg, w, s).world, View(cfg, w.data));
        }
      } else {
        PreserveRecords(cfg, mirrored, s);
        SameHistory(cfg, kept.world, Pulled(cfg, w, s).world, View(cfg, w.data));
      }
    } else {
      PullErrorsLeaveData(cfg, w, s);
    }
  }

  /** If the mirrored files are those of the head, resetting and copying back changes no tracked file. */
  lemma GoBackUnchanged(cfg: Config, mirrored: World, s: PullScript)
    requires mirrored.Valid() && s.addOk
    requires mirrored.work == mirrored.TreeOf(mirrored.head)
    requires s.toData.Whole()
    ensures var clean := ResetHard(Preserve(mirrored, s).world, mirrored.head, s.finalResetOk);
            View(cfg, CopyTracked(cfg, clean.work, clean.data, s.toData).tree) == View(cfg, mirrored.work)
  {
    var clean := ResetHard(Preserve(mirrored, s).world, mirrored.head, s.finalResetOk);
    ResetToWork(mirrored, s);
    CopyTrackedExact(cfg, clean.work, clean.data, s.toData);
  }

  /** What the remote's history holds before the preservation step, it holds after it. */
  lemma HeadIsKept(cfg: Config, w: World, s: PullScript)
    requires w.Valid() && Reaches(w.store, w.remote, w.head)
    ensures OnRemote(cfg, Preserve(w, s).world, View(cfg, w.TreeOf(w.head)))
  {
    var kept := Preserve(w, s).world;
    PreserveGrows(w, s);
    HistoryKept(w, kept, w.head);
    assert kept.store[w.head] == w.store[w.head];
  }

  lemma SameHistory(cfg: Config, a: World, b: World, view: Tree)
    requires a.store == b.store && a.remote == b.remote
    ensures OnRemote(cfg, a, view) == OnRemote(cfg, b, view)
  {
  }

  /** If the mirrored files are those of the current head, going back to it leaves them alone. */
  lemma ResetToWork(w: World, s: PullScript)
    requires w.Valid() && s.addOk && w.work == w.TreeOf(w.head)
    ensures ResetHard(Preserve(w, s).world, w.head, s.finalResetOk).work == w.work
  {
    PreserveGrows(w, s);
    var kept := Preserve(w, s).world;
    assert kept.TreeOf(w.head) == w.TreeOf(w.head);
    assert (w.work - kept.index.Keys) + w.work == w.work;
  }

  /** Until the final copy every error leaves the data directory untouched, and no exit at all
      touches files outside the tracked directories. */
  lemma PullErrorsLeaveData(cfg: Config, w: World, s: PullScript)
    requires w.Valid()
    ensures Pulled(cfg, w, s).exit in {PullFailed, PreservationNotPushed} ==> Pulled(cfg, w, s).world.data == w.data
    ensures Untracked(cfg, Pulled(cfg, w, s).world.data) == Untracked(cfg, w.data)
  {
    ArriveGrows(w, s);
    var mirrored := Mirrored(cfg, Arrive(w, s).world, s.toGit);
    PreserveGrows(mirrored, s);
    var clean := ResetHard(Preserve(mirrored, s).world, mirrored.head, s.finalResetOk);
    CopyTrackedExact(cfg, clean.work, clean.data, s.toData);
  }

  lemma ResetFromStaged(w: World, id: CommitId)
    requires w.index == w.work
    ensures ResetHard(w, id, true).work == w.TreeOf(id)
  {
  }

  /** A pull that completes leaves in the data directory the tracked files of `originalHead`. */
  lemma PullDeliversHead(cfg: Config, w: World, s: PullScript)
    requires w.Valid() && s.addOk && s.finalResetOk
    requires Pulled(cfg, w, s).exit == PullDone
    ensures var r := Pulled(cfg, w, s);
            View(cfg, r.world.data) == View(cfg, r.world.TreeOf(r.originalHead))
  {
    var r := Pulled(cfg, w, s);
    ArriveGrows(w, s);
    var mirrored := Mirrored(cfg, Arrive(w, s).world, s.toGit);
    PreserveGrows(mirrored, s);
    var kept := Preserve(mirrored, s).world;
    assert kept.index == kept.work by { PreserveIndex(mirrored, s); }
    ResetFromStaged(kept, r.originalHead);
    var clean := ResetHard(kept, r.originalHead, true);
    CopyTrackedExact(cfg, clean.work, clean.data, s.toData);
  }

  lemma PreserveIndex(w: World, s: PullScript)
    requires w.Valid()
    ensures Preserve(w, s).world.index == if !w.Clean() && s.addOk then w.work else w.index
  {
    if !w.Clean() {
      var c := GitCommit(AddAll(w, s.addOk), s.commitOk);
      CommitGrows(AddAll(w, s.addOk), s.commitOk);
      InterfereGrows(c.world, s.beforePush);
    }
  }

  /* ---- one push ---- */

  lemma RefetchGrows(w: World, s: PushScript)
    requires w.Valid()
    ensures Grows(w, Refetched(w, s)) && Refetched(w, s).data == w.data
  {
    InterfereGrows(w, s.beforeFetch);
  }

  lemma ResetGrows(w: World, id: CommitId, ok: bool)
    requires w.Valid() && id < |w.store|
    ensures Grows(w, ResetHard(w, id, ok)) && ResetHard(w, id, ok).data == w.data
  {
  }

  lemma ConflictGrows(w: World, s: PushScript)
    requires w.Valid()
    ensures var t := Refetched(ResetHard(w, w.head, s.resetOk), s); Grows(w, t) && t.data == w.data
  {
    var reset := ResetHard(w, w.head, s.resetOk);
    ResetGrows(w, w.head, s.resetOk);
    RefetchGrows(reset, s);
    GrowsTransitive(w, reset, Refetched(reset, s));
  }

  lemma InterferedPullGrows(w: World, fs: seq<Foreign>, o: PullOutcome)
    requires w.Valid()
    ensures var p := GitPull(Interfere(w, fs), o); Grows(w, p.world) && p.world.data == w.data
  {
    var w1 := Interfere(w, fs);
    InterfereGrows(w, fs);
    PullGrows(w1, o);
    GrowsTransitive(w, w1, GitPull(w1, o).world);
  }

  lemma CatchUpGrows(w: World, s: PushScript)
    requires w.Valid()
    ensures Grows(w, CatchUp(w, s)) && CatchUp(w, s).data == w.data
  {
    var p := GitPull(Interfere(w, s.beforePull), s.pull);
    InterferedPullGrows(w, s.beforePull, s.pull);
    ConflictGrows(p.world, s);
    RefetchGrows(p.world, s);
    GrowsTransitive(w, p.world, Refetched(ResetHard(p.world, p.world.head, s.resetOk), s));
    GrowsTransitive(w, p.world, Refetched(p.world, s));
  }

  lemma PushGrowsRemote(cfg: Config, w: World, s: PushScript)
    requires w.Valid()
    ensures Grows(w, Pushed(cfg, w, s).world) && Pushed(cfg, w, s).world.data == w.data
  {
    CatchUpGrows(w, s);
    var added := AddAll(Mirrored(cfg, CatchUp(w, s), s.toGit), true);
    PublishGrows(added, s);
    GrowsTransitive(w, added, GitPush(Interfere(GitCommit(added, s.commitOk).world, s.beforePush), s.push).world);
    GrowsTransitive(w, added, GitCommit(added, s.commitOk).world);
  }

  lemma PublishGrows(added: World, s: PushScript)
    requires added.Valid()
    ensures var c := GitCommit(added, s.commitOk).world;
            var p := GitPush(Interfere(c, s.beforePush), s.push).world;
            Grows(added, c) && Grows(added, p) && c.data == added.data && p.data == added.data
  {
    var c := GitCommit(added, s.commitOk).world;
    CommitGrows(added, s.commitOk);
    var w1 := Interfere(c, s.beforePush);
    InterfereGrows(c, s.beforePush);
    GrowsTransitive(added, c, w1);
    PushGrows(w1, s.push);
    GrowsTransitive(added, w1, GitPush(w1, s.push).world);
  }

  /** A push that reports success leaves the tracked data in the local head; past the push step
      that head is the remote tip. */
  lemma PushPublishesData(cfg: Config, w: World, s: PushScript)
    requires w.Valid() && Pushed(cfg, w, s).exit.Reported()
    ensures var r := Pushed(cfg, w, s);
      && View(cfg, r.world.TreeOf(r.world.head)) == View(cfg, w.data)
      && (r.exit.PushDone? ==> r.world.remote == r.world.head)
  {
    CatchUpGrows(w, s);
    var mirrored := Mirrored(cfg, CatchUp(w, s), s.toGit);
    CopyTrackedExact(cfg, mirrored.data, CatchUp(w, s).work, s.toGit);
    var c := GitCommit(AddAll(mirrored, true), s.commitOk);
    CommitGrows(AddAll(mirrored, true), s.commitOk);
    InterfereGrows(c.world, s.beforePush);
    PushGrows(Interfere(c.world, s.beforePush), s.push);
  }

  /* ---- whole runs ---- */

  datatype Op = PullOp(pull: PullScript) | PushOp(push: PushScript) | ForeignOp(move: Foreign) | EditOp(data: Tree)
  {
    /** The commands that keep a pull honest work; the copy back may fail if the head is on the remote. */
    predicate Sound(w: World) {
      PullOp? ==>
        && pull.addOk && pull.commitOk && pull.toGit.Whole()
        && (pull.toData.Whole() || HeadPublished(w, pull))
    }
  }

  function Apply(cfg: Config, w: World, op: Op): World {
    match op
    case PullOp(s) => Pulled(cfg, w, s).world
    case PushOp(s) => Pushed(cfg, w, s).world
    case ForeignOp(f) => ForeignMove(w, f)
    case EditOp(data) => w.(data := data)
  }

  function Run(cfg: Config, w: World, ops: seq<Op>): World
    decreases |ops|
  {
    if ops == [] then w else Run(cfg, Apply(cfg, w, ops[0]), ops[1..])
  }

  lemma ApplyGrows(cfg: Config, w: World, op: Op)
    requires w.Valid()
    ensures Grows(w, Apply(cfg, w, op))
  {
    match op
    case PullOp(s) => PullGrowsRemote(cfg, w, s);
    case PushOp(s) => PushGrowsRemote(cfg, w, s);
    case ForeignOp(f) => FollowsKept(w, ForeignMove(w, f));
    case EditOp(data) =>
  }

  /** Over any run, every commit stays and the remote branch keeps all it ever had. */
  lemma {:induction false} RunGrowsRemote(cfg: Config, w: World, ops: seq<Op>)
    requires w.Valid()
    ensures Grows(w, Run(cfg, w, ops))
    decreases |ops|
  {
    if ops != [] {
      ApplyGrows(cfg, w, ops[0]);
      RunGrowsRemote(cfg, Apply(cfg, w, ops[0]), ops[1..]);
      GrowsTransitive(w, Apply(cfg, w, ops[0]), Run(cfg, w, ops));
    }
  }

  /** At any point of any run, tracked files that a sound pull replaces can still be checked out from
      the remote branch at the end of the run, whatever the other operations do. */
  lemma {:induction false} NothingOverwrittenIsLost(cfg: Config, w: World, ops: seq<Op>, i: nat)
    requires w.Valid() && i < |ops| && ops[i].PullOp? && ops[i].Sound(Run(cfg, w, ops[..i]))
    ensures var before := Run(cfg, w, ops[..i]);
            (View(cfg, Apply(cfg, before, ops[i]).data) != View(cfg, before.data) ==>
               OnRemote(cfg, Run(cfg, w, ops), View(cfg, before.data)))
    decreases i
  {
    var next := Apply(cfg, w, ops[0]);
    ApplyGrows(cfg, w, ops[0]);
    if i == 0 {
      PullNeverLosesWork(cfg, w, ops[0].pull);
      RunGrowsRemote(cfg, next, ops[1..]);
      if OnRemote(cfg, next, View(cfg, w.data)) {
        OnRemoteKept(cfg, next, Run(cfg, w, ops), View(cfg, w.data));
      }
    } else {
      assert ops[..i][1..] == ops[1..][..i - 1];
      NothingOverwrittenIsLost(cfg, next, ops[1..], i - 1);
    }
  }

  lemma OnRemoteKept(cfg: Config, older: World, newer: World, view: Tree)
    requires older.Valid() && Grows(older, newer) && OnRemote(cfg, older, view)
    ensures OnRemote(cfg, newer, view)
  {
    var c :| 0 <= c < |older.store| && Reaches(older.store, older.remote, c) && View(cfg, older.store[c].tree) == view;
    HistoryKept(older, newer, c);
    assert newer.store[c] == older.store[c];
  }

  /* ---- the service ---- */

  lemma PullFacts(cfg: Config, w: World, s: PullScript)
    requires w.Valid()
    ensures var r := Pulled(cfg, w, s);
      && Grows(w, r.world)
      && (PullOp(s).Sound(w) ==> !Loses(cfg, w, r.world))
      && (r.exit in {PullFailed, PreservationNotPushed} ==> r.world.data == w.data)
      && (r.exit == PullDone && s.addOk && s.finalResetOk ==>
            View(cfg, r.world.data) == View(cfg, r.world.TreeOf(r.originalHead)))
  {
    PullGrowsRemote(cfg, w, s);
    PullErrorsLeaveData(cfg, w, s);
    if PullOp(s).Sound(w) { PullNeverLosesWork(cfg, w, s); }
    if s.addOk && s.finalResetOk && Pulled(cfg, w, s).exit == PullDone { PullDeliversHead(cfg, w, s); }
  }

  class GitSyncService {
    const config: Config
    var world: World

    constructor (config: Config, world: World)
      requires world.Valid()
      ensures this.config == config && this.world == world
    {
      this.config := config;
      this.world := world;
    }

    /** Mirror the tracked directories of the data directory into the clone. */
    method CopyFromDataToGit(s: CopyScript) returns (ok: bool)
      modifies this
      ensures ok == CopyTracked(config, old(world).data, old(world).work, s).ok
      ensures world == Mirrored(config, old(world), s)
      ensures ok ==> View(config, world.work) == View(config, world.data)
      ensures Untracked(config, world.work) == Untracked(config, old(world).work)
    {
      CopyTrackedExact(config, world.data, world.work, s);
      var dir := config.InventoryDir();
      if dir != [] {
        var r := CopyDir(world.data, world.work, dir, s.inventory);
        world := world.(work := r.tree);
        if !r.ok { return false; }
      }
      var r := CopyDir(world.data, world.work, config.dockerDir, s.docker);
      world := world.(work := r.tree);
      return r.ok;
    }

    /** Mirror the tracked directories of the clone into the data directory. */
    method CopyFromGitToData(s: CopyScript) returns (ok: bool)
      modifies this
      ensures ok == CopyTracked(config, old(world).work, old(world).data, s).ok
      ensures world == old(world).(data := CopyTracked(config, old(world).work, old(world).data, s).tree)
      ensures ok ==> View(config, world.data) == View(config, world.work)
      ensures Untracked(config, world.data) == Untracked(config, old(world).data)
    {
      CopyTrackedExact(config, world.work, world.data, s);
      var dir := config.InventoryDir();
      if dir != [] {
        var r := CopyDir(world.work, world.data, dir, s.inventory);
        world := world.(data := r.tree);
        if !r.ok { return false; }
      }
      var r := CopyDir(world.work, world.data, config.dockerDir, s.docker);
      world := world.(data := r.tree);
      return r.ok;
    }

    /** Step 1 of a pull: `git pull`, and once more after a reset if it fails. */
    method PullWithRetry(s: PullScript) returns (ok: bool)
      requires world.Valid()
      modifies this
      ensures world == Arrive(old(world), s).world && ok == Arrive(old(world), s).failure.None?
    {
      world := Interfere(world, s.beforePull);
      var pull := GitPull(world, s.pull);
      world := pull.world;
      if pull.failure.Some? {
        world := ResetHard(world, world.tracking, s.resetOk);
        world := Interfere(world, s.beforeRetry);
        pull := GitPull(world, s.retry);
        world := pull.world;
      }
      ok := pull.failure.None?;
    }

    /** The rest of step 2: commit and push the mirrored files if they differ from the head. */
    method PreserveLocalChanges(s: PullScript) returns (ok: bool)
      requires world.Valid()
      modifies this
      ensures world == Preserve(old(world), s).world && ok == Preserve(old(world), s).ok
    {
      if !world.Clean() {
        world := AddAll(world, s.addOk);
        var commit := GitCommit(world, s.commitOk);
        world := commit.world;
        if commit.exit.Committed? {
          world := Interfere(world, s.beforePush);
          var push := GitPush(world, s.push);
          world := push.world;
          return push.ok;
        }
      }
      ok := true;
    }

    method AtomicPull(s: PullScript) returns (exit: PullExit, originalHead: CommitId)
      requires world.Valid()
      modifies this
      ensures PullRun(world, exit, originalHead) == Pulled(config, old(world), s)
      ensures Grows(old(world), world)
      ensures PullOp(s).Sound(old(world)) ==> !Loses(config, old(world), world)
      ensures exit in {PullFailed, PreservationNotPushed} ==> world.data == old(world).data
      ensures exit == PullDone && s.addOk && s.finalResetOk ==>
                View(config, world.data) == View(config, world.TreeOf(originalHead))
    {
      ghost var w := world;
      var ok := PullWithRetry(s);
      originalHead := world.head;
      if !ok {
        exit := PullFailed;
      } else {
        ArriveGrows(w, s);
        var mirrorOk := CopyFromDataToGit(s.toGit);  // a failure is only logged
        ok := PreserveLocalChanges(s);
        if !ok {
          exit := PreservationNotPushed;
        } else {
          world := ResetHard(world, originalHead, s.finalResetOk);
          ok := CopyFromGitToData(s.toData);
          exit := if ok then PullDone else CopyBackFailed;
        }
      }
      assert PullRun(world, exit, originalHead) == Pulled(config, w, s);
      PullFacts(config, w, s);
    }

    /** The first step of a push: pull, and on the complaints it knows, reset to the remote state. */
    method BringToRemote(s: PushScript)
      requires world.Valid()
      modifies this
      ensures world == CatchUp(old(world), s)
    {
      world := Interfere(world, s.beforePull);
      var pull := GitPull(world, s.pull);
      world := pull.world;
      if pull.failure == Some(SaysConflict) {
        world := ResetHard(world, world.head, s.resetOk);
        world := Fetch(Interfere(world, s.beforeFetch), s.fetchOk);
        world := ResetHard(world, world.tracking, s.resetToRemoteOk);
      } else if pull.failure == Some(SaysDiverged) {
        world := Fetch(Interfere(world, s.beforeFetch), s.fetchOk);
        world := ResetHard(world, world.tracking, s.resetToRemoteOk);
      }
    }

    method AtomicPush(s: PushScript) returns (exit: PushExit)
      requires world.Valid()
      modifies this
      ensures PushRun(world, exit) == Pushed(config, old(world), s)
      ensures Grows(old(world), world) && world.data == old(world).data
      ensures exit.Reported() ==> View(config, world.TreeOf(world.head)) == View(config, world.data)
      ensures exit == PushDone ==> world.remote == world.head
    {
      PushGrowsRemote(config, world, s);
      if Pushed(config, world, s).exit.Reported() { PushPublishesData(config, world, s); }

      BringToRemote(s);
      var mirrorOk := CopyFromDataToGit(s.toGit);
      if !mirrorOk { return CopyFailed; }
      if !s.addOk { return AddFailed; }
      world := AddAll(world, true);
      var commit := GitCommit(world, s.commitOk);
      world := commit.world;
      if commit.exit.NothingToCommit? { return NothingToPush; }
      if commit.exit.CommitFailed? { return CommitNotMade; }
      world := Interfere(world, s.beforePush);
      var push := GitPush(world, s.push);
      world := push.world;
      exit := if push.ok then PushDone else PushFailed;
    }
  }
}
