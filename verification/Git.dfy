/** A commit graph shared by a working clone and its remote branch, and the git commands the
    sync service issues, each as a total step over that state.  Whether a command works is
    decided outside: every step takes its outcome as a parameter. */
module Git {
  import opened Options

  type Path = seq<string>
  type Tree = map<Path, string>
  type CommitId = nat

  datatype Commit = Commit(tree: Tree, parents: seq<CommitId>)

  /** Everything a sync run can touch: the data directory, the clone (files, index, branch head,
      an unfinished merge, the remote-tracking ref), the remote branch, and all commits there are,
      numbered in the order they were made. */
  datatype World = World(
    data: Tree, work: Tree, index: Tree,
    head: CommitId, mergeHead: Option<CommitId>, tracking: CommitId,
    remote: CommitId, store: seq<Commit>)
  {
    function TreeOf(id: CommitId): Tree {
      if id < |store| then store[id].tree else map[]
    }

    /** What `git status --porcelain` prints nothing for. */
    predicate Clean() {
      work == index == TreeOf(head)
    }

    predicate Valid() {
      && head < |store| && tracking < |store| && remote < |store|
      && (mergeHead.Some? ==> mergeHead.value < |store|)
    }
  }

  /** `to` is `from` or one of its ancestors. */
  predicate Reaches(store: seq<Commit>, from: CommitId, to: CommitId)
    decreases from
  {
    || from == to
    || (&& from < |store|
        && exists k | 0 <= k < |store[from].parents| ::
             store[from].parents[k] < from && Reaches(store, store[from].parents[k], to))
  }

  lemma {:induction false} ReachesDescends(store: seq<Commit>, from: CommitId, to: CommitId)
    requires Reaches(store, from, to)
    ensures to <= from
    decreases from
  {
    if from != to {
      var k :| 0 <= k < |store[from].parents| && store[from].parents[k] < from
        && Reaches(store, store[from].parents[k], to);
      ReachesDescends(store, store[from].parents[k], to);
    }
  }

  lemma {:induction false} ReachesTransitive(store: seq<Commit>, a: CommitId, b: CommitId, c: CommitId)
    requires Reaches(store, a, b) && Reaches(store, b, c)
    ensures Reaches(store, a, c)
    decreases a
  {
    if a != b {
      var k :| 0 <= k < |store[a].parents| && store[a].parents[k] < a
        && Reaches(store, store[a].parents[k], b);
      ReachesTransitive(store, store[a].parents[k], b, c);
    }
  }

  /** Adding commits leaves the history of every old commit as it was. */
  lemma {:induction false} ReachesStable(older: seq<Commit>, newer: seq<Commit>, from: CommitId, to: CommitId)
    requires older <= newer && from < |older|
    ensures Reaches(older, from, to) <==> Reaches(newer, from, to)
    decreases from
  {
    assert older[from] == newer[from];
    forall k | 0 <= k < |older[from].parents| && older[from].parents[k] < from
      ensures Reaches(older, older[from].parents[k], to) <==> Reaches(newer, older[from].parents[k], to)
    {
      ReachesStable(older, newer, older[from].parents[k], to);
    }
  }

  /* ---- what may happen between two worlds ---- */

  /** The remote-tracking ref is where the remote branch once was. */
  predicate Follows(w: World) {
    Reaches(w.store, w.remote, w.tracking)
  }

  /** The newer world kept every commit, the remote branch still has all it had, and the
      remote-tracking ref did not leave its history. */
  predicate Grows(older: World, newer: World) {
    && newer.Valid()
    && older.store <= newer.store
    && Reaches(newer.store, newer.remote, older.remote)
    && (Follows(older) ==> Follows(newer))
  }

  lemma FollowsKept(older: World, newer: World)
    requires older.Valid() && older.store <= newer.store && Reaches(newer.store, newer.remote, older.remote)
    requires newer.tracking == older.tracking || newer.tracking == newer.remote
    ensures Follows(older) ==> Follows(newer)
  {
    if Follows(older) && newer.tracking == older.tracking {
      ReachesStable(older.store, newer.store, older.remote, older.tracking);
      ReachesTransitive(newer.store, newer.remote, older.remote, older.tracking);
    }
  }

  lemma GrowsTransitive(a: World, b: World, c: World)
    requires a.Valid() && Grows(a, b) && Grows(b, c)
    ensures Grows(a, c)
  {
    ReachesStable(b.store, c.store, b.remote, a.remote);
    ReachesTransitive(c.store, c.remote, b.remote, a.remote);
  }

  lemma HistoryKept(older: World, newer: World, id: CommitId)
    requires older.Valid() && Grows(older, newer)
    requires Reaches(older.store, older.remote, id)
    ensures Reaches(newer.store, newer.remote, id)
  {
    ReachesStable(older.store, newer.store, older.remote, id);
    ReachesTransitive(newer.store, newer.remote, older.remote, id);
  }

  /* ---- other writers ---- */

  /** Another clone makes a commit, or pushes one.  A push that is not a fast-forward is rejected. */
  datatype Foreign = Author(tree: Tree, parents: seq<CommitId>) | PushTip(tip: CommitId)

  function ForeignMove(w: World, f: Foreign): World {
    match f
    case Author(tree, parents) => w.(store := w.store + [Commit(tree, parents)])
    case PushTip(tip) =>
      if tip < |w.store| && Reaches(w.store, tip, w.remote) then w.(remote := tip) else w
  }

  function Interfere(w: World, fs: seq<Foreign>): World
    decreases |fs|
  {
    if fs == [] then w else Interfere(ForeignMove(w, fs[0]), fs[1..])
  }

  lemma {:induction false} InterfereGrows(w: World, fs: seq<Foreign>)
    requires w.Valid()
    ensures Grows(w, Interfere(w, fs))
    ensures Interfere(w, fs) == w.(store := Interfere(w, fs).store, remote := Interfere(w, fs).remote)
    decreases |fs|
  {
    if fs != [] {
      var next := ForeignMove(w, fs[0]);
      FollowsKept(w, next);
      assert Grows(w, next);
      InterfereGrows(next, fs[1..]);
      GrowsTransitive(w, next, Interfere(next, fs[1..]));
    }
  }

  /* ---- the commands ---- */

  /** The words a failing `git pull` printed, as far as the service tells them apart. */
  datatype Complaint = SaysConflict | SaysDiverged | SaysOther

  /** How one `git pull` goes.  What a merge does to files that were not committed, and the tree
      of a merge commit, are left open. */
  datatype PullOutcome =
    | Merges(mergeTree: Tree, work: Tree, index: Tree)
    | Unreachable(complaint: Complaint)
    | Refuses(complaint: Complaint)
    | Conflicts(work: Tree, index: Tree, complaint: Complaint)

  datatype PullResult = PullResult(world: World, failure: Option<Complaint>)

  function GitPull(w: World, o: PullOutcome): PullResult {
    if w.mergeHead.Some? then
      PullResult(w, Some(if o.Merges? then SaysOther else o.complaint))
    else
      match o
      case Unreachable(c) => PullResult(w, Some(c))
      case Refuses(c) => PullResult(w.(tracking := w.remote), Some(c))
      case Conflicts(work, index, c) =>
        PullResult(w.(tracking := w.remote, mergeHead := Some(w.remote), work := work, index := index), Some(c))
      case Merges(tree, work, index) =>
        var fetched := w.(tracking := w.remote);
        if Reaches(w.store, w.head, w.remote) then
          PullResult(fetched, None)
        else if Reaches(w.store, w.remote, w.head) then
          PullResult(fetched.(head := w.remote, work := work, index := index), None)
        else
          PullResult(fetched.(store := w.store + [Commit(tree, [w.head, w.remote])], head := |w.store|,
                              work := work, index := index), None)
  }

  function Fetch(w: World, ok: bool): World {
    if ok then w.(tracking := w.remote) else w
  }

  /** `git reset --hard`: files the index knew go, files it never knew stay. */
  function ResetHard(w: World, id: CommitId, ok: bool): World {
    if !ok then w
    else w.(head := id, mergeHead := None, index := w.TreeOf(id), work := (w.work - w.index.Keys) + w.TreeOf(id))
  }

  function AddAll(w: World, ok: bool): World {
    if ok then w.(index := w.work) else w
  }

  datatype CommitExit = Committed | NothingToCommit | CommitFailed
  datatype CommitResult = CommitResult(world: World, exit: CommitExit)

  function GitCommit(w: World, ok: bool): CommitResult {
    if !ok then
      CommitResult(w, CommitFailed)
    else if w.index == w.TreeOf(w.head) && w.mergeHead.None? then
      CommitResult(w, NothingToCommit)
    else
      var parents := [w.head] + if w.mergeHead.Some? then [w.mergeHead.value] else [];
      CommitResult(w.(store := w.store + [Commit(w.index, parents)], head := |w.store|, mergeHead := None), Committed)
  }

  /** A push can be refused, arrive, or arrive without the client learning of it. */
  datatype PushOutcome = Delivered | Dropped | DeliveredUnnoticed
  datatype PushResult = PushResult(world: World, ok: bool)

  function GitPush(w: World, o: PushOutcome): PushResult {
    if o.Dropped? || !Reaches(w.store, w.head, w.remote) then PushResult(w, false)
    else if o.DeliveredUnnoticed? then PushResult(w.(remote := w.head), false)
    else PushResult(w.(remote := w.head, tracking := w.head), true)
  }

  /* ---- every command only adds history ---- */

  lemma PullGrows(w: World, o: PullOutcome)
    requires w.Valid()
    ensures Grows(w, GitPull(w, o).world)
    ensures GitPull(w, o).world.data == w.data && GitPull(w, o).world.remote == w.remote
    ensures GitPull(w, o).failure.None? ==> GitPull(w, o).world.mergeHead.None?
  {
    FollowsKept(w, GitPull(w, o).world);
  }

  lemma CommitGrows(w: World, ok: bool)
    requires w.Valid()
    ensures Grows(w, GitCommit(w, ok).world)
    ensures GitCommit(w, ok).world.data == w.data && GitCommit(w, ok).world.remote == w.remote
    ensures GitCommit(w, ok).world.work == w.work && GitCommit(w, ok).world.index == w.index
    ensures GitCommit(w, ok).exit.Committed? ==>
              GitCommit(w, ok).world.TreeOf(GitCommit(w, ok).world.head) == w.index
  {
    FollowsKept(w, GitCommit(w, ok).world);
  }

  lemma PushGrows(w: World, o: PushOutcome)
    requires w.Valid()
    ensures Grows(w, GitPush(w, o).world)
    ensures GitPush(w, o).ok ==> GitPush(w, o).world.remote == w.head
  {
    FollowsKept(w, GitPush(w, o).world);
  }

  /** A pull ends exactly on the remote commit it fetched when the local branch had nothing the
      remote lacked; otherwise it ends on a commit the remote does not have. */
  lemma PullLandsOnRemote(w: World, o: PullOutcome)
    requires w.Valid() && GitPull(w, o).failure.None?
    ensures GitPull(w, o).world.head == w.remote <==> Reaches(w.store, w.remote, w.head)
    ensures Reaches(GitPull(w, o).world.store, GitPull(w, o).world.head, w.remote)
  {
    var after := GitPull(w, o).world;
    if Reaches(w.store, w.head, w.remote) {
      ReachesDescends(w.store, w.head, w.remote);
      if Reaches(w.store, w.remote, w.head) {
        ReachesDescends(w.store, w.remote, w.head);
      }
    } else if !Reaches(w.store, w.remote, w.head) {
      assert after.store[after.head].parents[1] == w.remote;
      assert Reaches(after.store, after.store[after.head].parents[1], w.remote);
    }
  }
}
