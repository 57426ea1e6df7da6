/** The two directory copies of the sync service: the inventory directory and the docker
    directory are made equal on the other side, each with rsync or, if that fails, by removing
    the destination and copying. */
module Mirror {
  import opened Git

  /** The two configured locations, relative to the data directory and to the clone alike. */
  datatype Layout = Layout(inventoryFile: Path, dockerDir: Path)
  {
    /** The directory of the inventory file; empty when the file lies at the top, and then not copied. */
    function InventoryDir(): Path {
      if inventoryFile == [] then [] else inventoryFile[..|inventoryFile| - 1]
    }

    predicate Tracks(p: Path) {
      (InventoryDir() != [] && InventoryDir() <= p) || dockerDir <= p
    }
  }

  type Config = c: Layout | c.dockerDir != [] witness Layout(["ansible", "inventory.yaml"], ["docker-compose"])

  /** The files at or below a directory. */
  function Part(t: Tree, dir: Path): Tree {
    map p | p in t && dir <= p :: t[p]
  }

  /** All other files. */
  function Rest(t: Tree, dir: Path): Tree {
    map p | p in t && !(dir <= p) :: t[p]
  }

  /** The files the service keeps in step. */
  function View(cfg: Config, t: Tree): Tree {
    map p | p in t && cfg.Tracks(p) :: t[p]
  }

  function Untracked(cfg: Config, t: Tree): Tree {
    map p | p in t && !cfg.Tracks(p) :: t[p]
  }

  /** How one directory copy goes; a broken one leaves any files behind in the destination. */
  datatype CopyOutcome = Rsync | Fallback | Broken(left: Tree)

  /** `rsync --delete`: drop what the source lacks, send what is new or different. */
  function RsyncDelete(src: Tree, dst: Tree, dir: Path): Tree {
    var kept := map p | p in dst && (dir <= p ==> p in src) :: dst[p];
    var sent := map p | p in src && dir <= p && !(p in dst && dst[p] == src[p]) :: src[p];
    kept + sent
  }

  /** `rm -rf` of the destination, then `cp -r`. */
  function RemoveThenCopy(src: Tree, dst: Tree, dir: Path): Tree {
    Rest(dst, dir) + Part(src, dir)
  }

  lemma RsyncAgreesWithFallback(src: Tree, dst: Tree, dir: Path)
    ensures RsyncDelete(src, dst, dir) == RemoveThenCopy(src, dst, dir)
  {
    var a, b := RsyncDelete(src, dst, dir), RemoveThenCopy(src, dst, dir);
    assert forall p :: p in a <==> p in b;
    assert a.Keys == b.Keys;
    assert forall p | p in a :: a[p] == b[p];
  }

  datatype CopyResult = CopyResult(tree: Tree, ok: bool)

  /** One directory: copied if the source has it, removed from the destination otherwise. */
  function CopyDir(src: Tree, dst: Tree, dir: Path, o: CopyOutcome): CopyResult {
    if Part(src, dir) == map[] then
      CopyResult(Rest(dst, dir), true)
    else
      match o
      case Rsync => CopyResult(RsyncDelete(src, dst, dir), true)
      case Fallback => CopyResult(RemoveThenCopy(src, dst, dir), true)
      case Broken(left) => CopyResult(Rest(dst, dir) + Part(left, dir), false)
  }

  datatype CopyScript = CopyScript(inventory: CopyOutcome, docker: CopyOutcome)
  {
    /** Both directories are copied, if they are there. */
    predicate Whole() { !inventory.Broken? && !docker.Broken? }
  }

  /** Both directories, inventory first; the first failure ends the copy. */
  function CopyTracked(cfg: Config, src: Tree, dst: Tree, s: CopyScript): CopyResult {
    var first := if cfg.InventoryDir() == [] then CopyResult(dst, true)
                 else CopyDir(src, dst, cfg.InventoryDir(), s.inventory);
    if first.ok then CopyDir(src, first.tree, cfg.dockerDir, s.docker) else first
  }

  /** Two trees agree at one path. */
  predicate Same(a: Tree, b: Tree, p: Path) {
    (p in a <==> p in b) && (p in a && p in b ==> a[p] == b[p])
  }

  lemma CopyDirExact(src: Tree, dst: Tree, dir: Path, o: CopyOutcome, p: Path)
    ensures !(dir <= p) ==> Same(CopyDir(src, dst, dir, o).tree, dst, p)
    ensures dir <= p && CopyDir(src, dst, dir, o).ok ==> Same(CopyDir(src, dst, dir, o).tree, src, p)
  {
    RsyncAgreesWithFallback(src, dst, dir);
    assert Part(src, dir) == map[] ==> p !in Part(src, dir);
  }

  lemma CopyTrackedAt(cfg: Config, src: Tree, dst: Tree, s: CopyScript, p: Path)
    ensures !cfg.Tracks(p) ==> Same(CopyTracked(cfg, src, dst, s).tree, dst, p)
    ensures cfg.Tracks(p) && CopyTracked(cfg, src, dst, s).ok ==> Same(CopyTracked(cfg, src, dst, s).tree, src, p)
  {
    var first := if cfg.InventoryDir() == [] then CopyResult(dst, true)
                 else CopyDir(src, dst, cfg.InventoryDir(), s.inventory);
    CopyDirExact(src, dst, cfg.InventoryDir(), s.inventory, p);
    CopyDirExact(src, first.tree, cfg.dockerDir, s.docker, p);
  }

  /** A copy that reports success makes the tracked files equal, even when one directory lies
      inside the other; and no copy, successful or not, touches another file. */
  lemma CopyTrackedExact(cfg: Config, src: Tree, dst: Tree, s: CopyScript)
    ensures CopyTracked(cfg, src, dst, s).ok ==> View(cfg, CopyTracked(cfg, src, dst, s).tree) == View(cfg, src)
    ensures Untracked(cfg, CopyTracked(cfg, src, dst, s).tree) == Untracked(cfg, dst)
  {
    var r := CopyTracked(cfg, src, dst, s);
    forall p
      ensures !cfg.Tracks(p) ==> Same(r.tree, dst, p)
      ensures cfg.Tracks(p) && r.ok ==> Same(r.tree, src, p)
    {
      CopyTrackedAt(cfg, src, dst, s, p);
    }
  }

  lemma TreeSplit(cfg: Config, a: Tree, b: Tree)
    requires View(cfg, a) == View(cfg, b) && Untracked(cfg, a) == Untracked(cfg, b)
    ensures a == b
  {
    forall p | p in a || p in b
      ensures p in a && p in b && a[p] == b[p]
    {
      assert p in View(cfg, a) || p in Untracked(cfg, a) || p in View(cfg, b) || p in Untracked(cfg, b);
    }
  }

  /** Copying data to the clone and straight back changes nothing in the data directory. */
  lemma CopyBackIsIdentity(cfg: Config, data: Tree, work: Tree, out: CopyScript, back: CopyScript)
    requires CopyTracked(cfg, data, work, out).ok
    requires CopyTracked(cfg, CopyTracked(cfg, data, work, out).tree, data, back).ok
    ensures CopyTracked(cfg, CopyTracked(cfg, data, work, out).tree, data, back).tree == data
  {
    var mirrored := CopyTracked(cfg, data, work, out).tree;
    CopyTrackedExact(cfg, data, work, out);
    CopyTrackedExact(cfg, mirrored, data, back);
    TreeSplit(cfg, CopyTracked(cfg, mirrored, data, back).tree, data);
  }
}
