/**
 * The file system as the cleaner sees it through `os.path`, `os.walk`, `os.listdir` and the
 * deletion and copy calls: a map from path to node, plus the order in which the operating
 * system enumerates paths. Only nodes that exist explicitly are represented.
 */
module Volume {
  import opened Seqs
  import opened WinPath

  datatype Node = File(size: nat, mtime: int) | Dir(ctime: int)

  /** A volume: every node by its path, and the enumeration order of those paths. */
  datatype Vol = Vol(nodes: map<Path, Node>, order: seq<Path>)

  /** The order lists every node exactly once. */
  ghost predicate Valid(v: Vol)
  {
    NoDups(v.order) && forall p :: p in v.nodes <==> p in v.order
  }

  /** `os.path.exists(p)`. */
  predicate Exists(v: Vol, p: Path)
  {
    p in v.nodes
  }

  /** `os.path.isfile(p)`. */
  predicate IsFile(v: Vol, p: Path)
  {
    p in v.nodes && v.nodes[p].File?
  }

  /** `os.path.isdir(p)`. */
  predicate IsDir(v: Vol, p: Path)
  {
    p in v.nodes && v.nodes[p].Dir?
  }

  /** `os.path.getsize(p)` for a file; zero for anything else. */
  function SizeOf(v: Vol, p: Path): nat
  {
    if IsFile(v, p) then v.nodes[p].size else 0
  }

  /** `os.path.getmtime(p)` for a file; zero for anything else. */
  function MTimeOf(v: Vol, p: Path): int
  {
    if IsFile(v, p) then v.nodes[p].mtime else 0
  }

  /**
   * The files `os.walk(d)` yields, in enumeration order: the files below `d`, and none when
   * `d` is not a directory (the walk then yields nothing).
   */
  function Files(v: Vol, d: Path): (r: seq<Path>)
    ensures forall p :: p in r <==> IsDir(v, d) && p in v.order && IsFile(v, p) && Under(p, d)
  {
    if IsDir(v, d) then Filter(v.order, p => IsFile(v, p) && Under(p, d)) else []
  }

  /** The directories below `d`, in enumeration order. */
  function DirsBelow(v: Vol, d: Path): (r: seq<Path>)
    ensures forall p :: p in r <==> p in v.order && IsDir(v, p) && Under(p, d)
  {
    Filter(v.order, p => IsDir(v, p) && Under(p, d))
  }

  /** The sum of the sizes of `ps`. */
  function SumSizes(v: Vol, ps: seq<Path>): nat
  {
    if ps == [] then 0 else SumSizes(v, ps[..|ps| - 1]) + SizeOf(v, ps[|ps| - 1])
  }

  /** The total the walk-and-sum loops compute for `d`. */
  function TreeSize(v: Vol, d: Path): nat
  {
    SumSizes(v, Files(v, d))
  }

  /** The names `os.listdir(d)` returns, in enumeration order. */
  function ChildNames(ps: seq<Path>, d: Path): (r: seq<string>)
    ensures forall name :: name in r ==> IsName(name) && Join(d, name) in ps
  {
    if ps == [] then []
    else
      var rest := ChildNames(ps[..|ps| - 1], d);
      match ChildName(ps[|ps| - 1], d)
      case Some(name) => rest + [name]
      case None => rest
  }

  function ListDir(v: Vol, d: Path): seq<string>
  {
    ChildNames(v.order, d)
  }

  // ---------------------------------------------------------------- changes

  /** Create or overwrite the node at `p`; a new path is enumerated last. */
  function Put(v: Vol, p: Path, n: Node): (r: Vol)
    ensures r.nodes == v.nodes[p := n]
  {
    if p in v.nodes then Vol(v.nodes[p := n], v.order) else Vol(v.nodes[p := n], v.order + [p])
  }

  /** Keep only the nodes `keep` accepts. */
  function Restrict(v: Vol, keep: Path -> bool): (r: Vol)
    ensures forall p :: p in r.nodes <==> p in v.nodes && keep(p)
    ensures forall p :: p in r.nodes ==> r.nodes[p] == v.nodes[p]
  {
    Vol(map p | p in v.nodes && keep(p) :: v.nodes[p], Filter(v.order, keep))
  }

  /** `os.remove(p)` / `os.rmdir(p)`: the node at `p` disappears. */
  function Remove(v: Vol, p: Path): (r: Vol)
    ensures r.nodes == v.nodes - {p}
  {
    Restrict(v, q => q != p)
  }

  /** `shutil.rmtree(d)`: `d` and everything below it disappear. */
  function RemoveTree(v: Vol, d: Path): (r: Vol)
    ensures forall p :: p in r.nodes <==> p in v.nodes && p != d && !Under(p, d)
    ensures forall p :: p in r.nodes ==> r.nodes[p] == v.nodes[p]
  {
    Restrict(v, q => q != d && !Under(q, d))
  }

  /** Everything below `d` disappears; `d` itself stays. */
  function ClearBelow(v: Vol, d: Path): (r: Vol)
    ensures forall p :: p in r.nodes <==> p in v.nodes && !Under(p, d)
    ensures forall p :: p in r.nodes ==> r.nodes[p] == v.nodes[p]
  {
    Restrict(v, q => !Under(q, d))
  }

  /** `os.makedirs(p, exist_ok=True)` for the directory itself: created when nothing is there. */
  function EnsureDir(v: Vol, p: Path, ctime: int): (r: Vol)
    ensures Exists(v, p) ==> r == v
    ensures !Exists(v, p) ==> r.nodes == v.nodes[p := Dir(ctime)]
  {
    if Exists(v, p) then v else Put(v, p, Dir(ctime))
  }

  /** A file sits at `p` or at a directory `p` would lie below, so `p` cannot be made a directory. */
  predicate FileInTheWay(v: Vol, p: Path)
  {
    exists q :: q in v.nodes && v.nodes[q].File? && (q == p || Under(p, q))
  }

  /**
   * `os.makedirs(p, exist_ok=True)` raises: `p` is not already a directory, and a file is in
   * the way or the system refuses to create it (a missing drive, a read-only medium, no
   * permission), which `denied` stands for.
   */
  predicate MakeDirsFails(v: Vol, p: Path, denied: bool)
  {
    !IsDir(v, p) && (FileInTheWay(v, p) || denied)
  }

  // ---------------------------------------------------------------- lemmas

  lemma PutValid(v: Vol, p: Path, n: Node)
    requires Valid(v)
    ensures Valid(Put(v, p, n))
  {
  }

  lemma RestrictValid(v: Vol, keep: Path -> bool)
    requires Valid(v)
    ensures Valid(Restrict(v, keep))
  {
    FilterNoDups(v.order, keep);
  }

  lemma RemoveValid(v: Vol, p: Path)
    requires Valid(v)
    ensures Valid(Remove(v, p))
  {
    RestrictValid(v, q => q != p);
  }

  lemma RemoveTreeValid(v: Vol, d: Path)
    requires Valid(v)
    ensures Valid(RemoveTree(v, d))
  {
    RestrictValid(v, q => q != d && !Under(q, d));
  }

  lemma ClearBelowValid(v: Vol, d: Path)
    requires Valid(v)
    ensures Valid(ClearBelow(v, d))
  {
    RestrictValid(v, q => !Under(q, d));
  }

  lemma EnsureDirValid(v: Vol, p: Path, ctime: int)
    requires Valid(v)
    ensures Valid(EnsureDir(v, p, ctime))
  {
  }

  /** Changes only at paths that are neither `p` nor above it do not change whether a file is in the way of `p`. */
  lemma FileInTheWayKept(v: Vol, w: Vol, p: Path, changed: set<Path>)
    requires forall q :: q !in changed ==> (q in w.nodes <==> q in v.nodes) && (q in w.nodes ==> w.nodes[q] == v.nodes[q])
    requires forall q :: q in changed ==> !Within(p, q)
    ensures FileInTheWay(w, p) <==> FileInTheWay(v, p)
  {
    if FileInTheWay(w, p) {
      var q :| q in w.nodes && w.nodes[q].File? && (q == p || Under(p, q));
      assert q !in changed;
    }
    if FileInTheWay(v, p) {
      var q :| q in v.nodes && v.nodes[q].File? && (q == p || Under(p, q));
      assert q !in changed;
    }
  }

  /** Files are listed at most once by a walk. */
  lemma FilesNoDups(v: Vol, d: Path)
    requires Valid(v)
    ensures NoDups(Files(v, d))
  {
    if IsDir(v, d) {
      FilterNoDups(v.order, p => IsFile(v, p) && Under(p, d));
    }
  }

  /** Sizes add up over concatenation. */
  lemma {:induction false} SumSizesAppend(v: Vol, a: seq<Path>, b: seq<Path>)
    ensures SumSizes(v, a + b) == SumSizes(v, a) + SumSizes(v, b)
  {
    if b == [] {
      assert a + b == a;
    } else {
      assert (a + b)[..|a + b| - 1] == a + b[..|b| - 1];
      SumSizesAppend(v, a, b[..|b| - 1]);
    }
  }

  /** Sums only read the sizes of the paths listed. */
  lemma {:induction false} SumSizesSame(v: Vol, w: Vol, ps: seq<Path>)
    requires forall p :: p in ps ==> SizeOf(v, p) == SizeOf(w, p)
    ensures SumSizes(v, ps) == SumSizes(w, ps)
  {
    if ps != [] {
      SumSizesSame(v, w, ps[..|ps| - 1]);
    }
  }
}
