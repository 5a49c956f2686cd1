/**
 * The large-file scan: walk four roots, skip excluded directories and extensions, keep the
 * safe files of at least 100 MiB, sort them by size (largest first, stable) and keep the
 * first hundred.
 */
module LargeFiles {
  import opened Wrappers
  import opened Text
  import opened WinPath
  import opened Volume
  import opened PathSafety
  import opened Sorting
  import opened ScanRules

  const MinSize: nat := 100 * 1024 * 1024
  const MaxResults: nat := 100

  const ScanRoots: seq<Path> := ["C:\\Users", "C:\\Program Files", "C:\\Program Files (x86)", "C:\\ProgramData"]

  const ExcludeDirs: seq<Path> :=
    ["C:\\Windows", "C:\\Program Files\\WindowsApps", "C:\\Program Files (x86)\\WindowsApps", "C:\\$Recycle.Bin"]

  const ExcludeExts: seq<string> := [".sys", ".dll", ".exe", ".msi", ".mui", ".idx", ".cat", ".db"]

  /** The walk of `root` reaches `p`: below the root and not below a directory it prunes. */
  predicate Walked(p: Path, root: Path)
  {
    Under(p, root) && forall i :: 0 <= i < |ExcludeDirs| ==> !(Under(ExcludeDirs[i], root) && Under(p, ExcludeDirs[i]))
  }

  /** The per-file test: an existing, safe file of at least `MinSize` whose lower-cased name has no excluded extension. */
  predicate IsLargeCandidate(v: Vol, p: Path)
  {
    IsFile(v, p) && !EndsWithAny(Lower(Basename(p)), ExcludeExts) && IsSafe(p) && SizeOf(v, p) >= MinSize
  }

  /** The entry for a large file: its mtime and its lower-cased extension (empty when it has none). */
  function LargeFileEntry(v: Vol, p: Path): Finding
  {
    Finding(p, SizeOf(v, p), LargeFiles, None, Some(MTimeOf(v, p)), Some(Lower(Ext(p))), None)
  }

  /** The entries for the walked files `ps` of `root`, in walk order. */
  function LargeEntries(v: Vol, ps: seq<Path>, root: Path): seq<Finding>
  {
    if ps == [] then []
    else
      var p := ps[|ps| - 1];
      LargeEntries(v, ps[..|ps| - 1], root)
      + (if Walked(p, root) && IsLargeCandidate(v, p) then [LargeFileEntry(v, p)] else [])
  }

  function RootEntries(v: Vol, root: Path): seq<Finding>
  {
    if Exists(v, root) && IsSafe(root) then LargeEntries(v, Files(v, root), root) else []
  }

  /** The entries collected over the roots `roots`, in root order. */
  function CollectedOver(v: Vol, roots: seq<Path>): seq<Finding>
  {
    if roots == [] then [] else CollectedOver(v, roots[..|roots| - 1]) + RootEntries(v, roots[|roots| - 1])
  }

  function FindingSize(f: Finding): int
  {
    f.size
  }

  /** What `_scan_large_files` adds to the results: the collected entries, largest first, at most a hundred. */
  function LargeFileFindings(v: Vol): seq<Finding>
  {
    var sorted := SortDesc(CollectedOver(v, ScanRoots), FindingSize);
    if |sorted| > MaxResults then sorted[..MaxResults] else sorted
  }

  /** The scan as the source runs it: a walk per root, a filter per file, then one sort and a cut. */
  method ScanLargeFiles(v: Vol) returns (large: seq<Finding>)
    ensures large == LargeFileFindings(v)
  {
    large := [];
    var r := 0;
    while r < |ScanRoots|
      invariant 0 <= r <= |ScanRoots|
      invariant large == CollectedOver(v, ScanRoots[..r])
    {
      assert ScanRoots[..r + 1][..r] == ScanRoots[..r];
      var found := ScanRoot(v, ScanRoots[r]);
      large := large + found;
      r := r + 1;
    }
    assert ScanRoots[..r] == ScanRoots;
    large := SortDesc(large, FindingSize);
    if |large| > MaxResults {
      large := large[..MaxResults];
    }
  }

  /** One root of the scan: skipped unless it exists and passes the veto, else walked. */
  method ScanRoot(v: Vol, root: Path) returns (found: seq<Finding>)
    ensures found == RootEntries(v, root)
  {
    found := [];
    if Exists(v, root) && IsSafe(root) {
      found := WalkLarge(v, Files(v, root), root);
    }
  }

  /** The walk of one root: each walked file that passes the per-file test, in walk order. */
  method WalkLarge(v: Vol, files: seq<Path>, root: Path) returns (found: seq<Finding>)
    ensures found == LargeEntries(v, files, root)
  {
    found := [];
    var i := 0;
    while i < |files|
      invariant 0 <= i <= |files|
      invariant found == LargeEntries(v, files[..i], root)
    {
      assert files[..i + 1][..i] == files[..i];
      var p := files[i];
      if Walked(p, root) && IsLargeCandidate(v, p) {
        found := found + [LargeFileEntry(v, p)];
      }
      i := i + 1;
    }
    assert files[..i] == files;
  }

  // ---------------------------------------------------------------- properties

  /** Of the four roots only `C:\Users` passes the veto. */
  lemma RootsVetted()
    ensures IsSafe(ScanRoots[0])
    ensures !IsSafe(ScanRoots[1]) && !IsSafe(ScanRoots[2]) && !IsSafe(ScanRoots[3])
  {
    IsSafeIff("C:\\Users");
    assert "C:\\Users"[3] != "C:\\Windows\\System32"[3];
    assert "C:\\Users"[3] != "C:\\Program Files"[3];
    IsSafeIff("C:\\Program Files");
    IsSafeIff("C:\\Program Files (x86)");
    assert "C:\\Program Files (x86)"[..16] == "C:\\Program Files";
    IsSafeIff("C:\\ProgramData");
  }

  /** So the entries collected are those of the walk of `C:\Users` alone. */
  lemma OnlyUsersWalked(v: Vol)
    ensures CollectedOver(v, ScanRoots) == RootEntries(v, "C:\\Users")
  {
    RootsVetted();
    var rs := ScanRoots;
    var users := RootEntries(v, "C:\\Users");
    assert rs[..1] == ["C:\\Users"] && rs[..2][..1] == rs[..1] && rs[..3][..2] == rs[..2] && rs[..4][..3] == rs[..3];
    assert CollectedOver(v, rs[..1]) == CollectedOver(v, []) + users == users;
    assert RootEntries(v, rs[1]) == [] && RootEntries(v, rs[2]) == [] && RootEntries(v, rs[3]) == [];
    assert CollectedOver(v, rs[..2]) == CollectedOver(v, rs[..1]) + RootEntries(v, rs[1]) == users;
    assert CollectedOver(v, rs[..3]) == CollectedOver(v, rs[..2]) + RootEntries(v, rs[2]) == users;
    assert rs[..4] == rs;
    assert CollectedOver(v, rs) == CollectedOver(v, rs[..3]) + RootEntries(v, rs[3]) == users;
  }

  /** No excluded directory lies below `C:\Users`, so the walk of it prunes nothing. */
  lemma UsersWalkPrunesNothing(p: Path)
    ensures Walked(p, "C:\\Users") <==> Under(p, "C:\\Users")
  {
    var ex := ExcludeDirs;
    assert ex[0][3] == 'W' && ex[1][3] == 'P' && ex[2][3] == 'P' && ex[3][3] == '$';
    assert Prefix("C:\\Users") == "C:\\Users\\";
    forall i | 0 <= i < |ex|
      ensures !Under(ex[i], "C:\\Users")
    {
    }
  }

  lemma {:induction false} LargeEntriesSound(v: Vol, ps: seq<Path>, root: Path)
    ensures |LargeEntries(v, ps, root)| <= |ps|
    ensures forall f :: f in LargeEntries(v, ps, root) ==>
              f.path in ps && Walked(f.path, root) && IsLargeCandidate(v, f.path) && f == LargeFileEntry(v, f.path)
  {
    if ps != [] {
      LargeEntriesSound(v, ps[..|ps| - 1], root);
      assert forall p :: p in ps[..|ps| - 1] ==> p in ps;
    }
  }

  lemma {:induction false} LargeEntriesComplete(v: Vol, ps: seq<Path>, root: Path, p: Path)
    requires p in ps && Walked(p, root) && IsLargeCandidate(v, p)
    ensures LargeFileEntry(v, p) in LargeEntries(v, ps, root)
  {
    if p != ps[|ps| - 1] {
      assert p in ps[..|ps| - 1];
      LargeEntriesComplete(v, ps[..|ps| - 1], root, p);
    }
  }

  /** The result is a largest-first selection of at most a hundred of the collected entries. */
  lemma LargeFindingsFromCollected(v: Vol)
    ensures |LargeFileFindings(v)| <= MaxResults
    ensures SortedDesc(LargeFileFindings(v), FindingSize)
    ensures forall f :: f in LargeFileFindings(v) ==> f in CollectedOver(v, ScanRoots)
  {
    var c := CollectedOver(v, ScanRoots);
    var sorted := SortDesc(c, FindingSize);
    SortDescFacts(c, FindingSize);
    forall f | f in LargeFileFindings(v)
      ensures f in c
    {
      assert f in sorted;
      assert f in multiset(sorted);
    }
  }

  /**
   * Every reported large file lies below `C:\Users`, passes the veto, is at least 100 MiB,
   * has no excluded extension, and carries its mtime and lower-cased extension; there are at
   * most a hundred, largest first.
   */
  lemma LargeFilesSound(v: Vol)
    ensures |LargeFileFindings(v)| <= MaxResults
    ensures SortedDesc(LargeFileFindings(v), FindingSize)
    ensures forall f :: f in LargeFileFindings(v) ==>
              IsLargeCandidate(v, f.path) && Under(f.path, "C:\\Users") && f.size >= MinSize
              && f.kind == LargeFiles && f.extension == Some(Lower(Ext(f.path)))
              && f.modified == Some(MTimeOf(v, f.path))
  {
    OnlyUsersWalked(v);
    LargeFindingsFromCollected(v);
    if Exists(v, "C:\\Users") {
      LargeEntriesSound(v, Files(v, "C:\\Users"), "C:\\Users");
    }
  }

  /**
   * Nothing large is missed except for lack of room: a large file the walk of `C:\Users`
   * reaches is reported, or a hundred files at least as large are.
   */
  lemma LargeFilesTop(v: Vol, p: Path)
    requires p in v.order && Under(p, "C:\\Users") && IsLargeCandidate(v, p) && IsDir(v, "C:\\Users")
    ensures LargeFileEntry(v, p) in LargeFileFindings(v)
            || (|LargeFileFindings(v)| == MaxResults
                && forall f :: f in LargeFileFindings(v) ==> f.size >= SizeOf(v, p))
  {
    RootsVetted();
    OnlyUsersWalked(v);
    UsersWalkPrunesNothing(p);
    LargeEntriesComplete(v, Files(v, "C:\\Users"), "C:\\Users", p);
    TopKeepsOrBeats(CollectedOver(v, ScanRoots), LargeFileEntry(v, p));
  }

  /** Cutting the sorted entries keeps an entry, or a full hundred entries at least as large. */
  lemma TopKeepsOrBeats(c: seq<Finding>, e: Finding)
    requires e in c
    ensures var sorted := SortDesc(c, FindingSize);
            var top := if |sorted| > MaxResults then sorted[..MaxResults] else sorted;
            e in top || (|top| == MaxResults && forall f :: f in top ==> f.size >= e.size)
  {
    var sorted := SortDesc(c, FindingSize);
    SortDescFacts(c, FindingSize);
    assert e in multiset(c);
    assert e in sorted;
    var k :| 0 <= k < |sorted| && sorted[k] == e;
    if k >= MaxResults {
      forall f | f in sorted[..MaxResults]
        ensures f.size >= e.size
      {
        var j :| 0 <= j < MaxResults && sorted[j] == f;
        assert FindingSize(sorted[j]) >= FindingSize(sorted[k]);
      }
    } else if |sorted| > MaxResults {
      assert sorted[..MaxResults][k] == e;
    }
  }
}
