/**
 * What a scan rule does with one of its targets: walk a directory and report each selected
 * file, or sum a directory and report it as one aggregate entry, or report a single file, or
 * report the matches of a glob pattern. Every rule of the engine is a list of such targets
 * (module RuleTable); the walks below are the loops the rules run.
 */
module ScanRules {
  import opened Wrappers
  import opened Text
  import opened WinPath
  import opened Volume
  import opened PathSafety
  import Clock

  /** The environment the rules read: environment variables, the home directory, glob results and the clock. */
  datatype Host = Host(
    temp: Option<Path>,          // TEMP
    localAppData: Option<Path>,  // LOCALAPPDATA
    appData: Option<Path>,       // APPDATA
    userName: Option<string>,    // USERNAME
    home: Path,                  // os.path.expanduser('~')
    globs: map<Path, seq<Path>>, // glob.glob(pattern) for the patterns the rules use
    now: int)                    // datetime.now(), as seconds

  /** `glob.glob(pattern)`: the host's matches, none for a pattern it does not list. */
  function Matches(h: Host, pattern: Path): seq<Path>
  {
    if pattern in h.globs then h.globs[pattern] else []
  }

  /** The `type` of a finding, which is also its key in the scan results. */
  datatype Category =
    | Temp | Recycle | Cache | Logs | Updates | Thumbnails
    | Prefetch | OldWindows | ErrorReports | ServicePacks | MemoryDumps | FontCache | DiskCleanup
    | AppCache | MediaCache | SearchIndex | BackupTemp | UpdateTemp | DriverBackup | AppCrash
    | AppLogs | RecentItems | Notification | DnsCache | PrinterTemp | DeviceTemp
    | WindowsDefender | StoreCache | OnedriveCache
    | Downloads | InstallerCache | DeliveryOpt
    | LargeFiles
    | Hibernation | NetworkCache

  /** One reported item; the optional fields are present only for the rules that set them. */
  datatype Finding = Finding(
    path: Path,
    size: nat,
    kind: Category,
    subtype: Option<string>,
    modified: Option<int>,
    extension: Option<string>,
    fileCount: Option<nat>)

  function Plain(p: Path, size: nat, kind: Category): Finding
  {
    Finding(p, size, kind, None, None, None, None)
  }

  function Paths(fs: seq<Finding>): (r: seq<Path>)
    ensures |r| == |fs| && forall i :: 0 <= i < |fs| ==> r[i] == fs[i].path
  {
    if fs == [] then [] else Paths(fs[..|fs| - 1]) + [fs[|fs| - 1].path]
  }

  /** The per-file tests, applied to the entry name the walk reports. */
  datatype Sel =
    | AnyFile
    | NameEndsWith(exts: seq<string>)                        // file.endswith(...), case-sensitive
    | LowerNameEndsWith(exts: seq<string>, tag: string)      // file.lower().endswith(...), with a subtype
    | ModifiedBefore(days: nat)                              // mod_time < now - timedelta(days)
    | OlderThanDays(days: nat)                               // (now - mod_time).days > days
    | NameEndsWithOrModifiedBefore(exts: seq<string>, days: nat)
    | InstallerSafe(exts: seq<string>, days: nat)            // temp_installer, else very_old_installer

  /** Whether a file is selected and with which subtype. */
  function Pick(h: Host, v: Vol, sel: Sel, p: Path): Option<Option<string>>
  {
    var name := Basename(p);
    match sel
    case AnyFile => Some(None)
    case NameEndsWith(exts) => if EndsWithAny(name, exts) then Some(None) else None
    case LowerNameEndsWith(exts, tag) => if EndsWithAny(Lower(name), exts) then Some(Some(tag)) else None
    case ModifiedBefore(days) => if Clock.ModifiedBefore(MTimeOf(v, p), h.now, days) then Some(None) else None
    case OlderThanDays(days) => if Clock.OlderThanDays(MTimeOf(v, p), h.now, days) then Some(None) else None
    case NameEndsWithOrModifiedBefore(exts, days) =>
      if EndsWithAny(name, exts) || Clock.ModifiedBefore(MTimeOf(v, p), h.now, days) then Some(None) else None
    case InstallerSafe(exts, days) =>
      if EndsWithAny(Lower(name), exts) then Some(Some("temp_installer"))
      else if Clock.ModifiedBefore(MTimeOf(v, p), h.now, days) then Some(Some("very_old_installer"))
      else None
  }

  /** One target of a rule. */
  datatype Target =
    | Tree(dir: Path, vetted: bool, counted: bool)  // one aggregate entry for the whole directory
    | PerFile(dir: Path, sel: Sel)                   // one entry per selected file below the directory
    | FileOrTree(path: Path)                         // a file on its own, else a directory aggregate
    | SingleFile(path: Path)                         // a file on its own, nothing for a directory
    | FileOrPerFile(path: Path, sel: Sel)            // a selected file on its own, else per file below it
    | Thumbs(dir: Path, pattern: Path)               // every file the pattern matches, once `dir` passes
    | GlobFiles(pattern: Path, sel: Sel)             // every selected, safe, non-empty match

  /** The entries of the files `ps` that `sel` selects, in walk order. */
  function PerFileFindings(h: Host, v: Vol, ps: seq<Path>, sel: Sel, kind: Category): seq<Finding>
  {
    if ps == [] then []
    else
      var p := ps[|ps| - 1];
      PerFileFindings(h, v, ps[..|ps| - 1], sel, kind)
      + (if IsFile(v, p) && Pick(h, v, sel, p).Some?
         then [Finding(p, SizeOf(v, p), kind, Pick(h, v, sel, p).value, None, None, None)]
         else [])
  }

  /**
   * The entries for glob matches: a match must be a file `sel` selects; when `vetted` it must
   * also exist and pass the veto, and when `positive` its size must be above zero.
   */
  function GlobFindings(h: Host, v: Vol, ms: seq<Path>, sel: Sel, vetted: bool, positive: bool, kind: Category): seq<Finding>
  {
    if ms == [] then []
    else
      GlobFindings(h, v, ms[..|ms| - 1], sel, vetted, positive, kind) + GlobEntry(h, v, ms[|ms| - 1], sel, vetted, positive, kind)
  }

  /** The entry for one glob match `m`, if it is kept. */
  function GlobEntry(h: Host, v: Vol, m: Path, sel: Sel, vetted: bool, positive: bool, kind: Category): seq<Finding>
  {
    if (!vetted || (Exists(v, m) && IsSafe(m))) && IsFile(v, m) && Pick(h, v, sel, m).Some?
       && (!positive || SizeOf(v, m) > 0)
    then [Finding(m, SizeOf(v, m), kind, Pick(h, v, sel, m).value, None, None, None)]
    else []
  }

  /** The aggregate entry of directory `d`, present only when its files sum to more than zero. */
  function Aggregate(v: Vol, d: Path, counted: bool, kind: Category): seq<Finding>
  {
    if TreeSize(v, d) > 0
    then [Finding(d, TreeSize(v, d), kind, None, None, None, if counted then Some(|Files(v, d)|) else None)]
    else []
  }

  /** What one target contributes. */
  function TargetFindings(h: Host, v: Vol, t: Target, kind: Category): seq<Finding>
  {
    match t
    case Tree(d, vetted, counted) =>
      if Exists(v, d) && (!vetted || IsSafe(d)) then Aggregate(v, d, counted, kind) else []
    case PerFile(d, sel) =>
      if Exists(v, d) && IsSafe(d) then PerFileFindings(h, v, Files(v, d), sel, kind) else []
    case FileOrTree(p) =>
      if !(Exists(v, p) && IsSafe(p)) then []
      else if IsFile(v, p) then (if SizeOf(v, p) > 0 then [Plain(p, SizeOf(v, p), kind)] else [])
      else Aggregate(v, p, false, kind)
    case SingleFile(p) =>
      if Exists(v, p) && IsSafe(p) && IsFile(v, p) && SizeOf(v, p) > 0 then [Plain(p, SizeOf(v, p), kind)] else []
    case FileOrPerFile(p, sel) =>
      if !(Exists(v, p) && IsSafe(p)) then []
      else if IsFile(v, p) then
        (if Pick(h, v, sel, p).Some? && SizeOf(v, p) > 0
         then [Finding(p, SizeOf(v, p), kind, Pick(h, v, sel, p).value, None, None, None)] else [])
      else PerFileFindings(h, v, Files(v, p), sel, kind)
    case Thumbs(d, pattern) =>
      if Exists(v, d) && IsSafe(d) then GlobFindings(h, v, Matches(h, pattern), AnyFile, false, false, kind) else []
    case GlobFiles(pattern, sel) =>
      GlobFindings(h, v, Matches(h, pattern), sel, true, true, kind)
  }

  // ---------------------------------------------------------------- the walks

  /** The walk-and-sum loop: the total size and the number of files below `d`. */
  method WalkSum(v: Vol, d: Path) returns (total: nat, count: nat)
    ensures total == TreeSize(v, d) && count == |Files(v, d)|
  {
    total, count := SumWalked(v, Files(v, d));
  }

  /** The summing loop over the files the walk reports. */
  method SumWalked(v: Vol, files: seq<Path>) returns (total: nat, count: nat)
    ensures total == SumSizes(v, files) && count == |files|
  {
    total, count := 0, 0;
    var i := 0;
    while i < |files|
      invariant 0 <= i <= |files|
      invariant total == SumSizes(v, files[..i]) && count == i
    {
      assert files[..i + 1][..i] == files[..i];
      total := total + SizeOf(v, files[i]);
      count := count + 1;
      i := i + 1;
    }
    assert files[..i] == files;
  }

  /** The walk-and-select loop over the files `ps`. */
  method WalkSelect(h: Host, v: Vol, ps: seq<Path>, sel: Sel, kind: Category) returns (fs: seq<Finding>)
    ensures fs == PerFileFindings(h, v, ps, sel, kind)
  {
    fs := [];
    var i := 0;
    while i < |ps|
      invariant 0 <= i <= |ps|
      invariant fs == PerFileFindings(h, v, ps[..i], sel, kind)
    {
      var p := ps[i];
      PerFileStep(h, v, ps, i, sel, kind);
      if IsFile(v, p) {
        var picked := Pick(h, v, sel, p);
        if picked.Some? {
          fs := fs + [Finding(p, SizeOf(v, p), kind, picked.value, None, None, None)];
        }
      }
      i := i + 1;
    }
    assert ps[..i] == ps;
  }

  lemma PerFileStep(h: Host, v: Vol, ps: seq<Path>, i: nat, sel: Sel, kind: Category)
    requires i < |ps|
    ensures PerFileFindings(h, v, ps[..i + 1], sel, kind)
            == PerFileFindings(h, v, ps[..i], sel, kind)
               + (if IsFile(v, ps[i]) && Pick(h, v, sel, ps[i]).Some?
                  then [Finding(ps[i], SizeOf(v, ps[i]), kind, Pick(h, v, sel, ps[i]).value, None, None, None)]
                  else [])
  {
    assert ps[..i + 1][..i] == ps[..i];
  }

  lemma GlobStep(h: Host, v: Vol, ms: seq<Path>, i: nat, sel: Sel, vetted: bool, positive: bool, kind: Category)
    requires i < |ms|
    ensures GlobFindings(h, v, ms[..i + 1], sel, vetted, positive, kind)
            == GlobFindings(h, v, ms[..i], sel, vetted, positive, kind) + GlobEntry(h, v, ms[i], sel, vetted, positive, kind)
  {
    assert ms[..i + 1][..i] == ms[..i];
  }

  /** The loop over the matches of a glob pattern. */
  method WalkMatches(h: Host, v: Vol, ms: seq<Path>, sel: Sel, vetted: bool, positive: bool, kind: Category)
    returns (fs: seq<Finding>)
    ensures fs == GlobFindings(h, v, ms, sel, vetted, positive, kind)
  {
    fs := [];
    var i := 0;
    while i < |ms|
      invariant 0 <= i <= |ms|
      invariant fs == GlobFindings(h, v, ms[..i], sel, vetted, positive, kind)
    {
      var m := ms[i];
      GlobStep(h, v, ms, i, sel, vetted, positive, kind);
      var picked := Pick(h, v, sel, m);
      ghost var entry := GlobEntry(h, v, m, sel, vetted, positive, kind);
      if (!vetted || (Exists(v, m) && IsSafe(m))) && IsFile(v, m) && picked.Some? && (!positive || SizeOf(v, m) > 0) {
        fs := fs + [Finding(m, SizeOf(v, m), kind, picked.value, None, None, None)];
      }
      assert fs == GlobFindings(h, v, ms[..i], sel, vetted, positive, kind) + entry;
      i := i + 1;
    }
    assert ms[..i] == ms;
  }

  method WalkAggregate(v: Vol, d: Path, counted: bool, kind: Category) returns (fs: seq<Finding>)
    ensures fs == Aggregate(v, d, counted, kind)
  {
    var total, count := WalkSum(v, d);
    fs := [];
    if total > 0 {
      fs := [Finding(d, total, kind, None, None, None, if counted then Some(count) else None)];
    }
  }

  /** One target, as the rule bodies process it. */
  method ScanTarget(h: Host, v: Vol, t: Target, kind: Category) returns (fs: seq<Finding>)
    ensures fs == TargetFindings(h, v, t, kind)
  {
    fs := [];
    match t
    case Tree(d, vetted, counted) =>
      if Exists(v, d) && (!vetted || IsSafe(d)) {
        fs := WalkAggregate(v, d, counted, kind);
      }
    case PerFile(d, sel) =>
      if Exists(v, d) && IsSafe(d) {
        fs := WalkSelect(h, v, Files(v, d), sel, kind);
      }
    case FileOrTree(p) =>
      if Exists(v, p) && IsSafe(p) {
        if IsFile(v, p) {
          if SizeOf(v, p) > 0 {
            fs := [Plain(p, SizeOf(v, p), kind)];
          }
        } else {
          fs := WalkAggregate(v, p, false, kind);
        }
      }
    case SingleFile(p) =>
      if Exists(v, p) && IsSafe(p) && IsFile(v, p) && SizeOf(v, p) > 0 {
        fs := [Plain(p, SizeOf(v, p), kind)];
      }
    case FileOrPerFile(p, sel) =>
      if Exists(v, p) && IsSafe(p) {
        if IsFile(v, p) {
          var picked := Pick(h, v, sel, p);
          if picked.Some? && SizeOf(v, p) > 0 {
            fs := [Finding(p, SizeOf(v, p), kind, picked.value, None, None, None)];
          }
        } else {
          fs := WalkSelect(h, v, Files(v, p), sel, kind);
        }
      }
    case Thumbs(d, pattern) =>
      if Exists(v, d) && IsSafe(d) {
        fs := WalkMatches(h, v, Matches(h, pattern), AnyFile, false, false, kind);
      }
    case GlobFiles(pattern, sel) =>
      fs := WalkMatches(h, v, Matches(h, pattern), sel, true, true, kind);
  }

  // ---------------------------------------------------------------- properties

  /** Every entry of a per-file walk is a listed file the test selects, with its size and subtype. */
  lemma {:induction false} PerFileFindingsSound(h: Host, v: Vol, ps: seq<Path>, sel: Sel, kind: Category)
    ensures |PerFileFindings(h, v, ps, sel, kind)| <= |ps|
    ensures forall f :: f in PerFileFindings(h, v, ps, sel, kind) ==>
              f.path in ps && IsFile(v, f.path) && Pick(h, v, sel, f.path) == Some(f.subtype)
              && f.size == SizeOf(v, f.path) && f.kind == kind
              && f.modified == None && f.extension == None && f.fileCount == None
  {
    if ps != [] {
      var init := ps[..|ps| - 1];
      PerFileFindingsSound(h, v, init, sel, kind);
      assert forall p :: p in init ==> p in ps;
    }
  }

  /** Every listed file the test selects is reported by a per-file walk. */
  lemma {:induction false} PerFileFindingsComplete(h: Host, v: Vol, ps: seq<Path>, sel: Sel, kind: Category)
    ensures forall p :: p in ps && IsFile(v, p) && Pick(h, v, sel, p).Some? ==>
              p in Paths(PerFileFindings(h, v, ps, sel, kind))
  {
    if ps != [] {
      var init, last := ps[..|ps| - 1], ps[|ps| - 1];
      PerFileFindingsComplete(h, v, init, sel, kind);
      var rest := PerFileFindings(h, v, init, sel, kind);
      var tail := if IsFile(v, last) && Pick(h, v, sel, last).Some?
                  then [Finding(last, SizeOf(v, last), kind, Pick(h, v, sel, last).value, None, None, None)]
                  else [];
      assert PerFileFindings(h, v, ps, sel, kind) == rest + tail;
      PathsAppend(rest, tail);
      assert tail != [] ==> Paths(tail) == [last];
      assert forall p :: p in ps ==> p in init || p == last;
    }
  }

  lemma PathsAppend(a: seq<Finding>, b: seq<Finding>)
    ensures Paths(a + b) == Paths(a) + Paths(b)
  {
    assert forall i :: 0 <= i < |a + b| ==> (a + b)[i].path == (Paths(a) + Paths(b))[i];
  }

  /** An aggregate target reports one entry exactly when it exists, passes the veto if vetted, and sums above zero. */
  lemma TreeFinding(h: Host, v: Vol, d: Path, vetted: bool, counted: bool, kind: Category)
    ensures var fs := TargetFindings(h, v, Tree(d, vetted, counted), kind);
            (|fs| == 1 <==> Exists(v, d) && (!vetted || IsSafe(d)) && TreeSize(v, d) > 0)
            && (fs == [] || |fs| == 1)
            && (|fs| == 1 ==> fs[0].path == d && fs[0].size == TreeSize(v, d) && IsDir(v, d)
                              && (counted <==> fs[0].fileCount.Some?)
                              && (counted ==> fs[0].fileCount.value == |Files(v, d)|))
  {
  }

  /** The root a target is vetted by, if it has one. */
  function VettedRoot(t: Target): Option<Path>
  {
    match t
    case Tree(d, vetted, _) => if vetted then Some(d) else None
    case PerFile(d, _) => Some(d)
    case FileOrTree(p) => Some(p)
    case SingleFile(p) => Some(p)
    case FileOrPerFile(p, _) => Some(p)
    case Thumbs(d, _) => Some(d)
    case GlobFiles(_, _) => None
  }

  /** A target whose root fails the veto reports nothing. */
  lemma VetoedTargetSilent(h: Host, v: Vol, t: Target, kind: Category)
    requires VettedRoot(t).Some? && !IsSafe(VettedRoot(t).value)
    ensures TargetFindings(h, v, t, kind) == []
  {
  }

  lemma {:induction false} GlobFindingsSafe(h: Host, v: Vol, ms: seq<Path>, sel: Sel, positive: bool, kind: Category)
    ensures forall f :: f in GlobFindings(h, v, ms, sel, true, positive, kind) ==>
              IsSafe(f.path) && IsFile(v, f.path) && f.path in ms && (positive ==> f.size > 0)
  {
    if ms != [] {
      var init, m := ms[..|ms| - 1], ms[|ms| - 1];
      GlobFindingsSafe(h, v, init, sel, positive, kind);
      assert forall x :: x in init ==> x in ms;
      assert GlobFindings(h, v, ms, sel, true, positive, kind)
             == GlobFindings(h, v, init, sel, true, positive, kind) + GlobFindings(h, v, [m], sel, true, positive, kind);
    }
  }

  /**
   * Every entry of a target that vets what it reports (vetted aggregates, single files, files
   * on their own and glob matches) passes the veto, and none has size zero.
   */
  lemma CheckedFindingsSafe(h: Host, v: Vol, t: Target, kind: Category)
    requires t.Tree? ==> t.vetted
    requires !t.PerFile? && !t.FileOrPerFile? && !t.Thumbs?
    ensures forall f :: f in TargetFindings(h, v, t, kind) ==> IsSafe(f.path) && f.size > 0
  {
    if t.GlobFiles? {
      GlobFindingsSafe(h, v, Matches(h, t.pattern), t.sel, true, kind);
    }
  }

  /** With no per-file test, a walk reports every file below the directory, zero-size ones included. */
  lemma EveryFileReported(h: Host, v: Vol, d: Path, kind: Category)
    requires Exists(v, d) && IsSafe(d)
    ensures Paths(TargetFindings(h, v, PerFile(d, AnyFile), kind)) == Files(v, d)
  {
    PerFileAllPaths(h, v, Files(v, d), kind);
  }

  lemma {:induction false} PerFileAllPaths(h: Host, v: Vol, ps: seq<Path>, kind: Category)
    requires forall p :: p in ps ==> IsFile(v, p)
    ensures Paths(PerFileFindings(h, v, ps, AnyFile, kind)) == ps
  {
    if ps != [] {
      var init := ps[..|ps| - 1];
      PerFileAllPaths(h, v, init, kind);
      var fs := PerFileFindings(h, v, ps, AnyFile, kind);
      assert fs == PerFileFindings(h, v, init, AnyFile, kind) + [Plain(ps[|ps| - 1], SizeOf(v, ps[|ps| - 1]), kind)];
      assert fs[..|fs| - 1] == PerFileFindings(h, v, init, AnyFile, kind);
      assert ps == init + [ps[|ps| - 1]];
    }
  }

  /**
   * Only the walked directory is vetted, not the files found below it: with a walk rooted at
   * `C:\`, a file below `C:\Windows\System32` is reported.
   */
  lemma WalkFromDriveRootReportsSystem32(h: Host, v: Vol, p: Path, kind: Category)
    requires IsDir(v, "C:\\") && p in v.order && IsFile(v, p) && Under(p, "C:\\Windows\\System32")
    ensures !IsSafe(p)
    ensures p in Paths(TargetFindings(h, v, PerFile("C:\\", AnyFile), kind))
  {
    BelowRootRefused(p, 0);
    System32BelowDriveRoot(p);
    DriveRootSafe();
    assert p in Files(v, "C:\\");
    PerFileFindingsComplete(h, v, Files(v, "C:\\"), AnyFile, kind);
  }

  lemma System32BelowDriveRoot(p: Path)
    requires Under(p, "C:\\Windows\\System32")
    ensures Under(p, "C:\\")
  {
    JoinUnder("C:\\", "Windows\\System32");
    assert Join("C:\\", "Windows\\System32") == "C:\\Windows\\System32";
    UnderTrans(p, "C:\\Windows\\System32", "C:\\");
  }

  lemma DriveRootSafe()
    ensures IsSafe("C:\\")
  {
    IsSafeIff("C:\\");
  }

  /** `file.endswith` is case-sensitive: the system-log test passes over an upper-case `.LOG`. */
  lemma NameTestCaseSensitive(h: Host, v: Vol, d: Path)
    requires !IsBareDrive(d)
    ensures Pick(h, v, NameEndsWith([".log", ".etl", ".dmp"]), Join(d, "CBS.LOG")).None?
  {
    BasenameOfJoin(d, "CBS.LOG");
    UpperLogNotLog();
  }

  lemma UpperLogNotLog()
    ensures !EndsWithAny("CBS.LOG", [".log", ".etl", ".dmp"])
  {
    var n := "CBS.LOG";
    var exts := [".log", ".etl", ".dmp"];
    forall i | 0 <= i < |exts| ensures !EndsWith(n, exts[i]) {
      assert n[|n| - 3] != exts[i][1];
    }
  }

  /** `file.lower().endswith` is not: the installer test takes an upper-case `.TMP` as a temporary file. */
  lemma LowerNameTestCaseInsensitive(h: Host, v: Vol, d: Path)
    requires !IsBareDrive(d)
    ensures Pick(h, v, InstallerSafe([".tmp"], 30), Join(d, "SETUP.TMP")) == Some(Some("temp_installer"))
  {
    var p := Join(d, "SETUP.TMP");
    BasenameOfJoin(d, "SETUP.TMP");
    LowerSetupTmp();
    assert EndsWithAny(Lower(Basename(p)), [".tmp"]);
  }

  lemma LowerSetupTmp()
    ensures EndsWithAny(Lower("SETUP.TMP"), [".tmp"])
  {
    assert "SETUP" + ".TMP" == "SETUP.TMP";
    LowerEndsWithTmp("SETUP");
  }

  lemma LowerEndsWithTmp(a: string)
    ensures EndsWithAny(Lower(a + ".TMP"), [".tmp"])
  {
    LowerAppend(a, ".TMP");
    LowerTmp();
    var l := Lower(a + ".TMP");
    assert l[|l| - 4..] == ".tmp";
    assert EndsWith(l, [".tmp"][0]);
  }

  lemma LowerTmp()
    ensures Lower(".TMP") == ".tmp"
  {
    assert ".TMP"[..3] == ".TM" && ".TM"[..2] == ".T" && ".T"[..1] == "." && "."[..0] == [];
  }

  /** A separator-free suffix that starts at the start or after a separator is everything after the last separator. */
  lemma LastComponent(p: Path, r: Path, k: nat)
    requires EndsWith(p, r) && (forall i :: 0 <= i < |r| ==> !IsSep(r[i]))
    requires |r| < |p| ==> IsSep(p[|p| - |r| - 1])
    requires k <= |p| && (k > 0 ==> IsSep(p[k - 1])) && forall i :: k <= i < |p| ==> !IsSep(p[i])
    ensures r == p[k..]
  {
    assert forall j :: 0 <= j < |r| ==> r[j] == p[|p| - |r| + j];
  }

  /** The entry name of `Join(d, name)` is `name` (a bare drive aside, which takes no separator). */
  lemma BasenameOfJoin(d: Path, name: string)
    requires !IsBareDrive(d)
    requires |name| > 0 && forall i :: 0 <= i < |name| ==> !IsSep(name[i])
    ensures Basename(Join(d, name)) == name
  {
    var pre := Prefix(d);
    var p := Join(d, name);
    assert p == pre + name;
    assert p[|pre|..] == name;
    assert |pre| > 0 ==> IsSep(p[|pre| - 1]) by {
      if |pre| > 0 {
        if |pre| == |d| { assert pre == d; }
        assert p[|pre| - 1] == pre[|pre| - 1];
      }
    }
    LastComponent(p, Basename(p), |pre|);
  }
}
