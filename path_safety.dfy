/**
 * The engine's path veto (`_is_safe_path`): a raw, case-sensitive string test against the
 * protected roots and the exact names of four system directories.
 */
module PathSafety {
  import opened Text
  import opened WinPath

  /** The engine's `safe_paths`: any path whose text starts with one of these is refused. */
  const ProtectedRoots: seq<Path> :=
    ["C:\\Windows\\System32", "C:\\Windows\\SysWOW64", "C:\\Program Files", "C:\\Program Files (x86)"]

  /** The system directories refused when named exactly. */
  const SystemDirs: seq<Path> :=
    ["C:\\Windows", "C:\\Program Files", "C:\\Program Files (x86)", "C:\\ProgramData"]

  /** `_is_safe_path(p)` with `roots` as the engine's `safe_paths`. */
  predicate Safe(roots: seq<Path>, p: Path)
  {
    (forall i :: 0 <= i < |roots| ==> !StartsWith(p, roots[i])) && p !in SystemDirs
  }

  /** The veto as the engine applies it. */
  predicate IsSafe(p: Path)
  {
    Safe(ProtectedRoots, p)
  }

  /**
   * What the veto amounts to: three raw prefixes (the `(x86)` root and two of the exact names
   * already start with `C:\Program Files`) and two exact names.
   */
  lemma IsSafeIff(p: Path)
    ensures IsSafe(p) <==>
              !StartsWith(p, "C:\\Windows\\System32") && !StartsWith(p, "C:\\Windows\\SysWOW64")
              && !StartsWith(p, "C:\\Program Files") && p != "C:\\Windows" && p != "C:\\ProgramData"
  {
    var pf := "C:\\Program Files";
    var x86 := "C:\\Program Files (x86)";
    var roots := ProtectedRoots;
    assert roots == ["C:\\Windows\\System32", "C:\\Windows\\SysWOW64", pf, x86];
    assert SystemDirs == ["C:\\Windows", pf, x86, "C:\\ProgramData"];
    assert x86[..|pf|] == pf;
    if StartsWith(p, x86) {
      assert p[..|pf|] == p[..|x86|][..|pf|];
    }
    if p == pf || p == x86 {
      assert p[..|pf|] == pf;
    }
    if IsSafe(p) {
      assert !StartsWith(p, roots[0]) && !StartsWith(p, roots[1]) && !StartsWith(p, roots[2]);
    }
  }

  /** Every path walked below a protected root is refused. */
  lemma BelowRootRefused(p: Path, i: nat)
    requires i < |ProtectedRoots| && Under(p, ProtectedRoots[i])
    ensures !IsSafe(p)
  {
    var r := ProtectedRoots[i];
    assert Prefix(r) == r + "\\";
    assert p[..|r|] == p[..|Prefix(r)|][..|r|];
  }

  /**
   * The prefix test is on raw text, not on path components: a sibling whose name merely
   * starts like a protected root is refused too.
   */
  lemma RawPrefixOverreaches()
    ensures !Under("C:\\Program Files2\\app.log", "C:\\Program Files")
    ensures !IsSafe("C:\\Program Files2\\app.log")
    ensures !Under("C:\\Windows\\System32Backup\\a.tmp", "C:\\Windows\\System32")
    ensures !IsSafe("C:\\Windows\\System32Backup\\a.tmp")
  {
    IsSafeIff("C:\\Program Files2\\app.log");
    assert "C:\\Program Files2\\app.log"[..16] == "C:\\Program Files";
    IsSafeIff("C:\\Windows\\System32Backup\\a.tmp");
    assert "C:\\Windows\\System32Backup\\a.tmp"[..19] == "C:\\Windows\\System32";
  }

  /** A path that differs from `q` at a position both have does not start with `q`. */
  lemma DiffersAt(p: Path, q: Path, k: nat)
    requires k < |p| && k < |q| && p[k] != q[k]
    ensures !StartsWith(p, q)
  {
  }

  /**
   * Only the exact name `C:\Windows` is refused, so the rest of the Windows directory and all
   * of `C:\ProgramData` below its top level pass the veto.
   */
  lemma WindowsTreeNotCovered()
    ensures IsSafe("C:\\Windows\\Temp\\a.tmp")
    ensures IsSafe("C:\\ProgramData\\Microsoft\\Windows\\WER")
  {
    WindowsTempSafe();
    ProgramDataTreeSafe();
  }

  lemma WindowsTempSafe()
    ensures IsSafe("C:\\Windows\\Temp\\a.tmp")
  {
    var a := "C:\\Windows\\Temp\\a.tmp";
    DiffersAt(a, "C:\\Windows\\System32", 11);
    DiffersAt(a, "C:\\Windows\\SysWOW64", 11);
    DiffersAt(a, "C:\\Program Files", 3);
    IsSafeIff(a);
  }

  lemma ProgramDataTreeSafe()
    ensures IsSafe("C:\\ProgramData\\Microsoft\\Windows\\WER")
  {
    var b := "C:\\ProgramData\\Microsoft\\Windows\\WER";
    DiffersAt(b, "C:\\Windows\\System32", 3);
    DiffersAt(b, "C:\\Windows\\SysWOW64", 3);
    DiffersAt(b, "C:\\Program Files", 10);
    IsSafeIff(b);
  }

  /** The comparison is case-sensitive and knows only the backslash spelling. */
  lemma VetoIsCaseSensitive()
    ensures IsSafe("c:\\windows\\system32\\config\\SAM")
    ensures IsSafe("C:/Windows/System32/config/SAM")
  {
    LowerCaseSafe();
    SlashSafe();
  }

  lemma LowerCaseSafe()
    ensures IsSafe("c:\\windows\\system32\\config\\SAM")
  {
    var a := "c:\\windows\\system32\\config\\SAM";
    DiffersAt(a, "C:\\Windows\\System32", 0);
    DiffersAt(a, "C:\\Windows\\SysWOW64", 0);
    DiffersAt(a, "C:\\Program Files", 0);
    IsSafeIff(a);
  }

  lemma SlashSafe()
    ensures IsSafe("C:/Windows/System32/config/SAM")
  {
    var b := "C:/Windows/System32/config/SAM";
    DiffersAt(b, "C:\\Windows\\System32", 2);
    DiffersAt(b, "C:\\Windows\\SysWOW64", 2);
    DiffersAt(b, "C:\\Program Files", 2);
    IsSafeIff(b);
  }
}
