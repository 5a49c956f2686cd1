/**
 * Windows path algebra as `ntpath` performs it on the cleaner's paths: joining, the
 * "lies below" relation used by directory walks, relative paths, base names and extensions.
 * Paths are plain character strings and comparisons are case-sensitive, as in the source.
 */
module WinPath {
  import opened Wrappers
  import opened Text

  type Path = string

  predicate IsSep(c: char)
  {
    c == '\\' || c == '/'
  }

  /** A drive designator with nothing after it, such as `D:`. */
  predicate IsBareDrive(p: Path)
  {
    |p| == 2 && p[1] == ':'
  }

  /**
   * What `ntpath.join(d, name)` puts before `name`: `d` itself when it is empty, already ends
   * with a separator or is a bare drive, otherwise `d` followed by a backslash.
   */
  function Prefix(d: Path): (r: Path)
    ensures StartsWith(r, d) && |d| <= |r| <= |d| + 1
    ensures |r| == |d| + 1 ==> r[|d|] == '\\'
  {
    if d == [] || IsSep(d[|d| - 1]) || IsBareDrive(d) then d else d + ['\\']
  }

  /** `ntpath.join(base, rel)` for a `rel` that carries neither a drive nor a leading separator. */
  function Join(base: Path, rel: Path): (r: Path)
    ensures |r| == |Prefix(base)| + |rel|
    ensures StartsWith(r, base)
  {
    Prefix(base) + rel
  }

  /**
   * `p` is reached by walking below `d`: it extends `d` past the separator `Join` would add.
   * This is the relation between `os.walk(d)` and the paths it yields.
   */
  predicate Under(p: Path, d: Path)
  {
    |Prefix(d)| < |p| && StartsWith(p, Prefix(d))
  }

  /** `q` is `d` itself or lies below it. */
  predicate Within(q: Path, d: Path)
  {
    q == d || Under(q, d)
  }

  /** Neither tree contains the other: `a` is not within `b`, nor `b` within `a`, even as text. */
  predicate Apart(a: Path, b: Path)
  {
    !StartsWith(Prefix(a), Prefix(b)) && !StartsWith(Prefix(b), Prefix(a))
  }

  /** `os.path.relpath(p, d)` for a `p` found by walking `d`. */
  function RelPath(p: Path, d: Path): (r: Path)
    requires Under(p, d)
    ensures |r| > 0 && Join(d, r) == p
  {
    p[|Prefix(d)|..]
  }

  /**
   * The part of `p` after its last separator (`ntpath.basename`, drives aside). A
   * drive-relative name keeps its drive (`D:x` here, `x` for `ntpath`); the engine takes base
   * names only of absolute paths, whose drive is followed by a separator.
   */
  function Basename(p: Path): (r: Path)
    ensures EndsWith(p, r)
    ensures forall i :: 0 <= i < |r| ==> !IsSep(r[i])
    ensures |r| < |p| ==> IsSep(p[|p| - |r| - 1])
  {
    if |p| == 0 || IsSep(p[|p| - 1]) then []
    else
      var r := Basename(p[..|p| - 1]) + [p[|p| - 1]];
      assert p[|p| - |r|..] == p[..|p| - 1][|p| - |r|..] + [p[|p| - 1]];
      r
  }

  /** `s` without the separators at its end. */
  function TrimSeps(s: Path): (r: Path)
    ensures StartsWith(s, r)
    ensures r == [] || !IsSep(r[|r| - 1])
  {
    if |s| > 0 && IsSep(s[|s| - 1]) then
      var r := TrimSeps(s[..|s| - 1]);
      assert s[..|r|] == s[..|s| - 1][..|r|];
      r
    else s
  }

  /**
   * `ntpath.dirname(p)`: what comes before the base name, without the separators that end it,
   * unless only separators would be left (the root, as in `C:\`). A leading `X:` drive is kept
   * apart from that, as `splitdrive` does; UNC shares are not.
   */
  function Dirname(p: Path): (r: Path)
    ensures StartsWith(p, r)
  {
    var k := if |p| >= 2 && p[1] == ':' then 2 else 0;
    var rest := p[k..];
    var head := rest[..|rest| - |Basename(rest)|];
    var trimmed := TrimSeps(head);
    var tail := if trimmed == [] then head else trimmed;
    assert p == p[..k] + rest && rest[..|tail|] == tail;
    p[..k] + tail
  }

  /** The index of the last `.` in `b`, if any. */
  function LastDot(b: Path): (r: Option<nat>)
    ensures r.Some? ==>
              r.value < |b| && b[r.value] == '.' && forall i :: r.value < i < |b| ==> b[i] != '.'
    ensures r.None? ==> forall i :: 0 <= i < |b| ==> b[i] != '.'
  {
    if |b| == 0 then None
    else if b[|b| - 1] == '.' then Some(|b| - 1)
    else LastDot(b[..|b| - 1])
  }

  /**
   * `os.path.splitext(p)[1]`: from the last dot of the base name on, unless only dots come
   * before that dot (a leading-dot name such as `.profile` has no extension).
   */
  function Ext(p: Path): Path
  {
    var b := Basename(p);
    match LastDot(b)
    case None => []
    case Some(k) => if forall i :: 0 <= i < k ==> b[i] == '.' then [] else b[k..]
  }


  /** `name` is a single path component: non-empty, free of separators and of `:`. */
  predicate IsName(name: string)
  {
    |name| > 0 && forall i :: 0 <= i < |name| ==> !IsSep(name[i]) && name[i] != ':'
  }

  /** The entry name `os.listdir(d)` reports for `p`, when `p` lies directly in `d`. */
  function ChildName(p: Path, d: Path): (r: Option<string>)
    ensures r.Some? ==> Under(p, d) && IsName(r.value) && Join(d, r.value) == p
  {
    if Under(p, d) && IsName(p[|Prefix(d)|..]) then Some(p[|Prefix(d)|..]) else None
  }

  // ---------------------------------------------------------------- lemmas

  /** Joining a name onto `d` gives a path below `d` whose relative path is that name. */
  lemma JoinUnder(d: Path, rel: Path)
    requires |rel| > 0
    ensures Under(Join(d, rel), d) && RelPath(Join(d, rel), d) == rel
  {
  }

  /** Lying below is transitive. */
  lemma UnderTrans(p: Path, q: Path, d: Path)
    requires Under(p, q) && Under(q, d)
    ensures Under(p, d)
  {
    assert p[..|Prefix(d)|] == p[..|Prefix(q)|][..|Prefix(d)|];
    assert q[..|Prefix(d)|] == Prefix(q)[..|q|][..|Prefix(d)|];
  }

  /** A path that extends a path below `d` lies below `d` too. */
  lemma ExtendsUnder(x: Path, t: Path, d: Path)
    requires StartsWith(x, t) && Under(t, d)
    ensures Under(x, d)
  {
    assert x[..|Prefix(d)|] == x[..|t|][..|Prefix(d)|];
  }

  /** Nothing below `a` lies within a tree `b` apart from it. */
  lemma ApartOutside(x: Path, a: Path, b: Path)
    requires Apart(a, b) && Under(x, a)
    ensures !Within(x, b)
  {
  }

  /** A start of a start of `x` starts `x`. */
  lemma StartsWithTrans(x: Path, y: Path, z: Path)
    ensures StartsWith(x, y) && StartsWith(y, z) ==> StartsWith(x, z)
  {
    if StartsWith(x, y) && StartsWith(y, z) {
      assert x[..|z|] == x[..|y|][..|z|];
    }
  }

  /** Two trees whose prefixes both start one path are not apart: one prefix starts the other. */
  lemma SharedPrefixesNotApart(x: Path, a: Path, b: Path)
    ensures StartsWith(x, Prefix(a)) && StartsWith(x, Prefix(b)) ==> !Apart(a, b)
  {
    if StartsWith(x, Prefix(a)) && StartsWith(x, Prefix(b)) {
      if |Prefix(a)| <= |Prefix(b)| {
        assert Prefix(b)[..|Prefix(a)|] == x[..|Prefix(b)|][..|Prefix(a)|];
      } else {
        assert Prefix(a)[..|Prefix(b)|] == x[..|Prefix(a)|][..|Prefix(b)|];
      }
    }
  }

  /** Nothing lies below itself. */
  lemma UnderIrreflexive(p: Path)
    ensures !Under(p, p)
  {
  }

  /**
   * Two different entries of a non-empty directory are disjoint: neither lies below the
   * other (entries do not contain separators).
   */
  lemma SiblingsDisjoint(d: Path, a: string, b: string)
    requires d != [] && IsName(a) && IsName(b) && a != b
    ensures !Under(Join(d, a), Join(d, b))
  {
  }

  /** A bare drive takes no separator: the data directory chosen on drive D is `D:CCleaner_Backup`. */
  lemma BareDriveJoin()
    ensures Join("D:", "CCleaner_Backup") == "D:CCleaner_Backup"
  {
  }

  /** An extension is a dot followed by no other dot, at the end of the base name. */
  lemma ExtIsSuffix(p: Path)
    ensures var r := Ext(p);
            r == [] || (r[0] == '.' && EndsWith(Basename(p), r) && forall i :: 1 <= i < |r| ==> r[i] != '.')
  {
    var b := Basename(p);
    if Ext(p) != [] {
      DotTail(b, LastDot(b).value);
    }
  }

  lemma DotTail(b: Path, k: nat)
    requires k < |b| && b[k] == '.' && forall i :: k < i < |b| ==> b[i] != '.'
    ensures var r := b[k..];
            r[0] == '.' && EndsWith(b, r) && forall i :: 1 <= i < |r| ==> r[i] != '.'
  {
    var r := b[k..];
    assert b[|b| - |r|..] == r;
    forall i | 1 <= i < |r|
      ensures r[i] != '.'
    {
      assert r[i] == b[k + i];
    }
  }

  /** A name whose only dot is its first character (`.profile`) has no extension. */
  lemma LeadingDotNoExt(p: Path)
    requires |Basename(p)| > 0 && Basename(p)[0] == '.'
    requires forall i :: 1 <= i < |Basename(p)| ==> Basename(p)[i] != '.'
    ensures Ext(p) == []
  {
    var b := Basename(p);
    if LastDot(b).Some? {
      assert LastDot(b).value == 0;
    }
  }
}
