/**
 * The clean executor as specification functions: `_clean_file`, `_clean_directory`, one item
 * of `clean_selected`, and the run over all items. The engine class (module Engine) runs the
 * same steps as loops over its volume and is proved to end where these functions say.
 *
 * Deletions, copies and the recycle-bin call are decided by oracles (`Faults`): a locked path
 * cannot be removed, a copy from a listed source fails, and the recoverable delete of a listed
 * file reports failure.
 */
module CleanExecutor {
  import opened Wrappers
  import opened Text
  import opened Seqs
  import opened WinPath
  import opened Volume
  import opened PathSafety
  import opened Sorting
  import opened ScanRules
  import BackupStore

  /** Which file-system calls fail. */
  datatype Faults = Faults(
    locked: set<Path>,     // os.remove / os.rmdir / shutil.rmtree raise PermissionError
    copyFails: set<Path>,  // shutil.copy2 from this source raises
    softFails: set<Path>,  // SHFileOperationW does not move this file to the recycle bin
    mkdirDenied: bool)     // the system refuses os.makedirs for the snapshot directory

  // ---------------------------------------------------------------- _clean_file

  /** Where `_clean_file` backs a file up: the snapshot directory joined with the file's base name only. */
  function FileBackupTarget(snap: Path, f: Path): Path
  {
    Join(snap, Basename(f))
  }

  /**
   * `_clean_file(f, snap)`: the new volume and the bytes freed, `None` when it raises. A missing
   * file frees nothing; in simulate mode the size is reported and nothing changes; otherwise
   * the file is backed up (its parent directory made, then the copy; a failure of either is
   * only logged), then moved to the recycle bin, or removed outright when that fails; when the
   * outright removal fails too, it raises.
   */
  function CleanFileOf(v: Vol, f: Path, snap: Option<Path>, simulate: bool, o: Faults): (Vol, Option<nat>)
  {
    if !Exists(v, f) then (v, Some(0))
    else if simulate then (v, Some(SizeOf(v, f)))
    else
      var v1 := if snap.Some? then BackupStore.CopyWithParent(v, f, FileBackupTarget(snap.value, f), o.copyFails).0 else v;
      if f !in o.softFails || f !in o.locked then (Remove(v1, f), Some(SizeOf(v, f))) else (v1, None)
  }

  // ---------------------------------------------------------------- _clean_directory

  /** Where `_clean_directory` backs a file up: the snapshot joined with the file's path relative to the cleaned directory. */
  function DirBackupTarget(snap: Path, f: Path, d: Path): Path
    requires Under(f, d)
  {
    Join(snap, RelPath(f, d))
  }

  /**
   * One file of the walk: back it up (make the backup's parent directory, then copy; a failure
   * of either is only logged), then remove it unless it is locked; the bytes removed.
   */
  function DeleteStep(v: Vol, d: Path, f: Path, snap: Option<Path>, o: Faults): (Vol, nat)
  {
    var v1 := if snap.Some? && Under(f, d) then BackupStore.CopyWithParent(v, f, DirBackupTarget(snap.value, f, d), o.copyFails).0 else v;
    if IsFile(v1, f) && f !in o.locked then (Remove(v1, f), SizeOf(v1, f)) else (v1, 0)
  }

  /** The file phase of the walk over `files`, first to last; the volume and the bytes removed. */
  function DeleteFiles(v: Vol, d: Path, files: seq<Path>, snap: Option<Path>, o: Faults): (Vol, nat)
    decreases |files|
  {
    if files == [] then (v, 0)
    else
      var (v1, n1) := DeleteStep(v, d, files[0], snap, o);
      var (w, n) := DeleteFiles(v1, d, files[1..], snap, o);
      (w, n1 + n)
  }

  /** `not os.listdir(x)`: nothing lies below `x`. */
  predicate Empty(v: Vol, x: Path)
  {
    forall q :: q in v.nodes ==> !Under(q, x)
  }

  /** `os.rmdir(x)` when `x` is an empty directory; a locked one stays. */
  function RmDirStep(v: Vol, x: Path, locked: set<Path>): Vol
  {
    if IsDir(v, x) && Empty(v, x) && x !in locked then Remove(v, x) else v
  }

  /** The directory phase over `ds`, first to last. */
  function RemoveEmptyDirs(v: Vol, ds: seq<Path>, locked: set<Path>): Vol
    decreases |ds|
  {
    if ds == [] then v else RemoveEmptyDirs(RmDirStep(v, ds[0], locked), ds[1..], locked)
  }

  function PathLength(p: Path): int
  {
    |p|
  }

  /**
   * The subdirectories in an order a bottom-up walk respects: longest path first, so every
   * directory comes after all the directories below it.
   */
  function DeepestFirst(v: Vol, d: Path): seq<Path>
  {
    SortDesc(DirsBelow(v, d), PathLength)
  }

  /**
   * `_clean_directory(d, snap)`: the new volume and the bytes freed. A missing directory frees
   * nothing; in simulate mode its tree size is reported and nothing changes; otherwise every
   * file below it is backed up and removed, then every subdirectory left empty is removed,
   * deepest first. `d` itself is never removed.
   */
  function CleanDirectoryOf(v: Vol, d: Path, snap: Option<Path>, simulate: bool, o: Faults): (Vol, nat)
  {
    if !Exists(v, d) then (v, 0)
    else if simulate then (v, TreeSize(v, d))
    else
      var (w, n) := DeleteFiles(v, d, Files(v, d), snap, o);
      (RemoveEmptyDirs(w, DeepestFirst(v, d), o.locked), n)
  }

  // ---------------------------------------------------------------- clean_selected

  datatype Reason = UnsafePath | Raised

  /** One entry of the `errors` list. */
  datatype CleanError = CleanError(path: Path, reason: Reason)

  /** The result of `clean_selected`: the paths cleaned, the errors, and the bytes counted as freed. */
  datatype Report = Report(cleaned: seq<Path>, errors: seq<CleanError>, freed: int)

  const RecycleBin: Path := "C:\\$Recycle.Bin"

  /** `Clear-RecycleBin`: everything below the recycle bin of drive C disappears. */
  function EmptyRecycleBin(v: Vol): Vol
  {
    ClearBelow(v, RecycleBin)
  }

  /**
   * One item of the `clean_selected` loop. An unsafe path is an error and nothing is touched.
   * A recycle-bin item empties the bin and counts its scanned size; a directory or a file is
   * cleaned and counts what the cleaning reports; a file whose cleaning raises is an error;
   * anything else is in neither list. In simulate mode the scanned size is added once more,
   * for every safe item that does not raise.
   */
  function CleanItem(v: Vol, r: Report, item: Finding, snap: Option<Path>, simulate: bool, o: Faults): (Vol, Report)
  {
    var p := item.path;
    var extra := if simulate then item.size else 0;
    if !IsSafe(p) then (v, r.(errors := r.errors + [CleanError(p, UnsafePath)]))
    else if item.kind == Recycle then
      (if simulate then v else EmptyRecycleBin(v), Report(r.cleaned + [p], r.errors, r.freed + item.size + extra))
    else if IsDir(v, p) then
      var (w, n) := CleanDirectoryOf(v, p, snap, simulate, o);
      (w, Report(r.cleaned + [p], r.errors, r.freed + n + extra))
    else if IsFile(v, p) then
      var (w, n) := CleanFileOf(v, p, snap, simulate, o);
      if n.Some? then (w, Report(r.cleaned + [p], r.errors, r.freed + n.value + extra))
      else (w, r.(errors := r.errors + [CleanError(p, Raised)]))
    else (v, r.(freed := r.freed + extra))
  }

  /** The loop over the items, first to last. */
  function CleanAll(v: Vol, r: Report, items: seq<Finding>, snap: Option<Path>, simulate: bool, o: Faults): (Vol, Report)
    decreases |items|
  {
    if items == [] then (v, r)
    else
      var (v1, r1) := CleanItem(v, r, items[0], snap, simulate, o);
      CleanAll(v1, r1, items[1..], snap, simulate, o)
  }

  // ---------------------------------------------------------------- simulate mode

  /** What a simulated clean measures for an item: the scanned size of a recycle-bin item, else what is on disk. */
  function Measured(v: Vol, item: Finding): nat
  {
    if item.kind == Recycle then item.size
    else if IsDir(v, item.path) then TreeSize(v, item.path)
    else if IsFile(v, item.path) then SizeOf(v, item.path)
    else 0
  }

  /** What a simulated clean counts for an item: the measured size plus the scanned size again, for a safe path. */
  function SimulatedCharge(v: Vol): Finding -> int
  {
    (item: Finding) => if IsSafe(item.path) then Measured(v, item) + item.size else 0
  }

  function ItemSize(item: Finding): int
  {
    item.size
  }

  /**
   * In simulate mode no item changes the volume, and the freed count grows by each safe
   * item's measured size plus its scanned size.
   */
  lemma {:induction false} SimulateChangesNothing(v: Vol, r: Report, items: seq<Finding>, snap: Option<Path>, o: Faults)
    ensures CleanAll(v, r, items, snap, true, o).0 == v
    ensures CleanAll(v, r, items, snap, true, o).1.freed == r.freed + SumOf(items, SimulatedCharge(v))
    decreases |items|
  {
    if items != [] {
      var (v1, r1) := CleanItem(v, r, items[0], snap, true, o);
      assert v1 == v;
      assert r1.freed == r.freed + SimulatedCharge(v)(items[0]);
      SimulateChangesNothing(v, r1, items[1..], snap, o);
    }
  }

  lemma {:induction false} ChargeIsDouble(v: Vol, items: seq<Finding>)
    requires forall i :: 0 <= i < |items| ==> IsSafe(items[i].path) && Measured(v, items[i]) == items[i].size
    ensures SumOf(items, SimulatedCharge(v)) == 2 * SumOf(items, ItemSize)
    decreases |items|
  {
    if items != [] {
      ChargeIsDouble(v, items[1..]);
    }
  }

  /**
   * When the items are safe and their scanned sizes still match the disk, a simulated run
   * reports twice their total as freed.
   */
  lemma SimulateCountsTwice(v: Vol, items: seq<Finding>, snap: Option<Path>, o: Faults)
    requires forall i :: 0 <= i < |items| ==> IsSafe(items[i].path) && Measured(v, items[i]) == items[i].size
    ensures CleanAll(v, Report([], [], 0), items, snap, true, o).1.freed == 2 * SumOf(items, ItemSize)
  {
    SimulateChangesNothing(v, Report([], [], 0), items, snap, o);
    ChargeIsDouble(v, items);
  }

  // ---------------------------------------------------------------- bookkeeping

  /** The unsafe-path errors of a list, in order. */
  function UnsafeErrors(es: seq<CleanError>): seq<CleanError>
  {
    if es == [] then [] else (if es[0].reason == UnsafePath then [es[0]] else []) + UnsafeErrors(es[1..])
  }

  lemma {:induction false} UnsafeErrorsAppend(a: seq<CleanError>, b: seq<CleanError>)
    ensures UnsafeErrors(a + b) == UnsafeErrors(a) + UnsafeErrors(b)
  {
    if a == [] {
      assert a + b == b;
    } else {
      assert (a + b)[1..] == a[1..] + b;
      UnsafeErrorsAppend(a[1..], b);
    }
  }

  /** The unsafe-path errors the items earn: one per item whose path fails the veto, in item order. */
  function VetoedItems(items: seq<Finding>): seq<CleanError>
  {
    if items == [] then []
    else (if IsSafe(items[0].path) then [] else [CleanError(items[0].path, UnsafePath)]) + VetoedItems(items[1..])
  }

  /** One item adds at most one entry, to one of the lists; an unsafe-path error exactly for a vetoed item. */
  lemma CleanItemEntries(v: Vol, r: Report, item: Finding, snap: Option<Path>, simulate: bool, o: Faults)
    ensures var r1 := CleanItem(v, r, item, snap, simulate, o).1;
            r.cleaned <= r1.cleaned && r.errors <= r1.errors
            && |r1.cleaned| + |r1.errors| <= |r.cleaned| + |r.errors| + 1
            && UnsafeErrors(r1.errors) == UnsafeErrors(r.errors) + VetoedItems([item])
  {
    var r1 := CleanItem(v, r, item, snap, simulate, o).1;
    var added := r1.errors[|r.errors|..];
    assert r1.errors == r.errors + added;
    UnsafeErrorsAppend(r.errors, added);
    assert VetoedItems([item]) == (if IsSafe(item.path) then [] else [CleanError(item.path, UnsafePath)]) + VetoedItems([]);
  }

  lemma {:induction false} VetoedItemsCons(items: seq<Finding>)
    requires items != []
    ensures VetoedItems(items) == VetoedItems([items[0]]) + VetoedItems(items[1..])
  {
    assert VetoedItems([items[0]]) == (if IsSafe(items[0].path) then [] else [CleanError(items[0].path, UnsafePath)]) + VetoedItems([]);
  }

  /**
   * The lists only grow, and each item adds at most one entry to one of them; the unsafe-path
   * errors added are exactly one per vetoed item, in item order, whatever the volume holds.
   */
  lemma {:induction false} CleanAllEntries(v: Vol, r: Report, items: seq<Finding>, snap: Option<Path>, simulate: bool, o: Faults)
    ensures var r' := CleanAll(v, r, items, snap, simulate, o).1;
            r.cleaned <= r'.cleaned && r.errors <= r'.errors
            && |r'.cleaned| + |r'.errors| <= |r.cleaned| + |r.errors| + |items|
            && UnsafeErrors(r'.errors) == UnsafeErrors(r.errors) + VetoedItems(items)
    decreases |items|
  {
    if items != [] {
      var (v1, r1) := CleanItem(v, r, items[0], snap, simulate, o);
      var r2 := CleanAll(v1, r1, items[1..], snap, simulate, o).1;
      assert CleanAll(v, r, items, snap, simulate, o).1 == r2;
      CleanItemEntries(v, r, items[0], snap, simulate, o);
      CleanAllEntries(v1, r1, items[1..], snap, simulate, o);
      VetoedItemsCons(items);
      var a, b, c := UnsafeErrors(r.errors), VetoedItems([items[0]]), VetoedItems(items[1..]);
      assert UnsafeErrors(r2.errors) == (a + b) + c;
      assert (a + b) + c == a + (b + c);
    }
  }

  /** An item whose path fails the veto earns one error and leaves the volume and the other lists alone. */
  lemma UnsafeItemUntouched(v: Vol, r: Report, item: Finding, snap: Option<Path>, simulate: bool, o: Faults)
    requires !IsSafe(item.path)
    ensures CleanItem(v, r, item, snap, simulate, o)
            == (v, Report(r.cleaned, r.errors + [CleanError(item.path, UnsafePath)], r.freed))
  {
  }

  /** A safe item that is neither a recycle-bin entry, a directory nor a file lands in neither list. */
  lemma VanishedItemInNoList(v: Vol, r: Report, item: Finding, snap: Option<Path>, simulate: bool, o: Faults)
    requires IsSafe(item.path) && item.kind != Recycle && !Exists(v, item.path)
    ensures CleanItem(v, r, item, snap, simulate, o).0 == v
    ensures CleanItem(v, r, item, snap, simulate, o).1.cleaned == r.cleaned
    ensures CleanItem(v, r, item, snap, simulate, o).1.errors == r.errors
    ensures CleanItem(v, r, item, snap, simulate, o).1.freed == r.freed + (if simulate then item.size else 0)
  {
  }

  // ---------------------------------------------------------------- _clean_file

  /**
   * A real clean of a file: it raises exactly when both the recoverable and the outright
   * delete fail, and then the file stays; otherwise the file is gone and its size is freed.
   */
  lemma CleanFileOutcome(v: Vol, f: Path, snap: Option<Path>, o: Faults)
    requires IsFile(v, f)
    ensures var (w, n) := CleanFileOf(v, f, snap, false, o);
            (n.None? <==> f in o.softFails && f in o.locked)
            && (n.Some? ==> n.value == SizeOf(v, f) && !Exists(w, f))
            && (n.None? ==> IsFile(w, f))
  {
  }

  /**
   * Backups of files go by base name: two files of the same name from different directories
   * are backed up to the same path, and the second copy overwrites the first.
   */
  lemma FileBackupsCollide(v: Vol, snap: Path, f: Path, g: Path, o: Faults)
    requires IsFile(v, f) && IsFile(v, g) && f != g && Basename(f) == Basename(g)
    requires f !in o.copyFails && g !in o.copyFails && f !in o.softFails && g !in o.softFails
    requires FileBackupTarget(snap, f) != f && FileBackupTarget(snap, f) != g
    requires !IsDir(v, FileBackupTarget(snap, f)) && IsDir(v, Dirname(FileBackupTarget(snap, f)))
    ensures FileBackupTarget(snap, f) == FileBackupTarget(snap, g)
    ensures var v1 := CleanFileOf(v, f, Some(snap), false, o).0;
            var v2 := CleanFileOf(v1, g, Some(snap), false, o).0;
            FileBackupTarget(snap, f) in v2.nodes && v2.nodes[FileBackupTarget(snap, f)] == v.nodes[g]
  {
    var t := FileBackupTarget(snap, f);
    BackupStore.CopyWithParentFacts(v, f, t, o.copyFails);
    var v1 := CleanFileOf(v, f, Some(snap), false, o).0;
    assert v1.nodes == v.nodes[t := v.nodes[f]] - {f};
    assert IsFile(v1, g) && v1.nodes[g] == v.nodes[g];
    assert IsDir(v1, Dirname(t)) && !IsDir(v1, t);
    BackupStore.CopyWithParentFacts(v1, g, t, o.copyFails);
  }

  // ---------------------------------------------------------------- _clean_directory

  /** Where `_clean_directory` ends up writing the backup of `f`: its target, or inside it when the target is a directory. */
  function DirDest(v: Vol, f: Path, d: Path, snap: Path): Path
    requires Under(f, d)
  {
    BackupStore.CopyDest(v, f, DirBackupTarget(snap, f, d))
  }

  /**
   * The backup copy of `f` goes through: no file is in the way of its target's parent
   * directory, `f` is a file the oracle lets through, and its destination is no directory.
   */
  predicate BackedUp(v: Vol, f: Path, d: Path, snap: Path, o: Faults)
    requires Under(f, d)
  {
    !MakeDirsFails(v, Dirname(DirBackupTarget(snap, f, d)), false)
    && IsFile(v, f) && f !in o.copyFails && !IsDir(v, DirDest(v, f, d, snap))
  }

  /**
   * No backup destination of a listed file is, or lies above, the parent directory of another's
   * target, so one backup never stands in the way of a later one. In a real tree this holds: it
   * would take one file of `d` to lie below another.
   */
  predicate BackupParentsClear(v: Vol, d: Path, snap: Path, files: seq<Path>)
  {
    (forall f :: f in files ==> Under(f, d))
    && forall f, g :: f in files && g in files ==> !Within(Dirname(DirBackupTarget(snap, g, d)), DirDest(v, f, d, snap))
  }

  /** A backup destination lies below the snapshot, and so outside a cleaned directory apart from it. */
  lemma DirDestPlace(v: Vol, f: Path, d: Path, snap: Path)
    requires Under(f, d)
    ensures Under(DirDest(v, f, d, snap), snap)
    ensures Apart(snap, d) ==> !Within(DirDest(v, f, d, snap), d)
  {
    JoinUnder(snap, RelPath(f, d));
    ExtendsUnder(DirDest(v, f, d, snap), DirBackupTarget(snap, f, d), snap);
    if Apart(snap, d) {
      ApartOutside(DirDest(v, f, d, snap), snap, d);
    }
  }

  /** A file of `d` is neither the parent directory of a backup target nor above it, when the snapshot is apart from `d`. */
  lemma ParentApart(f: Path, g: Path, d: Path, snap: Path)
    requires Under(f, d) && Under(g, d) && Apart(snap, d)
    ensures !Within(Dirname(DirBackupTarget(snap, g, d)), f)
  {
    var t := DirBackupTarget(snap, g, d);
    var p := Dirname(t);
    SharedPrefixesNotApart(t, snap, d);
    StartsWithTrans(p, Prefix(f), f);
    StartsWithTrans(t, p, f);
    StartsWithTrans(t, f, Prefix(d));
  }

  /** The bytes a file phase over `files` removes: each listed file that is not locked, counted once. */
  function FreedBy(v: Vol, files: seq<Path>, locked: set<Path>): nat
  {
    if files == [] then 0
    else (if IsFile(v, files[0]) && files[0] !in locked then SizeOf(v, files[0]) else 0) + FreedBy(v, files[1..], locked)
  }

  lemma {:induction false} FreedBySame(v: Vol, w: Vol, files: seq<Path>, locked: set<Path>)
    requires forall f :: f in files ==> IsFile(v, f) == IsFile(w, f) && SizeOf(v, f) == SizeOf(w, f)
    ensures FreedBy(v, files, locked) == FreedBy(w, files, locked)
  {
    if files != [] {
      FreedBySame(v, w, files[1..], locked);
    }
  }

  /** With nothing locked, the file phase frees what a walk sums over the same files. */
  lemma {:induction false} FreedByAll(v: Vol, files: seq<Path>)
    requires forall f :: f in files ==> IsFile(v, f)
    ensures FreedBy(v, files, {}) == SumSizes(v, files)
  {
    if files != [] {
      FreedByAll(v, files[1..]);
      assert files == [files[0]] + files[1..];
      SumSizesAppend(v, [files[0]], files[1..]);
      assert SumSizes(v, [files[0]]) == SumSizes(v, []) + SizeOf(v, files[0]);
    }
  }

  /**
   * The file phase, within `d`: each listed file that is not locked is removed, nothing else
   * within `d` changes, the bytes removed are counted once each, and directories stay as
   * they are. Without a backup nothing outside `d` changes either.
   */
  lemma {:induction false} DeleteFilesInside(v: Vol, d: Path, files: seq<Path>, snap: Option<Path>, o: Faults)
    requires NoDups(files) && forall f :: f in files ==> Under(f, d)
    requires snap.Some? ==> Apart(snap.value, d)
    ensures var (w, n) := DeleteFiles(v, d, files, snap, o);
            (forall q :: Within(q, d) ==>
               (q in w.nodes <==> q in v.nodes && !(q in files && IsFile(v, q) && q !in o.locked)))
            && (forall q :: Within(q, d) && q in w.nodes ==> w.nodes[q] == v.nodes[q])
            && (forall q :: IsDir(w, q) <==> IsDir(v, q))
            && n == FreedBy(v, files, o.locked)
            && (snap.None? ==> forall q :: !Within(q, d) ==>
                  (q in w.nodes <==> q in v.nodes) && (q in w.nodes ==> w.nodes[q] == v.nodes[q]))
    decreases |files|
  {
    if files != [] {
      var f := files[0];
      var rest := files[1..];
      var v1 := DeleteStep(v, d, f, snap, o).0;
      DeleteStepInside(v, d, f, snap, o);
      NoDupsTail(files);
      DeleteFilesInside(v1, d, rest, snap, o);
      FreedBySame(v, v1, rest, o.locked);
      assert files == [f] + rest;
    }
  }

  /** One step of the file phase, within `d`: only `f` may go, and directories stay. */
  lemma DeleteStepInside(v: Vol, d: Path, f: Path, snap: Option<Path>, o: Faults)
    requires Under(f, d)
    requires snap.Some? ==> Apart(snap.value, d)
    ensures var (w, n) := DeleteStep(v, d, f, snap, o);
            (forall q :: Within(q, d) ==>
               (q in w.nodes <==> q in v.nodes && !(q == f && IsFile(v, f) && f !in o.locked)))
            && (forall q :: Within(q, d) && q in w.nodes ==> w.nodes[q] == v.nodes[q])
            && (forall q :: IsDir(w, q) <==> IsDir(v, q))
            && n == (if IsFile(v, f) && f !in o.locked then SizeOf(v, f) else 0)
            && (snap.None? ==> w.nodes == v.nodes - (if IsFile(v, f) && f !in o.locked then {f} else {}))
  {
    var v1 := if snap.Some? then BackupStore.CopyWithParent(v, f, DirBackupTarget(snap.value, f, d), o.copyFails).0 else v;
    assert (forall q :: Within(q, d) ==> (q in v1.nodes <==> q in v.nodes) && (q in v1.nodes ==> v1.nodes[q] == v.nodes[q]))
           && (forall q :: IsDir(v1, q) <==> IsDir(v, q)) by {
      if snap.Some? {
        DirDestPlace(v, f, d, snap.value);
        BackupStore.CopyWithParentFacts(v, f, DirBackupTarget(snap.value, f, d), o.copyFails);
      }
    }
    assert Within(f, d);
    assert IsFile(v1, f) == IsFile(v, f) && SizeOf(v1, f) == SizeOf(v, f);
  }

  /** One step of the file phase, outside `d`: at most the backup destination of `f` changes, and it then holds the node of `f`. */
  lemma DeleteStepOutside(v: Vol, d: Path, f: Path, snap: Path, o: Faults)
    requires Under(f, d) && Apart(snap, d)
    ensures var w := DeleteStep(v, d, f, Some(snap), o).0;
            var t := DirDest(v, f, d, snap);
            (BackedUp(v, f, d, snap, o) ==> t in w.nodes && w.nodes[t] == v.nodes[f])
            && (forall q :: !Within(q, d) && !(BackedUp(v, f, d, snap, o) && q == t) ==>
                  (q in w.nodes <==> q in v.nodes) && (q in w.nodes ==> w.nodes[q] == v.nodes[q]))
  {
    DirDestPlace(v, f, d, snap);
    BackupStore.CopyWithParentFacts(v, f, DirBackupTarget(snap, f, d), o.copyFails);
  }

  /** `q` is where the backup copy of some listed file goes through to. */
  predicate BackedUpTo(v: Vol, d: Path, snap: Path, files: seq<Path>, o: Faults, q: Path)
    requires forall f :: f in files ==> Under(f, d)
  {
    exists f :: f in files && BackedUp(v, f, d, snap, o) && q == DirDest(v, f, d, snap)
  }

  /** `t` holds, in `w`, the node `v` gave a listed file whose backup copy goes through to `t`. */
  predicate BackupLandsAt(v: Vol, w: Vol, d: Path, snap: Path, files: seq<Path>, o: Faults, t: Path)
    requires forall f :: f in files ==> Under(f, d)
  {
    t in w.nodes
    && exists g :: g in files && BackedUp(v, g, d, snap, o) && DirDest(v, g, d, snap) == t && w.nodes[t] == v.nodes[g]
  }

  /** The first step of the file phase leaves the later files, their destinations and their fate as they were. */
  lemma BackupStep(v: Vol, d: Path, files: seq<Path>, snap: Path, o: Faults)
    requires files != [] && NoDups(files) && BackupParentsClear(v, d, snap, files) && Apart(snap, d)
    ensures var v1 := DeleteStep(v, d, files[0], Some(snap), o).0;
            NoDups(files[1..]) && files[0] !in files[1..]
            && (forall g :: g in files[1..] ==>
                  IsFile(v1, g) == IsFile(v, g) && (IsFile(v, g) ==> v1.nodes[g] == v.nodes[g])
                  && DirDest(v1, g, d, snap) == DirDest(v, g, d, snap)
                  && (BackedUp(v1, g, d, snap, o) <==> BackedUp(v, g, d, snap, o)))
            && BackupParentsClear(v1, d, snap, files[1..])
  {
    var f := files[0];
    var rest := files[1..];
    var v1 := DeleteStep(v, d, f, Some(snap), o).0;
    DeleteStepInside(v, d, f, Some(snap), o);
    NoDupsTail(files);
    forall g | g in rest
      ensures IsFile(v1, g) == IsFile(v, g) && (IsFile(v, g) ==> v1.nodes[g] == v.nodes[g])
      ensures DirDest(v1, g, d, snap) == DirDest(v, g, d, snap)
      ensures MakeDirsFails(v1, Dirname(DirBackupTarget(snap, g, d)), false) == MakeDirsFails(v, Dirname(DirBackupTarget(snap, g, d)), false)
    {
      assert Within(g, d) && g in files;
      assert IsDir(v1, DirBackupTarget(snap, g, d)) == IsDir(v, DirBackupTarget(snap, g, d));
      BackupStepParent(v, d, f, g, snap, o);
    }
  }

  /** One step of the file phase changes nothing but `f` and the backup destination of `f`, and no directory. */
  lemma DeleteStepChanges(v: Vol, d: Path, f: Path, snap: Path, o: Faults)
    requires Under(f, d) && Apart(snap, d)
    ensures var v1 := DeleteStep(v, d, f, Some(snap), o).0;
            (forall q :: q != DirDest(v, f, d, snap) && q != f ==>
               (q in v1.nodes <==> q in v.nodes) && (q in v1.nodes ==> v1.nodes[q] == v.nodes[q]))
            && (forall x :: IsDir(v1, x) <==> IsDir(v, x))
  {
    DeleteStepInside(v, d, f, Some(snap), o);
    DeleteStepOutside(v, d, f, snap, o);
  }

  /** The first step of the file phase puts no file in the way of a later backup's parent directory, nor takes one away. */
  lemma BackupStepParent(v: Vol, d: Path, f: Path, g: Path, snap: Path, o: Faults)
    requires Under(f, d) && Under(g, d) && Apart(snap, d)
    requires !Within(Dirname(DirBackupTarget(snap, g, d)), DirDest(v, f, d, snap))
    ensures var v1 := DeleteStep(v, d, f, Some(snap), o).0;
            var p := Dirname(DirBackupTarget(snap, g, d));
            MakeDirsFails(v1, p, false) == MakeDirsFails(v, p, false)
  {
    var v1 := DeleteStep(v, d, f, Some(snap), o).0;
    var p := Dirname(DirBackupTarget(snap, g, d));
    DeleteStepChanges(v, d, f, snap, o);
    ParentApart(f, g, d, snap);
    FileInTheWayKept(v, v1, p, {DirDest(v, f, d, snap), f});
  }

  /** With a snapshot apart from `d`, outside `d` a path no backup copy goes through to keeps its node. */
  lemma {:induction false} DeleteFilesKeeps(v: Vol, d: Path, files: seq<Path>, snap: Path, o: Faults)
    requires NoDups(files) && BackupParentsClear(v, d, snap, files) && Apart(snap, d)
    ensures var w := DeleteFiles(v, d, files, Some(snap), o).0;
            forall q :: !Within(q, d) && !BackedUpTo(v, d, snap, files, o, q) ==>
              (q in w.nodes <==> q in v.nodes) && (q in w.nodes ==> w.nodes[q] == v.nodes[q])
    decreases |files|
  {
    if files != [] {
      var f := files[0];
      var rest := files[1..];
      var v1 := DeleteStep(v, d, f, Some(snap), o).0;
      BackupStep(v, d, files, snap, o);
      DeleteStepOutside(v, d, f, snap, o);
      DeleteFilesKeeps(v1, d, rest, snap, o);
      forall q | !Within(q, d) && !BackedUpTo(v, d, snap, files, o, q)
        ensures !BackedUpTo(v1, d, snap, rest, o, q)
        ensures (q in v1.nodes <==> q in v.nodes) && (q in v1.nodes ==> v1.nodes[q] == v.nodes[q])
      {
        assert BackedUp(v, f, d, snap, o) ==> q != DirDest(v, f, d, snap);
      }
    }
  }

  /** With a snapshot apart from `d`, nothing appears outside `d` but where a backup copy goes through to. */
  lemma {:induction false} DeleteFilesAdds(v: Vol, d: Path, files: seq<Path>, snap: Path, o: Faults)
    requires NoDups(files) && BackupParentsClear(v, d, snap, files) && Apart(snap, d)
    ensures var w := DeleteFiles(v, d, files, Some(snap), o).0;
            forall q :: !Within(q, d) && q in w.nodes ==> q in v.nodes || BackedUpTo(v, d, snap, files, o, q)
    decreases |files|
  {
    if files != [] {
      var f := files[0];
      var rest := files[1..];
      var v1 := DeleteStep(v, d, f, Some(snap), o).0;
      BackupStep(v, d, files, snap, o);
      DeleteStepOutside(v, d, f, snap, o);
      DeleteFilesAdds(v1, d, rest, snap, o);
      var w := DeleteFiles(v1, d, rest, Some(snap), o).0;
      assert w == DeleteFiles(v, d, files, Some(snap), o).0;
      forall q | !Within(q, d) && q in w.nodes
        ensures q in v.nodes || BackedUpTo(v, d, snap, files, o, q)
      {
        if BackedUpTo(v1, d, snap, rest, o, q) {
          var g :| g in rest && BackedUp(v1, g, d, snap, o) && q == DirDest(v1, g, d, snap);
          assert g in files;
        } else if q !in v.nodes {
          assert q == DirDest(v, f, d, snap);
        }
      }
    }
  }

  /** What lands from the later files after the first step lands from the whole list. */
  lemma BackupLandsStep(v: Vol, w: Vol, d: Path, files: seq<Path>, snap: Path, o: Faults, t: Path)
    requires files != [] && NoDups(files) && BackupParentsClear(v, d, snap, files) && Apart(snap, d)
    requires BackupLandsAt(DeleteStep(v, d, files[0], Some(snap), o).0, w, d, snap, files[1..], o, t)
    ensures BackupLandsAt(v, w, d, snap, files, o, t)
  {
    BackupStep(v, d, files, snap, o);
    var v1 := DeleteStep(v, d, files[0], Some(snap), o).0;
    var g :| g in files[1..] && BackedUp(v1, g, d, snap, o) && DirDest(v1, g, d, snap) == t && w.nodes[t] == v1.nodes[g];
    assert g in files;
  }

  /**
   * With a snapshot apart from `d`, each listed file whose backup copy goes through leaves its
   * destination holding the node of a listed file copied there.
   */
  lemma {:induction false} DeleteFilesBacksUp(v: Vol, d: Path, files: seq<Path>, snap: Path, o: Faults)
    requires NoDups(files) && BackupParentsClear(v, d, snap, files) && Apart(snap, d)
    ensures var w := DeleteFiles(v, d, files, Some(snap), o).0;
            forall f :: f in files && BackedUp(v, f, d, snap, o) ==> BackupLandsAt(v, w, d, snap, files, o, DirDest(v, f, d, snap))
    decreases |files|
  {
    if files != [] {
      var f := files[0];
      var rest := files[1..];
      var v1 := DeleteStep(v, d, f, Some(snap), o).0;
      BackupStep(v, d, files, snap, o);
      DeleteStepOutside(v, d, f, snap, o);
      DirDestPlace(v, f, d, snap);
      DeleteFilesBacksUp(v1, d, rest, snap, o);
      DeleteFilesKeeps(v1, d, rest, snap, o);
      var w := DeleteFiles(v1, d, rest, Some(snap), o).0;
      assert w == DeleteFiles(v, d, files, Some(snap), o).0;
      forall f' | f' in files && BackedUp(v, f', d, snap, o)
        ensures BackupLandsAt(v, w, d, snap, files, o, DirDest(v, f', d, snap))
      {
        var t' := DirDest(v, f', d, snap);
        if BackedUpTo(v1, d, snap, rest, o, t') {
          var g :| g in rest && BackedUp(v1, g, d, snap, o) && t' == DirDest(v1, g, d, snap);
          BackupLandsStep(v, w, d, files, snap, o, t');
        } else {
          assert f' == f;
        }
      }
    }
  }

  /** With no directory at either target, two files of `d` have different backup destinations. */
  lemma PlainDirTargetsDistinct(v: Vol, d: Path, snap: Path, f: Path, g: Path)
    requires Under(f, d) && Under(g, d) && f != g
    requires !IsDir(v, DirBackupTarget(snap, f, d)) && !IsDir(v, DirBackupTarget(snap, g, d))
    ensures DirDest(v, f, d, snap) != DirDest(v, g, d, snap)
  {
    assert g == Join(d, RelPath(g, d)) && f == Join(d, RelPath(f, d));
    var n := |Prefix(snap)|;
    assert DirBackupTarget(snap, g, d)[n..] == RelPath(g, d) && DirBackupTarget(snap, f, d)[n..] == RelPath(f, d);
  }

  /** A path below `x` is longer than `x`. */
  lemma UnderLonger(r: Path, x: Path)
    requires Under(r, x)
    ensures |r| > |x|
  {
  }

  /**
   * The directory phase, deepest first: only listed directories disappear, and a listed
   * directory is left exactly when it is locked or something is left below it.
   */
  lemma {:induction false} RemoveEmptyDirsEffect(v: Vol, ds: seq<Path>, locked: set<Path>)
    requires NoDups(ds) && SortedDesc(ds, PathLength)
    ensures var u := RemoveEmptyDirs(v, ds, locked);
            (forall q :: q in u.nodes ==> q in v.nodes && u.nodes[q] == v.nodes[q])
            && (forall q :: q in v.nodes && (q !in ds || !IsDir(v, q)) ==> q in u.nodes)
            && (forall q :: q in ds && IsDir(v, q) ==>
                  (q in u.nodes <==> q in locked || exists r :: r in u.nodes && Under(r, q)))
    decreases |ds|
  {
    if ds != [] {
      var x := ds[0];
      var rest := ds[1..];
      var v1 := RmDirStep(v, x, locked);
      NoDupsTail(ds);
      assert SortedDesc(rest, PathLength) by {
        forall i, j | 0 <= i < j < |rest| ensures PathLength(rest[i]) >= PathLength(rest[j]) {
          assert rest[i] == ds[i + 1] && rest[j] == ds[j + 1];
        }
      }
      assert x !in rest;
      RemoveEmptyDirsEffect(v1, rest, locked);
      var u := RemoveEmptyDirs(v, ds, locked);
      assert u == RemoveEmptyDirs(v1, rest, locked);
      forall r | Under(r, x)
        ensures r !in rest
      {
        UnderLonger(r, x);
      }
      if IsDir(v, x) {
        if x in u.nodes {
          assert x in v1.nodes;
          if x !in locked {
            assert !Empty(v, x);
            var r :| r in v.nodes && Under(r, x);
            UnderIrreflexive(x);
            assert r in v1.nodes;
            assert r in u.nodes;
          }
        } else {
          assert x !in locked;
          forall r | r in u.nodes ensures !Under(r, x) {
            assert r in v1.nodes;
          }
        }
      }
      forall q | q in v.nodes && (q !in ds || !IsDir(v, q))
        ensures q in u.nodes
      {
        assert q in v1.nodes;
        if q in rest {
          assert !IsDir(v1, q);
        }
      }
      forall q | q in rest && IsDir(v, q)
        ensures IsDir(v1, q)
      {
      }
    }
  }

  /** The subdirectories of `d` in deepest-first order are each listed once and are all of them. */
  lemma DeepestFirstFacts(v: Vol, d: Path)
    requires Valid(v)
    ensures NoDups(DeepestFirst(v, d)) && SortedDesc(DeepestFirst(v, d), PathLength)
    ensures forall q :: q in DeepestFirst(v, d) <==> IsDir(v, q) && Under(q, d)
  {
    var ds := DirsBelow(v, d);
    FilterNoDups(v.order, p => IsDir(v, p) && Under(p, d));
    SortDescFacts(ds, PathLength);
    var s := SortDesc(ds, PathLength);
    BackupStore.NoDupsMultiset(ds);
    BackupStore.NoDupsMultiset(s);
    forall q
      ensures q in s <==> q in ds
    {
      assert q in s <==> q in multiset(s);
      assert q in ds <==> q in multiset(ds);
    }
  }

  /**
   * A real clean of directory `d`: `d` itself stays; a file below it is left exactly when it
   * is locked; a subdirectory is left exactly when it is locked or something is left below
   * it; nothing left below `d` changes; the bytes freed are the sizes of the files removed.
   * Without a backup nothing outside `d` changes.
   */
  lemma CleanDirectoryEffect(v: Vol, d: Path, snap: Option<Path>, o: Faults)
    requires Valid(v) && IsDir(v, d)
    requires snap.Some? ==> Apart(snap.value, d)
    ensures var (w, n) := CleanDirectoryOf(v, d, snap, false, o);
            d in w.nodes && w.nodes[d] == v.nodes[d]
            && (forall q :: Under(q, d) && IsFile(v, q) ==> (q in w.nodes <==> q in o.locked))
            && (forall q :: Under(q, d) && IsDir(v, q) ==>
                  (q in w.nodes <==> q in o.locked || exists r :: r in w.nodes && Under(r, q)))
            && (forall q :: Under(q, d) && q in w.nodes ==> q in v.nodes && w.nodes[q] == v.nodes[q])
            && n == FreedBy(v, Files(v, d), o.locked)
            && (snap.None? ==> forall q :: !Within(q, d) ==>
                  (q in w.nodes <==> q in v.nodes) && (q in w.nodes ==> w.nodes[q] == v.nodes[q]))
  {
    var files := Files(v, d);
    FilesNoDups(v, d);
    DeleteFilesInside(v, d, files, snap, o);
    var (w0, n) := DeleteFiles(v, d, files, snap, o);
    var ds := DeepestFirst(v, d);
    DeepestFirstFacts(v, d);
    RemoveEmptyDirsEffect(w0, ds, o.locked);
    var w := RemoveEmptyDirs(w0, ds, o.locked);
    UnderIrreflexive(d);
    assert d !in ds;
    forall q | Under(q, d) && IsFile(v, q)
      ensures q in w.nodes <==> q in o.locked
    {
      assert q in files;
      assert !IsDir(w0, q);
    }
  }

  /**
   * With nothing locked, a real clean of `d` frees exactly the size a scan measures for it,
   * and leaves no file below it.
   */
  lemma CleanDirectoryUnlocked(v: Vol, d: Path, snap: Option<Path>, o: Faults)
    requires Valid(v) && IsDir(v, d) && o.locked == {}
    requires snap.Some? ==> Apart(snap.value, d)
    ensures CleanDirectoryOf(v, d, snap, false, o).1 == TreeSize(v, d)
    ensures forall q :: Under(q, d) && IsFile(v, q) ==> q !in CleanDirectoryOf(v, d, snap, false, o).0.nodes
  {
    CleanDirectoryEffect(v, d, snap, o);
    FreedByAll(v, Files(v, d));
  }

  /** The directory phase leaves everything outside `d` as the file phase left it. */
  lemma DirPhaseOutside(v: Vol, w0: Vol, d: Path, o: Faults)
    requires Valid(v)
    ensures var w := RemoveEmptyDirs(w0, DeepestFirst(v, d), o.locked);
            forall q :: !Within(q, d) ==> (q in w.nodes <==> q in w0.nodes) && (q in w.nodes ==> w.nodes[q] == w0.nodes[q])
  {
    DeepestFirstFacts(v, d);
    RemoveEmptyDirsEffect(w0, DeepestFirst(v, d), o.locked);
  }

  /**
   * With a snapshot apart from `d`, every file below `d` whose backup copy goes through is
   * found in the snapshot at its path relative to `d` (or inside the directory found there),
   * holding the node of a file of `d` copied there; outside `d` every path no backup copy goes
   * through to keeps its node, and nothing appears but at such a destination.
   */
  lemma CleanDirectoryBacksUp(v: Vol, d: Path, snap: Path, o: Faults)
    requires Valid(v) && IsDir(v, d) && Apart(snap, d) && BackupParentsClear(v, d, snap, Files(v, d))
    ensures var w := CleanDirectoryOf(v, d, Some(snap), false, o).0;
            var fs := Files(v, d);
            (forall f :: f in fs && BackedUp(v, f, d, snap, o) ==> BackupLandsAt(v, w, d, snap, fs, o, DirDest(v, f, d, snap)))
            && (forall q :: !Within(q, d) && !BackedUpTo(v, d, snap, fs, o, q) ==>
                  (q in w.nodes <==> q in v.nodes) && (q in w.nodes ==> w.nodes[q] == v.nodes[q]))
            && (forall q :: !Within(q, d) && q in w.nodes ==> q in v.nodes || BackedUpTo(v, d, snap, fs, o, q))
  {
    var fs := Files(v, d);
    FilesNoDups(v, d);
    DeleteFilesBacksUp(v, d, fs, snap, o);
    DeleteFilesKeeps(v, d, fs, snap, o);
    DeleteFilesAdds(v, d, fs, snap, o);
    var w0 := DeleteFiles(v, d, fs, Some(snap), o).0;
    DirPhaseOutside(v, w0, d, o);
    var w := RemoveEmptyDirs(w0, DeepestFirst(v, d), o.locked);
    assert w == CleanDirectoryOf(v, d, Some(snap), false, o).0;
    forall f | f in fs && BackedUp(v, f, d, snap, o)
      ensures BackupLandsAt(v, w, d, snap, fs, o, DirDest(v, f, d, snap))
    {
      DirDestPlace(v, f, d, snap);
    }
  }

  /**
   * With a snapshot apart from `d`, a file of `d` whose backup destination no other copied
   * file shares is found there with its own size and mtime; and when no target is a
   * directory, no two files share a destination.
   */
  lemma CleanDirectoryOwnBackup(v: Vol, d: Path, snap: Path, o: Faults)
    requires Valid(v) && IsDir(v, d) && Apart(snap, d) && BackupParentsClear(v, d, snap, Files(v, d))
    ensures var w := CleanDirectoryOf(v, d, Some(snap), false, o).0;
            var fs := Files(v, d);
            (forall f :: f in fs && BackedUp(v, f, d, snap, o)
                         && (forall g :: g in fs && g != f && BackedUp(v, g, d, snap, o) ==> DirDest(v, g, d, snap) != DirDest(v, f, d, snap)) ==>
               DirDest(v, f, d, snap) in w.nodes && w.nodes[DirDest(v, f, d, snap)] == v.nodes[f])
            && (forall f, g :: f in fs && g in fs && f != g
                               && !IsDir(v, DirBackupTarget(snap, f, d)) && !IsDir(v, DirBackupTarget(snap, g, d)) ==>
               DirDest(v, f, d, snap) != DirDest(v, g, d, snap))
  {
    var fs := Files(v, d);
    var w := CleanDirectoryOf(v, d, Some(snap), false, o).0;
    CleanDirectoryBacksUp(v, d, snap, o);
    forall f, g | f in fs && g in fs && f != g
                  && !IsDir(v, DirBackupTarget(snap, f, d)) && !IsDir(v, DirBackupTarget(snap, g, d))
      ensures DirDest(v, f, d, snap) != DirDest(v, g, d, snap)
    {
      PlainDirTargetsDistinct(v, d, snap, f, g);
    }
    forall f | f in fs && BackedUp(v, f, d, snap, o)
               && (forall g :: g in fs && g != f && BackedUp(v, g, d, snap, o) ==> DirDest(v, g, d, snap) != DirDest(v, f, d, snap))
      ensures DirDest(v, f, d, snap) in w.nodes && w.nodes[DirDest(v, f, d, snap)] == v.nodes[f]
    {
      var t := DirDest(v, f, d, snap);
      var g :| g in fs && BackedUp(v, g, d, snap, o) && DirDest(v, g, d, snap) == t && w.nodes[t] == v.nodes[g];
    }
  }

  /**
   * A file already standing where a backup's parent directory must go (an earlier item's
   * backup `snap\foo`, when this directory holds `foo\bar`): `os.makedirs` raises, that backup
   * is skipped, and the file in the way keeps its node.
   */
  lemma CleanDirectoryBlockedParent(v: Vol, d: Path, snap: Path, o: Faults, f: Path)
    requires Valid(v) && IsDir(v, d) && Apart(snap, d) && BackupParentsClear(v, d, snap, Files(v, d))
    requires f in Files(v, d) && IsFile(v, Dirname(DirBackupTarget(snap, f, d)))
    ensures !BackedUp(v, f, d, snap, o)
    ensures var p := Dirname(DirBackupTarget(snap, f, d));
            var w := CleanDirectoryOf(v, d, Some(snap), false, o).0;
            p in w.nodes && w.nodes[p] == v.nodes[p]
  {
    var fs := Files(v, d);
    var t := DirBackupTarget(snap, f, d);
    var p := Dirname(t);
    assert FileInTheWay(v, p) by {
      assert p in v.nodes && v.nodes[p].File? && p == p;
    }
    assert !Within(p, d) by {
      SharedPrefixesNotApart(t, snap, d);
      StartsWithTrans(t, p, Prefix(d));
    }
    CleanDirectoryBacksUp(v, d, snap, o);
    assert !BackedUpTo(v, d, snap, fs, o, p) by {
      forall g | g in fs
        ensures p != DirDest(v, g, d, snap)
      {
        assert !Within(p, DirDest(v, g, d, snap));
      }
    }
  }

  /** One step of the file phase with the snapshot below `d`: away from the snapshot, only `f` may go. */
  lemma DeleteStepNested(v: Vol, d: Path, f: Path, snap: Path, o: Faults)
    requires Under(f, d) && !Within(f, snap)
    ensures var (w, n) := DeleteStep(v, d, f, Some(snap), o);
            (forall q :: !Under(q, snap) ==>
               (q in w.nodes <==> q in v.nodes && !(q == f && IsFile(v, f) && f !in o.locked))
               && (q in w.nodes ==> w.nodes[q] == v.nodes[q]))
            && (forall q :: IsDir(w, q) <==> IsDir(v, q))
            && n == (if IsFile(v, f) && f !in o.locked then SizeOf(v, f) else 0)
  {
    var v1 := BackupStore.CopyWithParent(v, f, DirBackupTarget(snap, f, d), o.copyFails).0;
    assert (forall q :: !Under(q, snap) ==> (q in v1.nodes <==> q in v.nodes) && (q in v1.nodes ==> v1.nodes[q] == v.nodes[q]))
           && (forall q :: IsDir(v1, q) <==> IsDir(v, q)) by {
      DirDestPlace(v, f, d, snap);
      BackupStore.CopyWithParentFacts(v, f, DirBackupTarget(snap, f, d), o.copyFails);
    }
    assert IsFile(v1, f) == IsFile(v, f) && SizeOf(v1, f) == SizeOf(v, f);
    assert DeleteStep(v, d, f, Some(snap), o) == if IsFile(v1, f) && f !in o.locked then (Remove(v1, f), SizeOf(v1, f)) else (v1, 0);
  }

  /** The file phase with the snapshot below `d`: away from the snapshot, exactly the unlocked listed files go. */
  lemma {:induction false} DeleteFilesNested(v: Vol, d: Path, files: seq<Path>, snap: Path, o: Faults)
    requires NoDups(files) && forall f :: f in files ==> Under(f, d) && !Within(f, snap)
    ensures var (w, n) := DeleteFiles(v, d, files, Some(snap), o);
            (forall q :: !Under(q, snap) ==>
               (q in w.nodes <==> q in v.nodes && !(q in files && IsFile(v, q) && q !in o.locked))
               && (q in w.nodes ==> w.nodes[q] == v.nodes[q]))
            && (forall q :: IsDir(w, q) <==> IsDir(v, q))
            && n == FreedBy(v, files, o.locked)
    decreases |files|
  {
    if files != [] {
      var f := files[0];
      var rest := files[1..];
      var v1 := DeleteStep(v, d, f, Some(snap), o).0;
      DeleteStepNested(v, d, f, snap, o);
      NoDupsTail(files);
      DeleteFilesNested(v1, d, rest, snap, o);
      FreedBySame(v, v1, rest, o.locked);
      assert forall q :: q in files <==> q == f || q in rest by {
        assert files == [f] + rest;
      }
    }
  }

  /**
   * A real clean of `d` that holds the fresh snapshot (the default case of a backup
   * directory in the temp folder while the temp folder is cleaned): `d` stays, every
   * file below it that is not locked is gone, the bytes freed are those of the files the
   * walk removes, and nothing outside `d` changes.
   */
  lemma CleanDirectoryAroundSnapshot(v: Vol, d: Path, snap: Path, o: Faults)
    requires Valid(v) && IsDir(v, d) && IsDir(v, snap) && Under(snap, d)
    requires forall q :: q in v.nodes ==> !Under(q, snap)
    ensures var (w, n) := CleanDirectoryOf(v, d, Some(snap), false, o);
            d in w.nodes && w.nodes[d] == v.nodes[d]
            && (forall q :: Under(q, d) && IsFile(v, q) && q !in o.locked ==> q !in w.nodes)
            && n == FreedBy(v, Files(v, d), o.locked)
            && (forall q :: !Within(q, d) ==> (q in w.nodes <==> q in v.nodes) && (q in w.nodes ==> w.nodes[q] == v.nodes[q]))
  {
    var files := Files(v, d);
    FilesNoDups(v, d);
    forall f | f in files
      ensures Under(f, d) && !Within(f, snap)
    {
    }
    DeleteFilesNested(v, d, files, snap, o);
    var (w0, n) := DeleteFiles(v, d, files, Some(snap), o);
    var ds := DeepestFirst(v, d);
    DeepestFirstFacts(v, d);
    RemoveEmptyDirsEffect(w0, ds, o.locked);
    var w := RemoveEmptyDirs(w0, ds, o.locked);
    UnderIrreflexive(d);
    assert d !in ds;
    assert !Under(d, snap) by {
      if Under(d, snap) {
        UnderTrans(d, snap, d);
      }
    }
    forall q | !Within(q, d)
      ensures !Under(q, snap)
    {
      if Under(q, snap) {
        UnderTrans(q, snap, d);
      }
    }
    forall q | Under(q, d) && IsFile(v, q) && q !in o.locked
      ensures q !in w.nodes
    {
      assert q in files;
    }
  }

  /**
   * Only the item's own path is vetted: cleaning `C:\` removes an unlocked file below
   * `C:\Windows\System32`, although that file's own path fails the veto.
   */
  lemma DirectoryItemVetoIsShallow(v: Vol, p: Path, o: Faults)
    requires Valid(v) && IsDir(v, "C:\\") && IsFile(v, p) && Under(p, "C:\\Windows\\System32") && p !in o.locked
    ensures IsSafe("C:\\") && !IsSafe(p)
    ensures p !in CleanItem(v, Report([], [], 0), Finding("C:\\", 0, Temp, None, None, None, None), None, false, o).0.nodes
  {
    DriveRootSafe();
    BelowRootRefused(p, 0);
    System32BelowDriveRoot(p);
    CleanDirectoryEffect(v, "C:\\", None, o);
  }
}
