/**
 * The cleaning engine (`CleanerLogic`): its state, the backup directory it picks at start-up,
 * option handling, the backup-store operations and `clean_selected`. Each method of the class
 * runs the engine's loops over its own volume and is proved to end where the specification
 * functions of modules BackupStore, CleanExecutor and this module say.
 */
module Engine {
  import opened Wrappers
  import opened Text
  import opened WinPath
  import opened Volume
  import opened PathSafety
  import opened Clock
  import opened Sorting
  import opened Options
  import opened ScanRules
  import opened BackupStore
  import opened CleanExecutor
  import RuleTable

  // ---------------------------------------------------------------- start-up

  /** The drive name of letter number `i` (0 is `A:`). */
  function DriveName(i: nat): Path
    requires i < 26
  {
    [(65 + i) as char, ':']
  }

  /** Bit `k` of `mask`. */
  predicate Bit(mask: nat, k: nat)
  {
    if k == 0 then mask % 2 == 1 else Bit(mask / 2, k - 1)
  }

  /** The drives of letters `i` to `Z` whose bits are set, when `mask` holds the bits from letter `i` on. */
  function DrivesFrom(mask: nat, i: nat): seq<Path>
    requires i <= 26
    decreases 26 - i
  {
    if i == 26 then []
    else (if mask % 2 == 1 then [DriveName(i)] else []) + DrivesFrom(mask / 2, i + 1)
  }

  /** The drives a `GetLogicalDrives` bitmask names, `A:` first. */
  function DrivesOf(mask: nat): seq<Path>
  {
    DrivesFrom(mask, 0)
  }

  /** The bitmask loop: one drive per set bit, in letter order. */
  method DecodeDrives(mask: nat) returns (drives: seq<Path>)
    ensures drives == DrivesOf(mask)
  {
    drives := [];
    var m := mask;
    var i := 0;
    while i < 26
      invariant 0 <= i <= 26
      invariant drives + DrivesFrom(m, i) == DrivesOf(mask)
    {
      var head := if m % 2 == 1 then [DriveName(i)] else [];
      DrivesFromStep(drives, m, i);
      drives := drives + head;
      m := m / 2;
      i := i + 1;
    }
    assert DrivesFrom(m, i) == [];
    assert drives + [] == drives;
  }

  /** One more letter of the loop: its drive, when its bit is set, moves from the rest to the list. */
  lemma {:induction false} DrivesFromStep(drives: seq<Path>, m: nat, i: nat)
    requires i < 26
    ensures var head := if m % 2 == 1 then [DriveName(i)] else [];
            drives + DrivesFrom(m, i) == (drives + head) + DrivesFrom(m / 2, i + 1)
  {
    var head := if m % 2 == 1 then [DriveName(i)] else [];
    var rest := DrivesFrom(m / 2, i + 1);
    assert DrivesFrom(m, i) == head + rest;
    AppendAssoc(drives, head, rest);
  }

  lemma AppendAssoc<T>(a: seq<T>, b: seq<T>, c: seq<T>)
    ensures a + (b + c) == (a + b) + c
  {
  }

  lemma {:induction false} DrivesFromListed(m: nat, i: nat, k: nat)
    requires i <= k < 26
    ensures DriveName(k) in DrivesFrom(m, i) <==> Bit(m, k - i)
    decreases 26 - i
  {
    var head := if m % 2 == 1 then [DriveName(i)] else [];
    var rest := DrivesFrom(m / 2, i + 1);
    assert DrivesFrom(m, i) == head + rest;
    assert LetterOf(DriveName(k)) == k;
    if k == i {
      DrivesFromNames(m / 2, i + 1);
      assert DriveName(k) !in rest;
    } else {
      assert LetterOf(DriveName(i)) == i;
      assert DriveName(k) !in head;
      DrivesFromListed(m / 2, i + 1, k);
    }
  }

  /** The letter number of a drive name (0 for `A:`). */
  function LetterOf(p: Path): int
    requires p != []
  {
    p[0] as int - 65
  }

  /** Every listed drive is the name of a letter from `i` on. */
  lemma {:induction false} DrivesFromNames(m: nat, i: nat)
    requires i <= 26
    ensures forall x :: x in DrivesFrom(m, i) ==> x != [] && i <= LetterOf(x) < 26 && x == DriveName(LetterOf(x))
    decreases 26 - i
  {
    if i < 26 {
      DrivesFromNames(m / 2, i + 1);
      assert LetterOf(DriveName(i)) == i;
    }
  }

  /** Drive `k` is listed exactly when bit `k` of the mask is set. */
  lemma DriveListed(mask: nat, k: nat)
    requires k < 26
    ensures DriveName(k) in DrivesOf(mask) <==> Bit(mask, k)
  {
    DrivesFromListed(mask, 0, k);
  }

  /** The first listed drive other than `C:` that exists. */
  function FirstOtherDrive(drives: seq<Path>, v: Vol): Option<Path>
  {
    if drives == [] then None
    else if drives[0] != "C:" && Exists(v, drives[0]) then Some(drives[0])
    else FirstOtherDrive(drives[1..], v)
  }

  /** The chosen drive is listed, is not `C:` and exists, and no listed drive before it qualifies. */
  lemma {:induction false} FirstOtherDriveFacts(drives: seq<Path>, v: Vol)
    ensures var r := FirstOtherDrive(drives, v);
            (r.None? <==> forall i :: 0 <= i < |drives| ==> drives[i] == "C:" || !Exists(v, drives[i]))
            && (r.Some? ==> exists k :: 0 <= k < |drives| && drives[k] == r.value && r.value != "C:" && Exists(v, r.value)
                                        && forall i :: 0 <= i < k ==> drives[i] == "C:" || !Exists(v, drives[i]))
  {
    if drives != [] && !(drives[0] != "C:" && Exists(v, drives[0])) {
      var rest := drives[1..];
      FirstOtherDriveFacts(rest, v);
      var r := FirstOtherDrive(drives, v);
      if r.Some? {
        var k :| 0 <= k < |rest| && rest[k] == r.value && r.value != "C:" && Exists(v, r.value)
                 && forall i :: 0 <= i < k ==> rest[i] == "C:" || !Exists(v, rest[i]);
        assert drives[k + 1] == r.value;
        forall i | 0 <= i < k + 1 ensures drives[i] == "C:" || !Exists(v, drives[i]) {
          if i > 0 {
            assert drives[i] == rest[i - 1];
          }
        }
      } else {
        forall i | 0 <= i < |drives| ensures drives[i] == "C:" || !Exists(v, drives[i]) {
          if i > 0 {
            assert drives[i] == rest[i - 1];
          }
        }
      }
    }
  }

  const BackupFolder: string := "CCleaner_Backup"

  /**
   * The backup directory chosen at start-up: `CCleaner_Backup` on the first drive other than
   * `C:` that exists, or in the temp directory when there is none or the drive query fails
   * (`None`).
   */
  function DefaultBackupDir(bitmask: Option<nat>, tempDir: Path, v: Vol): Path
  {
    var fallback := Join(tempDir, BackupFolder);
    match bitmask
    case None => fallback
    case Some(mask) =>
      match FirstOtherDrive(DrivesOf(mask), v)
      case None => fallback
      case Some(drive) => Join(drive, BackupFolder)
  }

  /** The loop over the listed drives: the first one other than `C:` that exists. */
  method FindOtherDrive(drives: seq<Path>, v: Vol) returns (r: Option<Path>)
    ensures r == FirstOtherDrive(drives, v)
  {
    var i := 0;
    while i < |drives|
      invariant 0 <= i <= |drives|
      invariant FirstOtherDrive(drives[i..], v) == FirstOtherDrive(drives, v)
    {
      assert drives[i..][1..] == drives[i + 1..];
      if drives[i] != "C:" && Exists(v, drives[i]) {
        return Some(drives[i]);
      }
      i := i + 1;
    }
    return None;
  }

  /** The start-up steps: decode the bitmask, then take the first other drive that exists. */
  method ChooseBackupDir(bitmask: Option<nat>, tempDir: Path, v: Vol) returns (dir: Path)
    ensures dir == DefaultBackupDir(bitmask, tempDir, v)
  {
    dir := Join(tempDir, BackupFolder);
    if bitmask.Some? {
      var drives := DecodeDrives(bitmask.value);
      var drive := FindOtherDrive(drives, v);
      if drive.Some? {
        dir := Join(drive.value, BackupFolder);
      }
    }
  }

  /**
   * The start-up choice never lands on drive `C:` unless the temp directory is used, and a
   * drive's folder is joined drive-relative (`D:CCleaner_Backup`, without a separator).
   */
  lemma DefaultBackupDirFacts(mask: nat, tempDir: Path, v: Vol)
    ensures var dir := DefaultBackupDir(Some(mask), tempDir, v);
            dir == Join(tempDir, BackupFolder)
            || exists k :: 0 <= k < 26 && k != 2 && Bit(mask, k) && Exists(v, DriveName(k))
                           && dir == DriveName(k) + BackupFolder
  {
    var r := FirstOtherDrive(DrivesOf(mask), v);
    if r.Some? {
      ChosenDriveLetter(mask, v);
      var k := LetterOf(r.value);
      assert Prefix(DriveName(k)) == DriveName(k);
      assert DefaultBackupDir(Some(mask), tempDir, v) == DriveName(k) + BackupFolder;
    }
  }

  /** The drive picked from a bitmask is a set letter other than `C`, and it exists. */
  lemma ChosenDriveLetter(mask: nat, v: Vol)
    ensures var r := FirstOtherDrive(DrivesOf(mask), v);
            r.Some? ==> r.value != [] && 0 <= LetterOf(r.value) < 26 && LetterOf(r.value) != 2
                        && r.value == DriveName(LetterOf(r.value))
                        && Bit(mask, LetterOf(r.value)) && Exists(v, r.value)
  {
    var drives := DrivesOf(mask);
    var r := FirstOtherDrive(drives, v);
    if r.Some? {
      FirstOtherDriveIn(drives, v);
      DrivesFromNames(mask, 0);
      var k := LetterOf(r.value);
      DriveListed(mask, k);
      assert DriveName(2) == "C:";
    }
  }

  /** The picked drive is one of the listed drives, is not `C:` and exists. */
  lemma {:induction false} FirstOtherDriveIn(drives: seq<Path>, v: Vol)
    ensures var r := FirstOtherDrive(drives, v);
            r.Some? ==> r.value in drives && r.value != "C:" && Exists(v, r.value)
  {
    if drives != [] && !(drives[0] != "C:" && Exists(v, drives[0])) {
      FirstOtherDriveIn(drives[1..], v);
    }
  }

  // ---------------------------------------------------------------- clean_selected

  /** The snapshot directory a run at civil time `now` creates. */
  function SnapshotDir(backupDir: Path, now: DateTime): Path
    requires ValidDateTime(now)
  {
    Join(backupDir, SnapshotName(now))
  }

  /**
   * `clean_selected(items)` at civil time `now` with settings `st`: the volume after the run
   * and the report, `None` when the run raises. With backups on, the snapshot directory is
   * created (this raises when a file is in the way, the backup directory itself included, or
   * when the system refuses) and the store is pruned first; then the items are cleaned in order.
   */
  function CleanSelectedOf(v: Vol, st: Settings, items: seq<Finding>, now: DateTime, o: Faults): (Vol, Option<Report>)
    requires ValidDateTime(now) && HasSwitches(st.options)
  {
    var simulate := Truthy(st.options["simulate"]);
    if Truthy(st.options["backup"]) then
      var snap := SnapshotDir(st.backupDir, now);
      if MakeDirsFails(v, snap, o.mkdirDenied) then (v, None)
      else
        var v1 := EnsureDir(v, snap, EpochOf(now));
        var v2 := CleanOldBackupsOf(v1, st.backupDir, st.maxBackups, st.maxBackupSize, o.locked).1;
        var (w, r) := CleanAll(v2, Report([], [], 0), items, Some(snap), simulate, o);
        (w, Some(r))
    else
      var (w, r) := CleanAll(v, Report([], [], 0), items, None, simulate, o);
      (w, Some(r))
  }

  /**
   * A simulated run without backups changes nothing and reports, for each safe item, its
   * measured size plus its scanned size.
   */
  lemma SimulateWithoutBackup(v: Vol, st: Settings, items: seq<Finding>, now: DateTime, o: Faults)
    requires ValidDateTime(now) && HasSwitches(st.options)
    requires Truthy(st.options["simulate"]) && !Truthy(st.options["backup"])
    ensures CleanSelectedOf(v, st, items, now, o).0 == v
    ensures CleanSelectedOf(v, st, items, now, o).1 == Some(CleanAll(v, Report([], [], 0), items, None, true, o).1)
    ensures CleanSelectedOf(v, st, items, now, o).1.value.freed == SumOf(items, SimulatedCharge(v))
  {
    SimulateChangesNothing(v, Report([], [], 0), items, None, o);
  }

  /**
   * A simulated run with backups on still creates the snapshot directory and prunes the
   * store; the items themselves are left alone.
   */
  lemma SimulateStillPrunes(v: Vol, st: Settings, items: seq<Finding>, now: DateTime, o: Faults)
    requires ValidDateTime(now) && HasSwitches(st.options)
    requires Truthy(st.options["simulate"]) && Truthy(st.options["backup"])
    requires !MakeDirsFails(v, SnapshotDir(st.backupDir, now), o.mkdirDenied)
    ensures CleanSelectedOf(v, st, items, now, o).0
            == CleanOldBackupsOf(EnsureDir(v, SnapshotDir(st.backupDir, now), EpochOf(now)),
                                 st.backupDir, st.maxBackups, st.maxBackupSize, o.locked).1
  {
    var snap := SnapshotDir(st.backupDir, now);
    var v2 := CleanOldBackupsOf(EnsureDir(v, snap, EpochOf(now)), st.backupDir, st.maxBackups, st.maxBackupSize, o.locked).1;
    SimulateChangesNothing(v2, Report([], [], 0), items, Some(snap), o);
  }

  /**
   * With backups on, a file where the snapshot directory goes, or at the backup directory's
   * own path (with, as on any disk, no directory below it), makes the run raise before any item.
   */
  lemma SnapshotPathTaken(v: Vol, st: Settings, items: seq<Finding>, now: DateTime, o: Faults)
    requires ValidDateTime(now) && HasSwitches(st.options)
    requires Truthy(st.options["backup"])
    requires IsFile(v, SnapshotDir(st.backupDir, now))
             || (IsFile(v, st.backupDir) && !IsDir(v, SnapshotDir(st.backupDir, now)))
    ensures CleanSelectedOf(v, st, items, now, o) == (v, None)
  {
    var snap := SnapshotDir(st.backupDir, now);
    if IsFile(v, snap) {
      assert snap in v.nodes && v.nodes[snap].File? && snap == snap;
    } else {
      JoinUnder(st.backupDir, SnapshotName(now));
      assert st.backupDir in v.nodes && v.nodes[st.backupDir].File? && Under(snap, st.backupDir);
    }
  }

  /**
   * A run that does not raise reports each item at most once, in `cleaned` or in `errors`,
   * and its unsafe-path errors are exactly the vetoed items, in order.
   */
  lemma CleanSelectedEntries(v: Vol, st: Settings, items: seq<Finding>, now: DateTime, o: Faults)
    requires ValidDateTime(now) && HasSwitches(st.options)
    requires CleanSelectedOf(v, st, items, now, o).1.Some?
    ensures var r := CleanSelectedOf(v, st, items, now, o).1.value;
            |r.cleaned| + |r.errors| <= |items| && UnsafeErrors(r.errors) == VetoedItems(items)
  {
    var simulate := Truthy(st.options["simulate"]);
    if Truthy(st.options["backup"]) {
      var snap := SnapshotDir(st.backupDir, now);
      var v2 := CleanOldBackupsOf(EnsureDir(v, snap, EpochOf(now)), st.backupDir, st.maxBackups, st.maxBackupSize, o.locked).1;
      CleanAllEntries(v2, Report([], [], 0), items, Some(snap), simulate, o);
    } else {
      CleanAllEntries(v, Report([], [], 0), items, None, simulate, o);
    }
  }

  // ---------------------------------------------------------------- loops the engine runs

  /** One more listed name adds its entry when it is a directory. */
  lemma EntriesOfStep(v: Vol, d: Path, names: seq<string>, i: nat)
    requires i < |names|
    ensures EntriesOf(v, d, names[..i + 1])
            == EntriesOf(v, d, names[..i]) + (if IsDir(v, Join(d, names[i])) then [EntryOf(v, d, names[i])] else [])
  {
    assert names[..i + 1][..i] == names[..i];
  }

  /**
   * One step of the listing loop: a directory that can be dated adds its entry and its size,
   * and any other name adds nothing.
   */
  lemma ListedStep(v: Vol, d: Path, names: seq<string>, i: nat, bs: seq<BackupEntry>, total: int)
    requires i < |names| && bs == EntriesOf(v, d, names[..i]) && Datable(bs) && total == SumOf(bs, EntrySize)
    ensures !IsDir(v, Join(d, names[i])) ==> bs == EntriesOf(v, d, names[..i + 1])
    ensures IsDir(v, Join(d, names[i])) && LocalTimeOk(SnapshotTime(v, d, names[i])) ==>
              var e := EntryOf(v, d, names[i]);
              bs + [e] == EntriesOf(v, d, names[..i + 1]) && Datable(bs + [e])
              && total + e.size == SumOf(bs + [e], EntrySize)
  {
    EntriesOfStep(v, d, names, i);
    var e := EntryOf(v, d, names[i]);
    SumOfAppend(bs, [e], EntrySize);
    assert [e][1..] == [] && (bs + [e])[..|bs|] == bs;
  }

  /**
   * The body of the listing loop for one snapshot directory: the walk that sums its size, then
   * its time, from the name or else from the ctime; `dated` is false when `localtime` refuses
   * that time, where `fromtimestamp` or `timestamp` raises.
   */
  method DescribeSnapshot(v: Vol, d: Path, name: string) returns (e: BackupEntry, dated: bool)
    ensures e == EntryOf(v, d, name) && dated == LocalTimeOk(e.timestamp)
  {
    var path := Join(d, name);
    var size, count := WalkSum(v, path);
    var time := SnapshotTime(v, d, name);
    e := BackupEntry(name, path, size, time);
    dated := LocalTimeOk(time);
  }

  /**
   * The listing loop of `get_backup_info`: one entry per listed snapshot directory, and their
   * total size. A snapshot whose time cannot be converted raises, which ends the loop with
   * `dated` false.
   */
  method ListBackups(v: Vol, d: Path, names: seq<string>) returns (backups: seq<BackupEntry>, total: int, dated: bool)
    ensures dated == Datable(EntriesOf(v, d, names))
    ensures dated ==> backups == EntriesOf(v, d, names) && total == SumOf(backups, EntrySize)
  {
    backups, total := [], 0;
    var i := 0;
    while i < |names|
      invariant 0 <= i <= |names|
      invariant backups == EntriesOf(v, d, names[..i]) && Datable(backups)
      invariant total == SumOf(backups, EntrySize)
    {
      ListedStep(v, d, names, i, backups, total);
      if IsDir(v, Join(d, names[i])) {
        var e, ok := DescribeSnapshot(v, d, names[i]);
        if !ok {
          UndatedName(v, d, names, names[i]);
          return backups, total, false;
        }
        backups := backups + [e];
        total := total + e.size;
      }
      i := i + 1;
    }
    assert names[..i] == names;
    dated := true;
  }

  /** The count pass's loop: remove each listed snapshot in turn, skipping failures. */
  method RemoveSnapshots(v: Vol, victims: seq<BackupEntry>, fails: set<Path>) returns (r: Vol)
    ensures r == RemoveAll(v, victims, fails)
  {
    r := v;
    var j := 0;
    while j < |victims|
      invariant 0 <= j <= |victims|
      invariant RemoveAll(r, victims[j..], fails) == RemoveAll(v, victims, fails)
    {
      assert victims[j..][1..] == victims[j + 1..];
      r := TryRemoveTree(r, victims[j].path, fails).0;
      j := j + 1;
    }
  }

  /** The size pass's loop, oldest first, stopping once `remaining` fits the cap. */
  method TrimToSize(v: Vol, oldestFirst: seq<BackupEntry>, remaining: int, cap: int, fails: set<Path>) returns (r: Vol)
    ensures r == SizePass(v, oldestFirst, remaining, cap, fails)
  {
    r := v;
    var left := remaining;
    var k := 0;
    while k < |oldestFirst|
      invariant 0 <= k <= |oldestFirst|
      invariant SizePass(r, oldestFirst[k..], left, cap, fails) == SizePass(v, oldestFirst, remaining, cap, fails)
    {
      if left <= cap {
        break;
      }
      assert oldestFirst[k..][1..] == oldestFirst[k + 1..];
      var (v', removed) := TryRemoveTree(r, oldestFirst[k].path, fails);
      r := v';
      if removed {
        left := left - oldestFirst[k].size;
      }
      k := k + 1;
    }
  }

  /** The file phase of `_clean_directory`: back up each walked file, then remove it unless it is locked. */
  method DeleteWalkedFiles(v: Vol, d: Path, files: seq<Path>, snap: Option<Path>, o: Faults) returns (r: Vol, freed: nat)
    ensures (r, freed) == DeleteFiles(v, d, files, snap, o)
  {
    r, freed := v, 0;
    var i := 0;
    while i < |files|
      invariant 0 <= i <= |files|
      invariant DeleteFiles(r, d, files[i..], snap, o).0 == DeleteFiles(v, d, files, snap, o).0
      invariant freed + DeleteFiles(r, d, files[i..], snap, o).1 == DeleteFiles(v, d, files, snap, o).1
    {
      assert files[i..][1..] == files[i + 1..];
      var f := files[i];
      ghost var before := freed;
      ghost var v1 := if snap.Some? && Under(f, d) then BackupStore.CopyWithParent(r, f, DirBackupTarget(snap.value, f, d), o.copyFails).0 else r;
      ghost var step := if IsFile(v1, f) && f !in o.locked then (Remove(v1, f), SizeOf(v1, f)) else (v1, 0);
      assert step == DeleteStep(r, d, f, snap, o);
      if snap.Some? && Under(f, d) {
        r := BackupStore.CopyWithParent(r, f, DirBackupTarget(snap.value, f, d), o.copyFails).0;
      }
      assert r == v1;
      if IsFile(r, f) {
        var size := SizeOf(r, f);
        if f !in o.locked {
          r := Remove(r, f);
          freed := freed + size;
        }
      }
      assert r == step.0 && freed == before + step.1;
      i := i + 1;
    }
  }

  /** The directory phase of `_clean_directory`: remove each empty, unlocked directory in turn. */
  method RemoveWalkedDirs(v: Vol, ds: seq<Path>, locked: set<Path>) returns (r: Vol)
    ensures r == RemoveEmptyDirs(v, ds, locked)
  {
    r := v;
    var j := 0;
    while j < |ds|
      invariant 0 <= j <= |ds|
      invariant RemoveEmptyDirs(r, ds[j..], locked) == RemoveEmptyDirs(v, ds, locked)
    {
      assert ds[j..][1..] == ds[j + 1..];
      var x := ds[j];
      if Exists(r, x) && IsDir(r, x) && Empty(r, x) && x !in locked {
        r := Remove(r, x);
      }
      j := j + 1;
    }
  }

  /** A safe directory item's step is `_clean_directory`'s outcome, reported as cleaned. */
  lemma CleanItemDirectory(v: Vol, r: Report, item: Finding, snap: Option<Path>, simulate: bool, o: Faults)
    requires IsSafe(item.path) && item.kind != Recycle && IsDir(v, item.path)
    ensures CleanItem(v, r, item, snap, simulate, o).0 == CleanDirectoryOf(v, item.path, snap, simulate, o).0
    ensures CleanItem(v, r, item, snap, simulate, o).1
            == Report(r.cleaned + [item.path], r.errors, r.freed + CleanDirectoryOf(v, item.path, snap, simulate, o).1 + if simulate then item.size else 0)
  {
  }

  /** A safe file item whose `_clean_file` returns a byte count is cleaned and counts those bytes. */
  lemma CleanItemFileCleaned(v: Vol, r: Report, item: Finding, snap: Option<Path>, simulate: bool, o: Faults, w: Vol, n: nat)
    requires IsSafe(item.path) && item.kind != Recycle && !IsDir(v, item.path) && IsFile(v, item.path)
    requires CleanFileOf(v, item.path, snap, simulate, o) == (w, Some(n))
    ensures CleanItem(v, r, item, snap, simulate, o)
            == (w, Report(r.cleaned + [item.path], r.errors, r.freed + n + if simulate then item.size else 0))
  {
  }

  /** A safe file item whose `_clean_file` raises is an error, and the volume is what the failed cleaning left. */
  lemma CleanItemFileRaised(v: Vol, r: Report, item: Finding, snap: Option<Path>, simulate: bool, o: Faults, w: Vol)
    requires IsSafe(item.path) && item.kind != Recycle && !IsDir(v, item.path) && IsFile(v, item.path)
    requires CleanFileOf(v, item.path, snap, simulate, o) == (w, None)
    ensures CleanItem(v, r, item, snap, simulate, o) == (w, r.(errors := r.errors + [CleanError(item.path, Raised)]))
  {
  }

  /** The copy loop of `restore_backup`: each file below the snapshot copied to its place once its parent directory is made, failures skipped. */
  method CopyBack(v: Vol, snap: Path, files: seq<Path>, fails: set<Path>) returns (r: Vol)
    ensures r == RestoreFiles(v, snap, files, fails)
  {
    r := v;
    var i := 0;
    while i < |files|
      invariant 0 <= i <= |files|
      invariant RestoreFiles(r, snap, files[i..], fails) == RestoreFiles(v, snap, files, fails)
    {
      assert files[i..][1..] == files[i + 1..];
      var f := files[i];
      if Under(f, snap) {
        r := CopyWithParent(r, f, RestoreTarget(f, snap), fails).0;
      }
      i := i + 1;
    }
  }

  /** `__init__` raises: the chosen backup directory is missing and `os.makedirs` cannot create it. */
  predicate StartFails(bitmask: Option<nat>, tempDir: Path, v: Vol, denied: bool)
  {
    var dir := DefaultBackupDir(bitmask, tempDir, v);
    !Exists(v, dir) && MakeDirsFails(v, dir, denied)
  }

  /** `set_options(o)` raises: `o` names a new backup directory that is missing and cannot be created. */
  predicate SetDirFails(v: Vol, o: map<string, Value>, denied: bool)
    requires DirIsText(o)
  {
    SetsDir(o) && !Exists(v, o["backup_dir"].s) && MakeDirsFails(v, o["backup_dir"].s, denied)
  }

  // ---------------------------------------------------------------- the engine object

  class CleanerLogic {
    var fs: Vol
    var options: map<string, Value>
    var safePaths: seq<Path>
    var backupDir: Path
    var maxBackups: Value
    var maxBackupSize: Value

    /** The option map always holds both switches, and the protected roots never change. */
    ghost predicate Valid()
      reads this
    {
      HasSwitches(options) && safePaths == ProtectedRoots
    }

    /** What `set_options` can change. */
    ghost function Current(): Settings
      reads this
    {
      Settings(options, backupDir, maxBackups, maxBackupSize)
    }

    /**
     * `__init__` when it does not raise: the default switches and limits, the backup directory
     * chosen from the drive bitmask (`None` when the query fails), created when nothing is
     * there. `Start` says when it raises.
     */
    constructor (bitmask: Option<nat>, tempDir: Path, v: Vol, clock: int, denied: bool)
      requires !StartFails(bitmask, tempDir, v, denied)
      ensures Valid()
      ensures options == DefaultOptions
      ensures backupDir == DefaultBackupDir(bitmask, tempDir, v)
      ensures maxBackups == DefaultMaxBackups && maxBackupSize == DefaultMaxBackupSize
      ensures fs == EnsureDir(v, backupDir, clock)
    {
      options := DefaultOptions;
      safePaths := ProtectedRoots;
      var dir := ChooseBackupDir(bitmask, tempDir, v);
      var volume := v;
      if !Exists(volume, dir) {
        volume := Put(volume, dir, Dir(clock));
      }
      backupDir := dir;
      maxBackups := DefaultMaxBackups;
      maxBackupSize := DefaultMaxBackupSize;
      fs := volume;
    }

    /**
     * Constructing the engine: no engine when `__init__` raises, which happens exactly when
     * the chosen backup directory is missing and cannot be created.
     */
    static method Start(bitmask: Option<nat>, tempDir: Path, v: Vol, clock: int, denied: bool) returns (e: Option<CleanerLogic>)
      ensures e.None? <==> StartFails(bitmask, tempDir, v, denied)
      ensures e.Some? ==> fresh(e.value) && e.value.Valid() && e.value.options == DefaultOptions
                          && e.value.backupDir == DefaultBackupDir(bitmask, tempDir, v)
                          && e.value.fs == EnsureDir(v, e.value.backupDir, clock)
    {
      var dir := ChooseBackupDir(bitmask, tempDir, v);
      if !Exists(v, dir) && MakeDirsFails(v, dir, denied) {
        return None;
      }
      var c := new CleanerLogic(bitmask, tempDir, v, clock, denied);
      return Some(c);
    }

    /**
     * `set_options(o)`: the options merged as `Merged` says, and a new backup directory
     * created when nothing is there. When that creation raises (`ok` false), the options and
     * the directory are already updated, the limits are left as they were, and the volume is
     * unchanged.
     */
    method SetOptions(o: map<string, Value>, denied: bool, clock: int) returns (ok: bool)
      requires Valid() && DirIsText(o)
      modifies this
      ensures Valid()
      ensures ok <==> !SetDirFails(old(fs), o, denied)
      ensures ok ==> Current() == Merged(old(Current()), o)
                     && fs == if SetsDir(o) then EnsureDir(old(fs), backupDir, clock) else old(fs)
      ensures !ok ==> Current() == MergedUntilDir(old(Current()), o) && fs == old(fs)
    {
      options := options + o;
      if "backup_dir" in o && Truthy(o["backup_dir"]) {
        backupDir := o["backup_dir"].s;
        if !Exists(fs, backupDir) {
          if MakeDirsFails(fs, backupDir, denied) {
            return false;
          }
          fs := Put(fs, backupDir, Dir(clock));
        }
      }
      if "max_backups" in o {
        maxBackups := o["max_backups"];
      }
      if "max_backup_size" in o {
        maxBackupSize := o["max_backup_size"];
      }
      if "backup_dir" in o && Truthy(o["backup_dir"]) {
        // the repeated existence check finds the directory the first block made
        assert Exists(fs, backupDir);
      }
      if "max_backups" in o {
        maxBackups := o["max_backups"];
      }
      if "max_backup_size" in o {
        maxBackupSize := o["max_backup_size"];
      }
      return true;
    }

    /** `_is_safe_path(p)`: the protected-root loop, then the system-directory loop. */
    method IsSafePath(p: Path) returns (safe: bool)
      requires Valid()
      ensures safe == IsSafe(p)
    {
      var i := 0;
      while i < |safePaths|
        invariant 0 <= i <= |safePaths|
        invariant forall j :: 0 <= j < i ==> !StartsWith(p, safePaths[j])
      {
        if StartsWith(p, safePaths[i]) {
          return false;
        }
        i := i + 1;
      }
      var systemDirs := SystemDirs;
      var k := 0;
      while k < |systemDirs|
        invariant 0 <= k <= |systemDirs|
        invariant forall j :: 0 <= j < k ==> p != systemDirs[j]
      {
        if p == systemDirs[k] {
          return false;
        }
        k := k + 1;
      }
      return true;
    }

    /** `get_backup_info()`: the listing loop, then the sort. */
    method GetBackupInfo() returns (info: BackupInfo)
      ensures info == BackupInfoOf(fs, backupDir)
    {
      if !Exists(fs, backupDir) {
        return BackupInfo(backupDir, 0, 0, []);
      }
      if !IsDir(fs, backupDir) {
        // listing a file raises; the error summary is returned
        return BackupInfo(backupDir, 0, 0, []);
      }
      var backups, total, dated := ListBackups(fs, backupDir, ListDir(fs, backupDir));
      if !dated {
        // a snapshot time `localtime` refuses raises; the error summary is returned
        return BackupInfo(backupDir, 0, 0, []);
      }
      return BackupInfo(backupDir, |backups|, total, SortDesc(backups, EntryTime));
    }

    /**
     * `clean_old_backups()`: the count pass over the summary, then the size pass from the
     * oldest snapshot, stopping once the remaining size fits; a limit that is not a number
     * ends the call with failure.
     */
    method CleanOldBackups(fails: set<Path>) returns (ok: bool)
      modifies this
      ensures Current() == old(Current()) && safePaths == old(safePaths)
      ensures (ok, fs) == CleanOldBackupsOf(old(fs), backupDir, maxBackups, maxBackupSize, fails)
    {
      var info := GetBackupInfo();
      var backups := info.backups;
      var mb := AsInt(maxBackups);
      if mb.None? {
        return false;
      }
      if |backups| > mb.value {
        fs := RemoveSnapshots(fs, SliceFrom(backups, mb.value), fails);
      }
      var cap := AsInt(maxBackupSize);
      if cap.None? {
        return false;
      }
      if info.totalSize > cap.value && |backups| > 0 {
        fs := TrimToSize(fs, Reverse(backups), info.totalSize, cap.value, fails);
      }
      return true;
    }

    /** `restore_backup(snap)`: refused unless `snap` is a directory; otherwise each file is copied back in turn. */
    method RestoreBackup(snap: Path, fails: set<Path>) returns (ok: bool)
      modifies this
      ensures Current() == old(Current()) && safePaths == old(safePaths)
      ensures (ok, fs) == Restore(old(fs), snap, fails)
    {
      if !Exists(fs, snap) || !IsDir(fs, snap) {
        return false;
      }
      fs := CopyBack(fs, snap, Files(fs, snap), fails);
      return true;
    }

    /** `scan_system()` over the engine's volume. */
    method ScanSystem(h: Host, faults: map<RuleTable.Rule, nat>)
      returns (results: map<Category, seq<Finding>>, failed: seq<RuleTable.Rule>)
      ensures results == RuleTable.ScanResults(h, fs, faults)
      ensures failed == RuleTable.ScanFailures(h, fs, faults)
    {
      results, failed := RuleTable.ScanSystem(h, fs, faults);
    }

    /** `_clean_file(f, snap)`; `None` when it raises. */
    method CleanFile(f: Path, snap: Option<Path>, o: Faults) returns (freed: Option<nat>)
      requires Valid()
      modifies this
      ensures Valid() && Current() == old(Current())
      ensures (fs, freed) == CleanFileOf(old(fs), f, snap, Truthy(options["simulate"]), o)
    {
      if !Exists(fs, f) {
        return Some(0);
      }
      var size := SizeOf(fs, f);
      if Truthy(options["simulate"]) {
        return Some(size);
      }
      if snap.Some? {
        fs := CopyWithParent(fs, f, FileBackupTarget(snap.value, f), o.copyFails).0;
      }
      if f !in o.softFails {
        fs := Remove(fs, f);          // moved to the recycle bin
      } else if f !in o.locked {
        fs := Remove(fs, f);          // removed outright
      } else {
        return None;
      }
      return Some(size);
    }

    /** `_clean_directory(d, snap)`: the file phase, then the directory phase, deepest first. */
    method CleanDirectory(d: Path, snap: Option<Path>, o: Faults) returns (freed: nat)
      requires Valid()
      modifies this
      ensures Valid() && Current() == old(Current())
      ensures (fs, freed) == CleanDirectoryOf(old(fs), d, snap, Truthy(options["simulate"]), o)
    {
      if !Exists(fs, d) {
        return 0;
      }
      if Truthy(options["simulate"]) {
        var count;
        freed, count := WalkSum(fs, d);
        return;
      }
      var ds := DeepestFirst(fs, d);
      fs, freed := DeleteWalkedFiles(fs, d, Files(fs, d), snap, o);
      fs := RemoveWalkedDirs(fs, ds, o.locked);
    }

    /** The body of `clean_selected`'s loop for one item: veto, recycle bin, directory, file, or nothing on disk. */
    method CleanOne(r: Report, item: Finding, snap: Option<Path>, simulate: bool, o: Faults) returns (r': Report)
      requires Valid() && simulate == Truthy(options["simulate"])
      modifies this
      ensures Valid() && Current() == old(Current())
      ensures fs == CleanItem(old(fs), r, item, snap, simulate, o).0
      ensures r' == CleanItem(old(fs), r, item, snap, simulate, o).1
    {
      r' := r;
      var p := item.path;
      var safe := IsSafePath(p);
      if !safe {
        return r'.(errors := r'.errors + [CleanError(p, UnsafePath)]);
      }
      // in simulate mode the scanned size is counted once more for every item that did not raise
      var extra := if simulate then item.size else 0;
      if item.kind == Recycle {
        if !simulate {
          fs := EmptyRecycleBin(fs);
        }
        return Report(r.cleaned + [p], r.errors, r.freed + item.size + extra);
      }
      r' := CleanFound(r, item, snap, simulate, o);
    }

    /** The rest of the loop body, for a safe item other than the recycle bin: a directory, a file, or nothing on disk. */
    method CleanFound(r: Report, item: Finding, snap: Option<Path>, simulate: bool, o: Faults) returns (r': Report)
      requires Valid() && simulate == Truthy(options["simulate"])
      requires IsSafe(item.path) && item.kind != Recycle
      modifies this
      ensures Valid() && Current() == old(Current())
      ensures fs == CleanItem(old(fs), r, item, snap, simulate, o).0
      ensures r' == CleanItem(old(fs), r, item, snap, simulate, o).1
    {
      r' := r;
      ghost var v0 := fs;
      var p := item.path;
      var extra := if simulate then item.size else 0;
      if IsDir(fs, p) {
        var n := CleanDirectory(p, snap, o);
        CleanItemDirectory(v0, r, item, snap, simulate, o);
        return Report(r.cleaned + [p], r.errors, r.freed + n + extra);
      }
      if IsFile(fs, p) {
        r' := CleanFoundFile(r, item, snap, simulate, o);
        return;
      }
      r' := r.(freed := r.freed + extra);
    }

    /** A safe file item: cleaned with the bytes `_clean_file` reports, or an error when it raises. */
    method CleanFoundFile(r: Report, item: Finding, snap: Option<Path>, simulate: bool, o: Faults) returns (r': Report)
      requires Valid() && simulate == Truthy(options["simulate"])
      requires IsSafe(item.path) && item.kind != Recycle && !IsDir(fs, item.path) && IsFile(fs, item.path)
      modifies this
      ensures Valid() && Current() == old(Current())
      ensures fs == CleanItem(old(fs), r, item, snap, simulate, o).0
      ensures r' == CleanItem(old(fs), r, item, snap, simulate, o).1
    {
      ghost var v0 := fs;
      var p := item.path;
      var n := CleanFile(p, snap, o);
      if n.None? {
        CleanItemFileRaised(v0, r, item, snap, simulate, o, fs);
        return r.(errors := r.errors + [CleanError(p, Raised)]);
      }
      CleanItemFileCleaned(v0, r, item, snap, simulate, o, fs, n.value);
      var extra := if simulate then item.size else 0;
      return Report(r.cleaned + [p], r.errors, r.freed + n.value + extra);
    }

    /**
     * `clean_selected(items)` at civil time `now`: `None` when creating the snapshot
     * directory raises. The volume and the report are those `CleanSelectedOf` gives.
     */
    method CleanSelected(items: seq<Finding>, now: DateTime, o: Faults) returns (report: Option<Report>)
      requires Valid() && ValidDateTime(now)
      modifies this
      ensures Valid() && Current() == old(Current())
      ensures (fs, report) == CleanSelectedOf(old(fs), old(Current()), items, now, o)
    {
      var simulate := Truthy(options["simulate"]);
      var snap: Option<Path> := None;
      if Truthy(options["backup"]) {
        var dir := SnapshotDir(backupDir, now);
        if MakeDirsFails(fs, dir, o.mkdirDenied) {
          return None;
        }
        if !Exists(fs, dir) {
          fs := Put(fs, dir, Dir(EpochOf(now)));
        }
        var _ := CleanOldBackups(o.locked);
        snap := Some(dir);
      }
      var r := CleanItems(items, snap, simulate, o);
      return Some(r);
    }

    /** The item loop of `clean_selected`, first to last, from an empty report. */
    method CleanItems(items: seq<Finding>, snap: Option<Path>, simulate: bool, o: Faults) returns (r: Report)
      requires Valid() && simulate == Truthy(options["simulate"])
      modifies this
      ensures Valid() && Current() == old(Current())
      ensures (fs, r) == CleanAll(old(fs), Report([], [], 0), items, snap, simulate, o)
    {
      r := Report([], [], 0);
      var i := 0;
      while i < |items|
        invariant 0 <= i <= |items|
        invariant Valid() && Current() == old(Current())
        invariant CleanAll(fs, r, items[i..], snap, simulate, o) == CleanAll(old(fs), Report([], [], 0), items, snap, simulate, o)
      {
        assert items[i..][1..] == items[i + 1..];
        r := CleanOne(r, items[i], snap, simulate, o);
        i := i + 1;
      }
    }
  }

  // ---------------------------------------------------------------- properties of the object

  /** A fresh engine simulates and backs up, keeps at most five snapshots of 1 GiB in all, and has its backup directory on disk. */
  lemma FreshEngineDefaults(bitmask: Option<nat>, tempDir: Path, v: Vol, clock: int)
    ensures var dir := DefaultBackupDir(bitmask, tempDir, v);
            Exists(EnsureDir(v, dir, clock), dir)
            && Truthy(DefaultOptions["simulate"]) && Truthy(DefaultOptions["backup"])
            && AsInt(DefaultMaxBackups) == Some(5) && AsInt(DefaultMaxBackupSize) == Some(1073741824)
  {
  }
}
