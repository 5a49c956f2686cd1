/**
 * The backup store: the snapshot directories below the backup directory, the summary the
 * engine reports about them, the two-pass pruning that enforces the count and size limits,
 * and the restore that copies a snapshot's files back onto drive C.
 */
module BackupStore {
  import opened Wrappers
  import opened Seqs
  import opened Text
  import opened WinPath
  import opened Volume
  import opened Clock
  import opened Sorting
  import opened Options

  /** One snapshot directory, as the engine's summary describes it. */
  datatype BackupEntry = BackupEntry(name: string, path: Path, size: nat, timestamp: int)

  /** The summary: the directory, how many snapshots, their total size, newest first. */
  datatype BackupInfo = BackupInfo(dir: Path, count: nat, totalSize: int, backups: seq<BackupEntry>)

  function EntryTime(e: BackupEntry): int
  {
    e.timestamp
  }

  function EntrySize(e: BackupEntry): int
  {
    e.size
  }

  /** `os.path.getctime(p)` for a directory. */
  function CTimeOf(v: Vol, p: Path): int
  {
    if IsDir(v, p) then v.nodes[p].ctime else 0
  }

  /**
   * The time a snapshot is dated by: its name when it parses, else its directory's ctime. Both
   * go through `localtime`, which accepts only `LocalTimeOk` seconds (see `Datable`).
   */
  function SnapshotTime(v: Vol, d: Path, name: string): int
  {
    match ParseSnapshotName(name)
    case Some(t) => EpochOf(t)
    case None => CTimeOf(v, Join(d, name))
  }

  /** The summary entry for the listed name `name` of `d`. */
  function EntryOf(v: Vol, d: Path, name: string): BackupEntry
  {
    BackupEntry(name, Join(d, name), TreeSize(v, Join(d, name)), SnapshotTime(v, d, name))
  }

  /** The entries for the listed names that are directories, in listing order. */
  function EntriesOf(v: Vol, d: Path, names: seq<string>): (r: seq<BackupEntry>)
    ensures |r| <= |names|
    ensures forall e :: e in r ==> e.name in names && IsDir(v, e.path) && e == EntryOf(v, d, e.name)
  {
    if names == [] then []
    else
      var name := names[|names| - 1];
      EntriesOf(v, d, names[..|names| - 1])
      + (if IsDir(v, Join(d, name)) then [EntryOf(v, d, name)] else [])
  }

  /** Every listed name that is a directory has its entry. */
  lemma {:induction false} EntriesOfComplete(v: Vol, d: Path, names: seq<string>, name: string)
    requires name in names && IsDir(v, Join(d, name))
    ensures EntryOf(v, d, name) in EntriesOf(v, d, names)
  {
    var last := names[|names| - 1];
    if name != last {
      assert name in names[..|names| - 1] by {
        assert names == names[..|names| - 1] + [last];
      }
      EntriesOfComplete(v, d, names[..|names| - 1], name);
    }
  }

  /**
   * Every snapshot can be dated: `datetime.fromtimestamp(ctime)` and `datetime.timestamp()`
   * raise `OSError` for a second `localtime` does not accept.
   */
  predicate Datable(es: seq<BackupEntry>)
  {
    es == [] || (Datable(es[..|es| - 1]) && LocalTimeOk(es[|es| - 1].timestamp))
  }

  /** Datable, entry by entry. */
  lemma {:induction false} DatableIff(es: seq<BackupEntry>)
    ensures Datable(es) <==> forall i :: 0 <= i < |es| ==> LocalTimeOk(es[i].timestamp)
  {
    if es != [] {
      var init := es[..|es| - 1];
      DatableIff(init);
      assert forall i :: 0 <= i < |init| ==> init[i] == es[i];
    }
  }

  /**
   * `get_backup_info()`: empty when the backup directory is missing or is not a directory
   * (listing a file raises and the error summary is returned), and empty when some snapshot
   * cannot be dated (the `OSError` is caught the same way); otherwise the snapshot entries
   * sorted newest first, their number and the sum of their sizes.
   */
  function BackupInfoOf(v: Vol, d: Path): BackupInfo
  {
    if !IsDir(v, d) then BackupInfo(d, 0, 0, [])
    else
      var es := EntriesOf(v, d, ListDir(v, d));
      if !Datable(es) then BackupInfo(d, 0, 0, [])
      else BackupInfo(d, |es|, SumOf(es, EntrySize), SortDesc(es, EntryTime))
  }

  /** What the summary promises: a count, a total and newest-first order that all agree. */
  lemma BackupInfoFacts(v: Vol, d: Path)
    ensures BackupInfoOf(v, d).dir == d
    ensures BackupInfoOf(v, d).count == |BackupInfoOf(v, d).backups|
    ensures BackupInfoOf(v, d).totalSize == SumOf(BackupInfoOf(v, d).backups, EntrySize)
    ensures SortedDesc(BackupInfoOf(v, d).backups, EntryTime)
    ensures forall e :: e in BackupInfoOf(v, d).backups ==>
              IsDir(v, e.path) && e == EntryOf(v, d, e.name) && e.name in ListDir(v, d)
    ensures !IsDir(v, d) ==> BackupInfoOf(v, d).backups == [] && BackupInfoOf(v, d).totalSize == 0
    ensures IsDir(v, d) && Datable(EntriesOf(v, d, ListDir(v, d))) ==>
              forall name :: name in ListDir(v, d) && IsDir(v, Join(d, name)) ==>
                EntryOf(v, d, name) in BackupInfoOf(v, d).backups
  {
    if IsDir(v, d) && Datable(EntriesOf(v, d, ListDir(v, d))) {
      var es := EntriesOf(v, d, ListDir(v, d));
      SortDescFacts(es, EntryTime);
      forall name | name in ListDir(v, d) && IsDir(v, Join(d, name))
        ensures EntryOf(v, d, name) in SortDesc(es, EntryTime)
      {
        EntriesOfComplete(v, d, ListDir(v, d), name);
        assert EntryOf(v, d, name) in multiset(SortDesc(es, EntryTime));
      }
      SortDescSum(es, EntryTime, EntrySize);
      forall e | e in SortDesc(es, EntryTime)
        ensures e in es
      {
        assert e in multiset(SortDesc(es, EntryTime));
      }
    }
  }

  /** Snapshots with the same time stay in the order the directory listing gives them. */
  lemma SummaryStable(v: Vol, d: Path, t: int)
    ensures IsDir(v, d) && Datable(EntriesOf(v, d, ListDir(v, d))) ==>
              WithKey(BackupInfoOf(v, d).backups, EntryTime, t) == WithKey(EntriesOf(v, d, ListDir(v, d)), EntryTime, t)
  {
    SortDescStable(EntriesOf(v, d, ListDir(v, d)), EntryTime, t);
  }

  /** Every snapshot the summary lists is dated by a second `localtime` accepts. */
  lemma SummaryDated(v: Vol, d: Path)
    ensures forall e :: e in BackupInfoOf(v, d).backups ==> LocalTimeOk(e.timestamp)
  {
    if IsDir(v, d) {
      DatableSorted(EntriesOf(v, d, ListDir(v, d)));
    }
  }

  lemma DatableSorted(es: seq<BackupEntry>)
    ensures Datable(es) ==> forall e :: e in SortDesc(es, EntryTime) ==> LocalTimeOk(e.timestamp)
  {
    if Datable(es) {
      DatableIff(es);
      SortDescFacts(es, EntryTime);
      forall e | e in SortDesc(es, EntryTime)
        ensures LocalTimeOk(e.timestamp)
      {
        assert e in multiset(SortDesc(es, EntryTime));
        var i :| 0 <= i < |es| && es[i] == e;
      }
    }
  }

  /** One listed snapshot that cannot be dated empties the whole summary, as the caught error does. */
  lemma UndatableEmptiesSummary(v: Vol, d: Path, name: string)
    requires IsDir(v, d) && name in ListDir(v, d) && IsDir(v, Join(d, name))
    requires !LocalTimeOk(SnapshotTime(v, d, name))
    ensures BackupInfoOf(v, d) == BackupInfo(d, 0, 0, [])
  {
    UndatedName(v, d, ListDir(v, d), name);
  }

  /** A snapshot named for a year before 1970 or after 3000 empties the summary. */
  lemma OutOfRangeNameEmptiesSummary(v: Vol, d: Path, name: string, t: DateTime)
    requires IsDir(v, d) && name in ListDir(v, d) && IsDir(v, Join(d, name))
    requires ParseSnapshotName(name) == Some(t) && (t.year < 1970 || t.year > 3000)
    ensures BackupInfoOf(v, d) == BackupInfo(d, 0, 0, [])
  {
    LocalTimeOkIff(t);
    UndatableEmptiesSummary(v, d, name);
  }

  /** A listed directory that cannot be dated makes its listing undatable. */
  lemma UndatedName(v: Vol, d: Path, names: seq<string>, name: string)
    requires name in names && IsDir(v, Join(d, name)) && !LocalTimeOk(SnapshotTime(v, d, name))
    ensures !Datable(EntriesOf(v, d, names))
  {
    var es := EntriesOf(v, d, names);
    EntriesOfComplete(v, d, names, name);
    DatableIff(es);
    var i :| 0 <= i < |es| && es[i] == EntryOf(v, d, name);
  }

  // ---------------------------------------------------------------- disjoint snapshots

  /** No snapshot path equals or lies below another. */
  predicate Disjoint(es: seq<BackupEntry>)
  {
    forall i, j :: 0 <= i < |es| && 0 <= j < |es| && i != j ==>
      es[i].path != es[j].path && !Under(es[i].path, es[j].path)
  }

  lemma {:induction false} ChildNamesNoDups(ps: seq<Path>, d: Path)
    requires NoDups(ps)
    ensures NoDups(ChildNames(ps, d))
  {
    if ps != [] {
      var init := ps[..|ps| - 1];
      assert NoDups(init);
      ChildNamesNoDups(init, d);
    }
  }

  lemma {:induction false} EntriesOfNoDups(v: Vol, d: Path, names: seq<string>)
    requires NoDups(names)
    ensures NoDups(EntriesOf(v, d, names))
  {
    if names != [] {
      var init := names[..|names| - 1];
      assert NoDups(init);
      EntriesOfNoDups(v, d, init);
      var name := names[|names| - 1];
      if IsDir(v, Join(d, name)) {
        assert name !in init;
      }
    }
  }

  lemma {:induction false} NoDupsMultiset<T>(s: seq<T>)
    ensures NoDups(s) <==> forall x :: multiset(s)[x] <= 1
  {
    if s != [] {
      var t := s[1..];
      NoDupsMultiset(t);
      assert s == [s[0]] + t;
      if NoDups(s) {
        assert NoDups(t) by {
          forall i, j | 0 <= i < j < |t| ensures t[i] != t[j] {
            assert t[i] == s[i + 1] && t[j] == s[j + 1];
          }
        }
        assert s[0] !in t;
        assert multiset(t)[s[0]] == 0;
        forall x ensures multiset(s)[x] <= 1 {
          assert multiset(s)[x] == multiset(t)[x] + (if x == s[0] then 1 else 0);
        }
      } else if s[0] in t {
        assert multiset(s)[s[0]] == multiset(t)[s[0]] + 1;
      } else if NoDups(t) {
        forall i, j | 0 <= i < j < |s| ensures s[i] != s[j] {
          if i == 0 {
            assert s[j] == t[j - 1];
          } else {
            assert s[i] == t[i - 1] && s[j] == t[j - 1];
          }
        }
        assert false;
      } else {
        var x :| multiset(t)[x] > 1;
        assert multiset(s)[x] >= multiset(t)[x];
      }
    }
  }

  lemma JoinInjective(d: Path, a: string, b: string)
    ensures Join(d, a) == Join(d, b) ==> a == b
  {
    if Join(d, a) == Join(d, b) {
      assert a == Join(d, a)[|Prefix(d)|..];
    }
  }

  /** Distinct entries, each determined by its name, are distinct siblings. */
  lemma NamedEntriesDisjoint(v: Vol, d: Path, es: seq<BackupEntry>)
    requires d != [] && NoDups(es)
    requires forall e :: e in es ==> IsName(e.name) && e == EntryOf(v, d, e.name)
    ensures Disjoint(es)
  {
    forall i, j | 0 <= i < |es| && 0 <= j < |es| && i != j
      ensures es[i].path != es[j].path && !Under(es[i].path, es[j].path)
    {
      var a, b := es[i].name, es[j].name;
      assert es[i] in es && es[j] in es;
      JoinInjective(d, a, b);
      SiblingsDisjoint(d, b, a);
      SiblingsDisjoint(d, a, b);
    }
  }

  /** The snapshots the summary lists are distinct sibling directories, so none contains another. */
  lemma BackupsDisjoint(v: Vol, d: Path)
    requires Valid(v) && d != []
    ensures Disjoint(BackupInfoOf(v, d).backups)
  {
    BackupInfoFacts(v, d);
    if IsDir(v, d) && Datable(EntriesOf(v, d, ListDir(v, d))) {
      var names := ListDir(v, d);
      ChildNamesNoDups(v.order, d);
      var es := EntriesOf(v, d, names);
      EntriesOfNoDups(v, d, names);
      var bs := SortDesc(es, EntryTime);
      SortDescFacts(es, EntryTime);
      NoDupsMultiset(es);
      NoDupsMultiset(bs);
      NamedEntriesDisjoint(v, d, bs);
    }
  }

  lemma DisjointSuffix(es: seq<BackupEntry>, k: nat)
    requires Disjoint(es) && k <= |es|
    ensures Disjoint(es[k..])
  {
    var rest := es[k..];
    forall i, j | 0 <= i < |rest| && 0 <= j < |rest| && i != j
      ensures rest[i].path != rest[j].path && !Under(rest[i].path, rest[j].path)
    {
      assert rest[i] == es[k + i] && rest[j] == es[k + j];
    }
  }

  // ---------------------------------------------------------------- pruning

  /** `shutil.rmtree(p)`: succeeds on a directory the failure oracle does not name. */
  function TryRemoveTree(v: Vol, p: Path, fails: set<Path>): (Vol, bool)
  {
    if IsDir(v, p) && p !in fails then (RemoveTree(v, p), true) else (v, false)
  }

  /** `backups[k:]` with Python's slice rules (a negative `k` counts from the end). */
  function SliceFrom<T>(s: seq<T>, k: int): (r: seq<T>)
    ensures k >= 0 ==> r == if k <= |s| then s[k..] else []
    ensures k < 0 ==> r == if -k <= |s| then s[|s| + k..] else s
  {
    if k >= 0 then (if k <= |s| then s[k..] else [])
    else if -k <= |s| then s[|s| + k..] else s
  }

  /** The count pass's victims: everything past the first `maxBackups` entries. */
  function CountVictims(backups: seq<BackupEntry>, maxBackups: int): seq<BackupEntry>
  {
    if |backups| > maxBackups then SliceFrom(backups, maxBackups) else []
  }

  /** Remove every listed snapshot in turn; a failure is logged and skipped. */
  function RemoveAll(v: Vol, es: seq<BackupEntry>, fails: set<Path>): Vol
    decreases |es|
  {
    if es == [] then v else RemoveAll(TryRemoveTree(v, es[0].path, fails).0, es[1..], fails)
  }

  /**
   * The size pass, oldest first: stop once `remaining` fits the cap, otherwise remove the
   * snapshot and subtract its size when the removal succeeded.
   */
  function SizePass(v: Vol, oldestFirst: seq<BackupEntry>, remaining: int, cap: int, fails: set<Path>): Vol
    decreases |oldestFirst|
  {
    if oldestFirst == [] || remaining <= cap then v
    else
      var (v', ok) := TryRemoveTree(v, oldestFirst[0].path, fails);
      SizePass(v', oldestFirst[1..], if ok then remaining - oldestFirst[0].size else remaining, cap, fails)
  }

  function Reverse<T>(s: seq<T>): (r: seq<T>)
    ensures |r| == |s| && forall i :: 0 <= i < |s| ==> r[i] == s[|s| - 1 - i]
  {
    if s == [] then [] else Reverse(s[1..]) + [s[0]]
  }

  /**
   * `clean_old_backups()`: the count pass over the summary, then the size pass over the same
   * summary (its total still includes what the count pass removed).
   */
  function Prune(v: Vol, d: Path, maxBackups: int, cap: int, fails: set<Path>): Vol
  {
    var info := BackupInfoOf(v, d);
    var v1 := RemoveAll(v, CountVictims(info.backups, maxBackups), fails);
    if info.totalSize > cap && |info.backups| > 0 then
      SizePass(v1, Reverse(info.backups), info.totalSize, cap, fails)
    else v1
  }

  /**
   * `clean_old_backups()` with the limits as the engine stores them: a limit that is not a
   * number makes its comparison raise, which is caught, so the call reports failure after
   * whatever the passes before it removed.
   */
  function CleanOldBackupsOf(v: Vol, d: Path, maxBackups: Value, cap: Value, fails: set<Path>): (bool, Vol)
  {
    var info := BackupInfoOf(v, d);
    match AsInt(maxBackups)
    case None => (false, v)
    case Some(mb) =>
      var v1 := RemoveAll(v, CountVictims(info.backups, mb), fails);
      match AsInt(cap)
      case None => (false, v1)
      case Some(c) =>
        (true, if info.totalSize > c && |info.backups| > 0 then SizePass(v1, Reverse(info.backups), info.totalSize, c, fails) else v1)
  }

  /** The snapshot at `p` is one of those a sequence of removals takes out. */
  predicate Doomed(v: Vol, es: seq<BackupEntry>, fails: set<Path>, q: Path)
  {
    exists i :: 0 <= i < |es| && IsDir(v, es[i].path) && es[i].path !in fails
                && (q == es[i].path || Under(q, es[i].path))
  }

  /** Removing disjoint snapshots removes exactly each removable one with its contents. */
  lemma {:induction false} RemoveAllNodes(v: Vol, es: seq<BackupEntry>, fails: set<Path>)
    requires Disjoint(es)
    ensures forall q :: q in RemoveAll(v, es, fails).nodes <==> q in v.nodes && !Doomed(v, es, fails, q)
    ensures forall q :: q in RemoveAll(v, es, fails).nodes ==> RemoveAll(v, es, fails).nodes[q] == v.nodes[q]
    decreases |es|
  {
    if es != [] {
      var (v1, ok) := TryRemoveTree(v, es[0].path, fails);
      var rest := es[1..];
      DisjointSuffix(es, 1);
      RemoveAllNodes(v1, rest, fails);
      forall k | 0 <= k < |rest|
        ensures IsDir(v1, rest[k].path) == IsDir(v, rest[k].path)
      {
        assert rest[k] == es[k + 1];
      }
      forall q
        ensures q in RemoveAll(v, es, fails).nodes <==> q in v.nodes && !Doomed(v, es, fails, q)
      {
        if Doomed(v1, rest, fails, q) {
          var i :| 0 <= i < |rest| && IsDir(v1, rest[i].path) && rest[i].path !in fails
                   && (q == rest[i].path || Under(q, rest[i].path));
          assert es[i + 1] == rest[i];
        }
        if Doomed(v, es, fails, q) {
          var i :| 0 <= i < |es| && IsDir(v, es[i].path) && es[i].path !in fails
                   && (q == es[i].path || Under(q, es[i].path));
          if i > 0 {
            assert rest[i - 1] == es[i];
          }
        }
      }
    }
  }

  /** Neither pass has anything to do when the store is within both limits. */
  lemma PruneWithinLimits(v: Vol, d: Path, maxBackups: int, cap: int, fails: set<Path>)
    requires |BackupInfoOf(v, d).backups| <= maxBackups && BackupInfoOf(v, d).totalSize <= cap
    ensures Prune(v, d, maxBackups, cap, fails) == v
  {
  }

  /** Removing the suffix from `k` of disjoint present snapshots leaves exactly the prefix and the failures. */
  lemma RemoveSuffix(v: Vol, bs: seq<BackupEntry>, k: nat, fails: set<Path>)
    requires Disjoint(bs) && k <= |bs|
    requires forall i :: 0 <= i < |bs| ==> IsDir(v, bs[i].path)
    ensures forall i :: 0 <= i < |bs| ==>
              (IsDir(RemoveAll(v, bs[k..], fails), bs[i].path) <==> i < k || bs[i].path in fails)
  {
    var victims := bs[k..];
    DisjointSuffix(bs, k);
    RemoveAllNodes(v, victims, fails);
    forall i | 0 <= i < |bs|
      ensures IsDir(RemoveAll(v, victims, fails), bs[i].path) <==> i < k || bs[i].path in fails
    {
      SuffixDoomed(v, bs, k, fails, i);
    }
  }

  /** A snapshot is taken out by removing the suffix from `k` exactly when it is in the suffix and removable. */
  lemma SuffixDoomed(v: Vol, bs: seq<BackupEntry>, k: nat, fails: set<Path>, i: nat)
    requires Disjoint(bs) && k <= |bs| && i < |bs| && IsDir(v, bs[i].path)
    ensures Doomed(v, bs[k..], fails, bs[i].path) <==> i >= k && bs[i].path !in fails
  {
    var victims := bs[k..];
    if Doomed(v, victims, fails, bs[i].path) {
      var j :| 0 <= j < |victims| && IsDir(v, victims[j].path) && victims[j].path !in fails
               && (bs[i].path == victims[j].path || Under(bs[i].path, victims[j].path));
      SuffixHit(bs, k, i, j);
      assert i == k + j;
    }
    if i >= k && bs[i].path !in fails {
      assert victims[i - k] == bs[i];
    }
  }

  /** In disjoint snapshots, a suffix entry other than entry `i` neither equals nor contains it. */
  lemma SuffixHit(bs: seq<BackupEntry>, k: nat, i: nat, j: nat)
    requires Disjoint(bs) && k <= |bs| && i < |bs| && j < |bs| - k
    ensures i != k + j ==> bs[i].path != bs[k..][j].path && !Under(bs[i].path, bs[k..][j].path)
  {
    assert bs[k..][j] == bs[k + j];
  }

  /**
   * With a non-negative limit the count pass removes exactly the snapshots past the first
   * `maxBackups` (newest first) that it can remove, and nothing else.
   */
  lemma CountPassKeepsNewest(v: Vol, d: Path, maxBackups: nat, fails: set<Path>)
    requires Valid(v) && d != []
    ensures var bs := BackupInfoOf(v, d).backups;
            var w := RemoveAll(v, CountVictims(bs, maxBackups), fails);
            forall i :: 0 <= i < |bs| ==>
              (IsDir(w, bs[i].path) <==> i < maxBackups || bs[i].path in fails)
  {
    var bs := BackupInfoOf(v, d).backups;
    BackupsDisjoint(v, d);
    BackupInfoFacts(v, d);
    if |bs| > maxBackups {
      forall i | 0 <= i < |bs| ensures IsDir(v, bs[i].path) {
        assert bs[i] in bs;
      }
      RemoveSuffix(v, bs, maxBackups, fails);
    }
  }

  /** A negative limit counts from the end: a limit of -1 removes the oldest snapshot only. */
  lemma NegativeLimitRemovesOldest(bs: seq<BackupEntry>)
    requires |bs| > 0
    ensures CountVictims(bs, -1) == [bs[|bs| - 1]]
  {
  }

  /** How many of the oldest snapshots the size pass removes when every removal succeeds. */
  function FitCut(es: seq<BackupEntry>, remaining: int, cap: int): (k: nat)
    ensures k <= |es|
  {
    if es == [] || remaining <= cap then 0 else 1 + FitCut(es[1..], remaining - es[0].size, cap)
  }

  /** Which of the snapshots `es` are still directories in `w`, position by position. */
  function Presence(w: Vol, es: seq<BackupEntry>): (r: seq<bool>)
    ensures |r| == |es| && forall i :: 0 <= i < |es| ==> r[i] == IsDir(w, es[i].path)
  {
    seq(|es|, i requires 0 <= i < |es| => IsDir(w, es[i].path))
  }

  /** `n` positions of which exactly those from `k` on are set. */
  function CutMask(n: nat, k: nat): (r: seq<bool>)
    ensures |r| == n && forall i :: 0 <= i < n ==> (r[i] <==> i >= k)
  {
    seq(n, i => i >= k)
  }

  /** Removing the snapshots one after the other, oldest first, each is still a directory when its turn comes and none fails. */
  predicate Removable(v: Vol, es: seq<BackupEntry>, fails: set<Path>)
    decreases |es|
  {
    es == [] || (IsDir(v, es[0].path) && es[0].path !in fails && Removable(RemoveTree(v, es[0].path), es[1..], fails))
  }

  /** Disjoint snapshots that are all directories, none of whose removals fails, can be removed one after the other. */
  lemma {:induction false} DisjointRemovable(v: Vol, es: seq<BackupEntry>, fails: set<Path>)
    requires Disjoint(es)
    requires forall i :: 0 <= i < |es| ==> IsDir(v, es[i].path) && es[i].path !in fails
    ensures Removable(v, es, fails)
    decreases |es|
  {
    if es != [] {
      RestStillDirs(v, es, fails);
      DisjointRemovable(RemoveTree(v, es[0].path), es[1..], fails);
    }
  }

  /** When every removal succeeds, the size pass removes exactly the first `FitCut` snapshots. */
  lemma {:induction false} SizePassRemoves(v: Vol, es: seq<BackupEntry>, remaining: int, cap: int, fails: set<Path>)
    requires Removable(v, es, fails)
    ensures Presence(SizePass(v, es, remaining, cap, fails), es) == CutMask(|es|, FitCut(es, remaining, cap))
    decreases |es|
  {
    if es != [] && remaining > cap {
      var v1 := RemoveTree(v, es[0].path);
      var r1 := remaining - es[0].size;
      SizePassRemoves(v1, es[1..], r1, cap, fails);
      SizePassFirst(v, es, remaining, cap, fails);
      SizePassKeepsGone(v1, es[1..], r1, cap, fails, es[0].path);
      ShiftedCut(es, SizePass(v1, es[1..], r1, cap, fails), FitCut(es[1..], r1, cap));
    } else {
      RemovableDirs(v, es, fails);
    }
  }

  /** Snapshots that can be removed one after the other are all directories to begin with. */
  lemma {:induction false} RemovableDirs(v: Vol, es: seq<BackupEntry>, fails: set<Path>)
    requires Removable(v, es, fails)
    ensures forall i :: 0 <= i < |es| ==> IsDir(v, es[i].path)
    decreases |es|
  {
    if es != [] {
      RemovableDirs(RemoveTree(v, es[0].path), es[1..], fails);
      forall i | 1 <= i < |es|
        ensures IsDir(v, es[i].path)
      {
        assert es[i] == es[1..][i - 1];
      }
    }
  }

  /** Over the cap, the size pass removes the first snapshot and goes on with the rest. */
  lemma SizePassFirst(v: Vol, es: seq<BackupEntry>, remaining: int, cap: int, fails: set<Path>)
    requires es != [] && remaining > cap && IsDir(v, es[0].path) && es[0].path !in fails
    ensures SizePass(v, es, remaining, cap, fails)
            == SizePass(RemoveTree(v, es[0].path), es[1..], remaining - es[0].size, cap, fails)
    ensures FitCut(es, remaining, cap) == 1 + FitCut(es[1..], remaining - es[0].size, cap)
  {
    assert TryRemoveTree(v, es[0].path, fails) == (RemoveTree(v, es[0].path), true);
  }

  /** After the first of disjoint snapshots is removed, the others are still disjoint directories. */
  lemma RestStillDirs(v: Vol, es: seq<BackupEntry>, fails: set<Path>)
    requires |es| > 0 && Disjoint(es)
    requires forall i :: 0 <= i < |es| ==> IsDir(v, es[i].path) && es[i].path !in fails
    ensures Disjoint(es[1..])
    ensures forall i :: 0 <= i < |es[1..]| ==>
              IsDir(RemoveTree(v, es[0].path), es[1..][i].path) && es[1..][i].path !in fails
  {
    DisjointSuffix(es, 1);
    FirstRemovalKeepsRest(v, es, fails);
    forall i | 0 <= i < |es[1..]|
      ensures IsDir(RemoveTree(v, es[0].path), es[1..][i].path) && es[1..][i].path !in fails
    {
      assert es[1..][i] == es[i + 1];
    }
  }

  /** With the first snapshot gone, the cut among the others moves one position up. */
  lemma ShiftedCut(es: seq<BackupEntry>, w: Vol, k: nat)
    requires |es| > 0 && !IsDir(w, es[0].path) && Presence(w, es[1..]) == CutMask(|es| - 1, k)
    ensures Presence(w, es) == CutMask(|es|, 1 + k)
  {
    forall i | 0 < i < |es|
      ensures Presence(w, es)[i] == CutMask(|es|, 1 + k)[i]
    {
      assert es[i] == es[1..][i - 1];
      assert Presence(w, es[1..])[i - 1] == CutMask(|es| - 1, k)[i - 1];
    }
  }

  /** Removing the first of disjoint snapshots leaves every other one in place. */
  lemma FirstRemovalKeepsRest(v: Vol, es: seq<BackupEntry>, fails: set<Path>)
    requires |es| > 0 && Disjoint(es)
    requires forall i :: 0 <= i < |es| ==> IsDir(v, es[i].path) && es[i].path !in fails
    ensures forall i :: 1 <= i < |es| ==> IsDir(RemoveTree(v, es[0].path), es[i].path)
  {
    forall i | 1 <= i < |es|
      ensures IsDir(RemoveTree(v, es[0].path), es[i].path)
    {
      assert es[i].path != es[0].path && !Under(es[i].path, es[0].path);
    }
  }

  /**
   * Starting from the true total, the snapshots the size pass keeps fit the cap, and keeping
   * one more (the youngest of those removed) would not: it removes the fewest it can.
   */
  lemma {:induction false} FitCutFits(es: seq<BackupEntry>, remaining: int, cap: int)
    requires remaining == SumOf(es, EntrySize) && cap >= 0
    ensures SumOf(es[FitCut(es, remaining, cap)..], EntrySize) <= cap
    ensures FitCut(es, remaining, cap) > 0 ==> SumOf(es[FitCut(es, remaining, cap) - 1..], EntrySize) > cap
    decreases |es|
  {
    assert es[0..] == es;
    if es != [] && remaining > cap {
      var rest := es[1..];
      FitCutFits(rest, remaining - es[0].size, cap);
      var k := FitCut(rest, remaining - es[0].size, cap);
      assert es[k + 1..] == rest[k..];
      if k > 0 {
        assert es[k..] == rest[k - 1..];
      }
    }
  }

  lemma {:induction false} ReverseFacts(es: seq<BackupEntry>)
    ensures SumOf(Reverse(es), EntrySize) == SumOf(es, EntrySize)
    ensures Disjoint(es) ==> Disjoint(Reverse(es))
  {
    if es != [] {
      ReverseFacts(es[1..]);
      SumOfAppend(Reverse(es[1..]), [es[0]], EntrySize);
      if Disjoint(es) {
        var r := Reverse(es);
        forall i, j | 0 <= i < |r| && 0 <= j < |r| && i != j
          ensures r[i].path != r[j].path && !Under(r[i].path, r[j].path)
        {
          assert r[i] == es[|es| - 1 - i] && r[j] == es[|es| - 1 - j];
        }
      }
    }
  }

  /**
   * Within the count limit and with every removal succeeding, pruning removes exactly the
   * oldest snapshots the size pass needs to, and the ones it keeps fit the cap but would not
   * with one more.
   */
  lemma PruneBySize(v: Vol, d: Path, maxBackups: int, cap: int)
    requires Valid(v) && d != [] && cap >= 0
    requires |BackupInfoOf(v, d).backups| <= maxBackups
    ensures var info := BackupInfoOf(v, d);
            var oldestFirst := Reverse(info.backups);
            var k := FitCut(oldestFirst, info.totalSize, cap);
            (forall i :: 0 <= i < |oldestFirst| ==>
               (IsDir(Prune(v, d, maxBackups, cap, {}), oldestFirst[i].path) <==> i >= k))
            && SumOf(oldestFirst[k..], EntrySize) <= cap
            && (k > 0 ==> SumOf(oldestFirst[k - 1..], EntrySize) > cap)
  {
    var info := BackupInfoOf(v, d);
    var os := Reverse(info.backups);
    OldestFirstFacts(v, d);
    assert CountVictims(info.backups, maxBackups) == [];
    assert Prune(v, d, maxBackups, cap, {}) == SizePass(v, os, info.totalSize, cap, {});
    SizePassCut(v, os, info.totalSize, cap);
  }

  /** The listed snapshots are directories, and the summary's total is the sum of their sizes. */
  lemma BackupDirsAndTotal(v: Vol, d: Path)
    ensures var info := BackupInfoOf(v, d);
            info.totalSize == SumOf(info.backups, EntrySize) && forall e :: e in info.backups ==> IsDir(v, e.path)
  {
    BackupInfoFacts(v, d);
  }

  /** The snapshots oldest first are disjoint directories whose sizes sum to the summary's total. */
  lemma OldestFirstFacts(v: Vol, d: Path)
    requires Valid(v) && d != []
    ensures var info := BackupInfoOf(v, d);
            var os := Reverse(info.backups);
            Disjoint(os) && info.totalSize == SumOf(os, EntrySize)
            && forall i :: 0 <= i < |os| ==> IsDir(v, os[i].path)
  {
    var info := BackupInfoOf(v, d);
    BackupDirsAndTotal(v, d);
    BackupsDisjoint(v, d);
    ReversedDirs(v, info.backups, info.totalSize);
  }

  lemma ReversedDirs(v: Vol, bs: seq<BackupEntry>, total: int)
    requires Disjoint(bs) && total == SumOf(bs, EntrySize)
    requires forall e :: e in bs ==> IsDir(v, e.path)
    ensures var os := Reverse(bs);
            Disjoint(os) && total == SumOf(os, EntrySize)
            && forall i :: 0 <= i < |os| ==> IsDir(v, os[i].path)
  {
    ReverseFacts(bs);
    var os := Reverse(bs);
    forall i | 0 <= i < |os|
      ensures IsDir(v, os[i].path)
    {
      assert os[i] == bs[|bs| - 1 - i];
    }
  }

  /** From the true total and with nothing failing, the size pass removes exactly the fewest oldest snapshots that fit the cap. */
  lemma SizePassCut(v: Vol, os: seq<BackupEntry>, total: int, cap: int)
    requires Disjoint(os) && total == SumOf(os, EntrySize) && cap >= 0
    requires forall i :: 0 <= i < |os| ==> IsDir(v, os[i].path)
    ensures var k := FitCut(os, total, cap);
            (forall i :: 0 <= i < |os| ==> (IsDir(SizePass(v, os, total, cap, {}), os[i].path) <==> i >= k))
            && SumOf(os[k..], EntrySize) <= cap
            && (k > 0 ==> SumOf(os[k - 1..], EntrySize) > cap)
  {
    FitCutFits(os, total, cap);
    DisjointRemovable(v, os, {});
    SizePassRemoves(v, os, total, cap, {});
  }

  /**
   * The size pass starts from the total taken before the count pass and counts nothing for a
   * snapshot the count pass already removed (its removal fails). With a limit of one, two
   * snapshots over the cap are both removed, even when the newest alone fits it.
   */
  lemma PruneCanEmptyStore(v: Vol, d: Path, cap: int)
    requires Valid(v) && d != []
    requires |BackupInfoOf(v, d).backups| == 2
    requires BackupInfoOf(v, d).totalSize > cap
    ensures forall e :: e in BackupInfoOf(v, d).backups ==> IsDir(v, e.path)
    ensures forall e :: e in BackupInfoOf(v, d).backups ==> !IsDir(Prune(v, d, 1, cap, {}), e.path)
  {
    BackupInfoFacts(v, d);
    var bs := BackupInfoOf(v, d).backups;
    var w := Prune(v, d, 1, cap, {});
    PruneRemovesBoth(v, d, cap);
    forall e | e in bs
      ensures !IsDir(w, e.path)
    {
      var i :| 0 <= i < 2 && bs[i] == e;
    }
  }

  lemma PruneRemovesBoth(v: Vol, d: Path, cap: int)
    requires Valid(v) && d != []
    requires |BackupInfoOf(v, d).backups| == 2
    requires BackupInfoOf(v, d).totalSize > cap
    ensures var bs := BackupInfoOf(v, d).backups;
            !IsDir(Prune(v, d, 1, cap, {}), bs[0].path) && !IsDir(Prune(v, d, 1, cap, {}), bs[1].path)
  {
    var info := BackupInfoOf(v, d);
    var bs := info.backups;
    CountPassKeepsNewest(v, d, 1, {});
    var v1 := RemoveAll(v, CountVictims(bs, 1), {});
    assert !IsDir(v1, bs[1].path);
    PruneTwo(v, d, cap);
    SizePassSkipsGone(v1, bs[1], bs[0], info.totalSize, cap);
  }

  /** With two snapshots over the cap and a limit of one, the size pass runs over both, oldest first. */
  lemma PruneTwo(v: Vol, d: Path, cap: int)
    requires |BackupInfoOf(v, d).backups| == 2
    requires BackupInfoOf(v, d).totalSize > cap
    ensures var info := BackupInfoOf(v, d);
            var bs := info.backups;
            Prune(v, d, 1, cap, {}) == SizePass(RemoveAll(v, CountVictims(bs, 1), {}), [bs[1], bs[0]], info.totalSize, cap, {})
  {
    var bs := BackupInfoOf(v, d).backups;
    assert Reverse(bs) == [bs[1], bs[0]];
  }

  lemma SizePassSkipsGone(v: Vol, gone: BackupEntry, present: BackupEntry, total: int, cap: int)
    requires !IsDir(v, gone.path) && total > cap
    ensures !IsDir(SizePass(v, [gone, present], total, cap, {}), gone.path)
    ensures !IsDir(SizePass(v, [gone, present], total, cap, {}), present.path)
  {
    assert [gone, present][1..] == [present];
    assert SizePass(v, [gone, present], total, cap, {}) == SizePass(v, [present], total, cap, {});
    assert [present][1..] == [];
    if IsDir(v, present.path) {
      var w := RemoveTree(v, present.path);
      assert SizePass(v, [present], total, cap, {}) == SizePass(w, [], total - present.size, cap, {}) == w;
    } else {
      assert SizePass(v, [present], total, cap, {}) == SizePass(v, [], total, cap, {}) == v;
    }
  }

  /** The size pass never brings back a snapshot that is gone. */
  lemma {:induction false} SizePassKeepsGone(v: Vol, es: seq<BackupEntry>, remaining: int, cap: int, fails: set<Path>, p: Path)
    requires !IsDir(v, p)
    ensures !IsDir(SizePass(v, es, remaining, cap, fails), p)
    decreases |es|
  {
    if es != [] && remaining > cap {
      var (v1, ok) := TryRemoveTree(v, es[0].path, fails);
      SizePassKeepsGone(v1, es[1..], if ok then remaining - es[0].size else remaining, cap, fails, p);
    }
  }

  /** With numeric limits the call succeeds and prunes exactly as the two passes do. */
  lemma CleanOldBackupsNumeric(v: Vol, d: Path, maxBackups: int, cap: int, fails: set<Path>)
    ensures CleanOldBackupsOf(v, d, VInt(maxBackups), VInt(cap), fails) == (true, Prune(v, d, maxBackups, cap, fails))
  {
  }

  /**
   * A count limit that is not a number fails before anything is removed; a size limit that is
   * not a number fails after the count pass has run.
   */
  lemma CleanOldBackupsNonNumeric(v: Vol, d: Path, maxBackups: Value, cap: Value, fails: set<Path>)
    ensures AsInt(maxBackups).None? ==> CleanOldBackupsOf(v, d, maxBackups, cap, fails) == (false, v)
    ensures AsInt(maxBackups).Some? && AsInt(cap).None? ==>
              CleanOldBackupsOf(v, d, maxBackups, cap, fails)
              == (false, RemoveAll(v, CountVictims(BackupInfoOf(v, d).backups, AsInt(maxBackups).value), fails))
  {
  }

  // ---------------------------------------------------------------- restore

  /** Where `restore_backup` puts a snapshot file: `C:\` followed by its path inside the snapshot. */
  function RestoreTarget(f: Path, snap: Path): Path
    requires Under(f, snap)
  {
    Join("C:\\", RelPath(f, snap))
  }

  /**
   * Where `shutil.copy2(src, dst)` writes: into `dst` under the source's base name when `dst`
   * is a directory, otherwise at `dst` itself.
   */
  function CopyDest(v: Vol, src: Path, dst: Path): (r: Path)
    ensures StartsWith(r, dst)
  {
    if IsDir(v, dst) then Join(dst, Basename(src)) else dst
  }

  /**
   * `shutil.copy2(src, dst)`: the file's node (size and mtime) appears at `CopyDest(v, src, dst)`;
   * it fails when the oracle names `src`, when `src` is not a file, or when that destination is
   * itself a directory. (Copying a file onto itself raises too; the volume is the same either way.)
   */
  function TryCopy(v: Vol, src: Path, dst: Path, fails: set<Path>): (Vol, bool)
  {
    var t := CopyDest(v, src, dst);
    if IsFile(v, src) && src !in fails && !IsDir(v, t) then (Put(v, t, v.nodes[src]), true) else (v, false)
  }

  /** A copy succeeds exactly when the source is a file the oracle lets through and the destination is no directory; only that destination changes, and no directory appears or goes. */
  lemma TryCopyFacts(v: Vol, src: Path, dst: Path, fails: set<Path>)
    ensures var (w, ok) := TryCopy(v, src, dst, fails);
            var t := CopyDest(v, src, dst);
            (ok <==> IsFile(v, src) && src !in fails && !IsDir(v, t))
            && (ok ==> w.nodes == v.nodes[t := v.nodes[src]])
            && (!ok ==> w == v)
            && (forall x :: IsDir(w, x) <==> IsDir(v, x))
  {
  }

  /**
   * `os.makedirs(os.path.dirname(dst), exist_ok=True)` followed by `shutil.copy2(src, dst)`, in
   * one `try`: nothing is copied when that parent cannot be made a directory because a file is
   * in the way. The directory `makedirs` would create is not added (see README), and any other
   * refusal is the copy oracle's to decide.
   */
  function CopyWithParent(v: Vol, src: Path, dst: Path, fails: set<Path>): (Vol, bool)
  {
    if MakeDirsFails(v, Dirname(dst), false) then (v, false) else TryCopy(v, src, dst, fails)
  }

  /** The parent-making copy succeeds exactly when the parent is clear and the copy itself goes through, with the effect of that copy. */
  lemma CopyWithParentFacts(v: Vol, src: Path, dst: Path, fails: set<Path>)
    ensures var (w, ok) := CopyWithParent(v, src, dst, fails);
            var t := CopyDest(v, src, dst);
            (ok <==> !MakeDirsFails(v, Dirname(dst), false) && IsFile(v, src) && src !in fails && !IsDir(v, t))
            && (ok ==> w.nodes == v.nodes[t := v.nodes[src]])
            && (!ok ==> w == v)
            && (forall x :: IsDir(w, x) <==> IsDir(v, x))
  {
    TryCopyFacts(v, src, dst, fails);
  }

  /** Copying onto an existing directory puts the file inside it, under its own base name. */
  lemma CopyIntoDirectory(v: Vol, src: Path, dst: Path)
    requires IsFile(v, src) && IsDir(v, dst) && !IsDir(v, Join(dst, Basename(src)))
    ensures var w := TryCopy(v, src, dst, {}).0;
            IsDir(w, dst) && IsFile(w, Join(dst, Basename(src))) && w.nodes[Join(dst, Basename(src))] == v.nodes[src]
  {
  }

  /** Where `restore_backup` ends up writing the snapshot file `f`: its target, or inside it when the target is a directory. */
  function RestoreDest(v: Vol, f: Path, snap: Path): Path
    requires Under(f, snap)
  {
    CopyDest(v, f, RestoreTarget(f, snap))
  }

  /**
   * The copy of `f` goes through: no file is in the way of its target's parent directory, `f`
   * is a file the oracle lets through, and its destination is no directory.
   */
  predicate Restored(v: Vol, f: Path, snap: Path, fails: set<Path>)
    requires Under(f, snap)
  {
    !MakeDirsFails(v, Dirname(RestoreTarget(f, snap)), false)
    && IsFile(v, f) && f !in fails && !IsDir(v, RestoreDest(v, f, snap))
  }

  /** Make each listed file's parent directory and copy it to its target, in turn; a failure skips that file. */
  function RestoreFiles(v: Vol, snap: Path, files: seq<Path>, fails: set<Path>): Vol
    decreases |files|
  {
    if files == [] then v
    else
      var f := files[0];
      var v1 := if Under(f, snap) then CopyWithParent(v, f, RestoreTarget(f, snap), fails).0 else v;
      RestoreFiles(v1, snap, files[1..], fails)
  }

  /** `restore_backup(snap)`: refused unless `snap` is a directory; otherwise every file is copied back. */
  function Restore(v: Vol, snap: Path, fails: set<Path>): (bool, Vol)
  {
    if !IsDir(v, snap) then (false, v) else (true, RestoreFiles(v, snap, Files(v, snap), fails))
  }

  /** Different snapshot files have different targets. */
  lemma RestoreTargetInjective(f: Path, g: Path, snap: Path)
    requires Under(f, snap) && Under(g, snap) && f != g
    ensures RestoreTarget(f, snap) != RestoreTarget(g, snap)
  {
    assert f == Prefix(snap) + RelPath(f, snap) && g == Prefix(snap) + RelPath(g, snap);
  }

  /**
   * The files a restore walks: files below the snapshot, none of whose destinations lies within
   * it, and none of whose destinations is, or lies above, the parent directory of another's
   * target. In a real tree the last holds: it would take one file of the snapshot to lie below
   * another.
   */
  predicate RestoreInput(v: Vol, snap: Path, files: seq<Path>)
  {
    (forall f :: f in files ==> Under(f, snap) && IsFile(v, f) && !Within(RestoreDest(v, f, snap), snap))
    && forall f, g :: f in files && g in files ==> !Within(Dirname(RestoreTarget(g, snap)), RestoreDest(v, f, snap))
  }

  /** `q` is where the copy of some listed file goes through to. */
  predicate RestoredTo(v: Vol, snap: Path, files: seq<Path>, fails: set<Path>, q: Path)
    requires forall f :: f in files ==> Under(f, snap)
  {
    exists f :: f in files && Restored(v, f, snap, fails) && q == RestoreDest(v, f, snap)
  }

  /** The copy of the first file leaves the other files, their destinations and every directory as they were. */
  lemma RestoreStep(v: Vol, snap: Path, files: seq<Path>, fails: set<Path>)
    requires files != [] && RestoreInput(v, snap, files)
    ensures var f := files[0];
            var v1 := CopyWithParent(v, f, RestoreTarget(f, snap), fails).0;
            RestoreInput(v1, snap, files[1..])
            && (forall x :: IsDir(v1, x) <==> IsDir(v, x))
            && (Restored(v, f, snap, fails) ==> v1.nodes == v.nodes[RestoreDest(v, f, snap) := v.nodes[f]])
            && (!Restored(v, f, snap, fails) ==> v1 == v)
            && (forall g :: g in files[1..] ==>
                  v1.nodes[g] == v.nodes[g] && RestoreDest(v1, g, snap) == RestoreDest(v, g, snap)
                  && (Restored(v1, g, snap, fails) <==> Restored(v, g, snap, fails)))
  {
    var f := files[0];
    CopyWithParentFacts(v, f, RestoreTarget(f, snap), fails);
    var t := RestoreDest(v, f, snap);
    assert !Within(t, snap);
    var v1 := CopyWithParent(v, f, RestoreTarget(f, snap), fails).0;
    forall g | g in files[1..]
      ensures g != t && IsFile(v1, g) && RestoreDest(v1, g, snap) == RestoreDest(v, g, snap)
      ensures MakeDirsFails(v1, Dirname(RestoreTarget(g, snap)), false) == MakeDirsFails(v, Dirname(RestoreTarget(g, snap)), false)
    {
      assert g in files;
      assert IsDir(v1, RestoreTarget(g, snap)) == IsDir(v, RestoreTarget(g, snap));
      FileInTheWayKept(v, v1, Dirname(RestoreTarget(g, snap)), {t});
    }
  }

  /** Restoring leaves every directory as it was. */
  lemma {:induction false} RestoreFilesDirs(v: Vol, snap: Path, files: seq<Path>, fails: set<Path>)
    requires RestoreInput(v, snap, files)
    ensures forall x :: IsDir(RestoreFiles(v, snap, files, fails), x) <==> IsDir(v, x)
    decreases |files|
  {
    if files != [] {
      RestoreStep(v, snap, files, fails);
      RestoreFilesDirs(CopyWithParent(v, files[0], RestoreTarget(files[0], snap), fails).0, snap, files[1..], fails);
    }
  }

  /** A path that no copy goes through to keeps its node. */
  lemma {:induction false} RestoreFilesKeeps(v: Vol, snap: Path, files: seq<Path>, fails: set<Path>)
    requires RestoreInput(v, snap, files)
    ensures var w := RestoreFiles(v, snap, files, fails);
            forall q :: q in v.nodes && !RestoredTo(v, snap, files, fails, q) ==> q in w.nodes && w.nodes[q] == v.nodes[q]
    decreases |files|
  {
    if files != [] {
      var f := files[0];
      var rest := files[1..];
      RestoreStep(v, snap, files, fails);
      var v1 := CopyWithParent(v, f, RestoreTarget(f, snap), fails).0;
      RestoreFilesKeeps(v1, snap, rest, fails);
      forall q | q in v.nodes && !RestoredTo(v, snap, files, fails, q)
        ensures q in v1.nodes && v1.nodes[q] == v.nodes[q] && !RestoredTo(v1, snap, rest, fails, q)
      {
        assert Restored(v, f, snap, fails) ==> q != RestoreDest(v, f, snap);
      }
    }
  }

  /** Nothing appears but where a copy goes through to. */
  lemma {:induction false} RestoreFilesAdds(v: Vol, snap: Path, files: seq<Path>, fails: set<Path>)
    requires RestoreInput(v, snap, files)
    ensures var w := RestoreFiles(v, snap, files, fails);
            forall q :: q in w.nodes ==> q in v.nodes || RestoredTo(v, snap, files, fails, q)
    decreases |files|
  {
    if files != [] {
      var f := files[0];
      var rest := files[1..];
      RestoreStep(v, snap, files, fails);
      var v1 := CopyWithParent(v, f, RestoreTarget(f, snap), fails).0;
      RestoreFilesAdds(v1, snap, rest, fails);
      var w := RestoreFiles(v1, snap, rest, fails);
      forall q | q in w.nodes
        ensures q in v.nodes || RestoredTo(v, snap, files, fails, q)
      {
        if RestoredTo(v1, snap, rest, fails, q) {
          var g :| g in rest && Restored(v1, g, snap, fails) && q == RestoreDest(v1, g, snap);
          assert g in files;
        } else if q !in v.nodes {
          assert q == RestoreDest(v, f, snap);
        }
      }
    }
  }

  /** `t` holds, in `w`, the node `v` gave a listed file whose copy goes through to `t`. */
  predicate LandsAt(v: Vol, w: Vol, snap: Path, files: seq<Path>, fails: set<Path>, t: Path)
    requires forall f :: f in files ==> Under(f, snap)
  {
    t in w.nodes
    && exists g :: g in files && Restored(v, g, snap, fails) && RestoreDest(v, g, snap) == t && w.nodes[t] == v.nodes[g]
  }

  /** What lands from the later files after the first copy lands from the whole list. */
  lemma LandsAtStep(v: Vol, w: Vol, snap: Path, files: seq<Path>, fails: set<Path>, t: Path)
    requires files != [] && RestoreInput(v, snap, files)
    requires LandsAt(CopyWithParent(v, files[0], RestoreTarget(files[0], snap), fails).0, w, snap, files[1..], fails, t)
    ensures LandsAt(v, w, snap, files, fails, t)
  {
    RestoreStep(v, snap, files, fails);
    var v1 := CopyWithParent(v, files[0], RestoreTarget(files[0], snap), fails).0;
    var g :| g in files[1..] && Restored(v1, g, snap, fails) && RestoreDest(v1, g, snap) == t && w.nodes[t] == v1.nodes[g];
    assert g in files;
  }

  /** Each copy that goes through leaves its destination holding the node of a listed file copied there. */
  lemma {:induction false} RestoreFilesLands(v: Vol, snap: Path, files: seq<Path>, fails: set<Path>)
    requires RestoreInput(v, snap, files)
    ensures var w := RestoreFiles(v, snap, files, fails);
            forall f :: f in files && Restored(v, f, snap, fails) ==> LandsAt(v, w, snap, files, fails, RestoreDest(v, f, snap))
    decreases |files|
  {
    if files != [] {
      var f := files[0];
      var rest := files[1..];
      RestoreStep(v, snap, files, fails);
      var v1 := CopyWithParent(v, f, RestoreTarget(f, snap), fails).0;
      RestoreFilesLands(v1, snap, rest, fails);
      RestoreFilesKeeps(v1, snap, rest, fails);
      var w := RestoreFiles(v1, snap, rest, fails);
      forall f' | f' in files && Restored(v, f', snap, fails)
        ensures LandsAt(v, w, snap, files, fails, RestoreDest(v, f', snap))
      {
        var t' := RestoreDest(v, f', snap);
        if RestoredTo(v1, snap, rest, fails, t') {
          var g :| g in rest && Restored(v1, g, snap, fails) && t' == RestoreDest(v1, g, snap);
          LandsAtStep(v, w, snap, files, fails, t');
        } else {
          assert f' == f;
          assert t' in v1.nodes && v1.nodes[t'] == v.nodes[f];
        }
      }
    }
  }

  /** A destination no other copied file shares holds the node of its own file. */
  lemma LandsOwn(v: Vol, w: Vol, snap: Path, files: seq<Path>, fails: set<Path>, f: Path)
    requires forall g :: g in files ==> Under(g, snap)
    requires f in files && Restored(v, f, snap, fails) && LandsAt(v, w, snap, files, fails, RestoreDest(v, f, snap))
    requires forall g :: g in files && g != f && Restored(v, g, snap, fails) ==> RestoreDest(v, g, snap) != RestoreDest(v, f, snap)
    ensures RestoreDest(v, f, snap) in w.nodes && w.nodes[RestoreDest(v, f, snap)] == v.nodes[f]
  {
  }

  /** With no directory at any target, different snapshot files have different destinations. */
  lemma PlainTargetsDistinct(v: Vol, snap: Path, f: Path, g: Path)
    requires Under(f, snap) && Under(g, snap) && f != g
    requires !IsDir(v, RestoreTarget(f, snap)) && !IsDir(v, RestoreTarget(g, snap))
    ensures RestoreDest(v, f, snap) != RestoreDest(v, g, snap)
  {
    RestoreTargetInjective(f, g, snap);
  }

  /**
   * `restore_backup(snap)`: it reports success exactly when `snap` is a directory. Then, when
   * no destination lies within the snapshot, each of its files whose copy goes through is found
   * at `C:\\` followed by its path inside the snapshot (or inside the directory found there),
   * holding the node of a file copied there; every path no copy goes through to keeps its node;
   * nothing appears anywhere but at such a destination; and no directory appears or goes.
   */
  lemma RestorePlaces(v: Vol, snap: Path, fails: set<Path>)
    requires Valid(v) && RestoreInput(v, snap, Files(v, snap))
    ensures Restore(v, snap, fails).0 <==> IsDir(v, snap)
    ensures var w := Restore(v, snap, fails).1;
            var fs := Files(v, snap);
            (forall f :: f in fs && Restored(v, f, snap, fails) ==> LandsAt(v, w, snap, fs, fails, RestoreDest(v, f, snap)))
            && (forall q :: q in v.nodes && !RestoredTo(v, snap, fs, fails, q) ==> q in w.nodes && w.nodes[q] == v.nodes[q])
            && (forall q :: q in w.nodes ==> q in v.nodes || RestoredTo(v, snap, fs, fails, q))
            && (forall x :: IsDir(w, x) <==> IsDir(v, x))
  {
    var fs := Files(v, snap);
    if IsDir(v, snap) {
      RestoreFilesDirs(v, snap, fs, fails);
      RestoreFilesKeeps(v, snap, fs, fails);
      RestoreFilesAdds(v, snap, fs, fails);
      RestoreFilesLands(v, snap, fs, fails);
    }
  }

  /**
   * A restored file whose destination no other copied file shares is found there with its own
   * size and mtime; and when no target is a directory, no two files share a destination.
   */
  lemma RestoreOwnNode(v: Vol, snap: Path, fails: set<Path>)
    requires Valid(v) && RestoreInput(v, snap, Files(v, snap))
    ensures var w := Restore(v, snap, fails).1;
            var fs := Files(v, snap);
            (forall f :: f in fs && Restored(v, f, snap, fails)
                         && (forall g :: g in fs && g != f && Restored(v, g, snap, fails) ==> RestoreDest(v, g, snap) != RestoreDest(v, f, snap)) ==>
                RestoreDest(v, f, snap) in w.nodes && w.nodes[RestoreDest(v, f, snap)] == v.nodes[f])
            && (forall f, g :: f in fs && g in fs && f != g && !IsDir(v, RestoreTarget(f, snap)) && !IsDir(v, RestoreTarget(g, snap)) ==>
                RestoreDest(v, f, snap) != RestoreDest(v, g, snap))
  {
    var fs := Files(v, snap);
    var w := Restore(v, snap, fails).1;
    RestorePlaces(v, snap, fails);
    forall f, g | f in fs && g in fs && f != g && !IsDir(v, RestoreTarget(f, snap)) && !IsDir(v, RestoreTarget(g, snap))
      ensures RestoreDest(v, f, snap) != RestoreDest(v, g, snap)
    {
      PlainTargetsDistinct(v, snap, f, g);
    }
    forall f | f in fs && Restored(v, f, snap, fails)
               && (forall g :: g in fs && g != f && Restored(v, g, snap, fails) ==> RestoreDest(v, g, snap) != RestoreDest(v, f, snap))
      ensures RestoreDest(v, f, snap) in w.nodes && w.nodes[RestoreDest(v, f, snap)] == v.nodes[f]
    {
      LandsOwn(v, w, snap, fs, fails, f);
    }
  }

  /**
   * A file standing where a restored file's parent directory must go (`C:\a` a file, the
   * snapshot holding `a\b.txt`): `os.makedirs` raises, the copy is skipped, the restore still
   * reports success, and the file in the way keeps its node.
   */
  lemma RestoreBlockedParent(v: Vol, snap: Path, fails: set<Path>, f: Path)
    requires Valid(v) && RestoreInput(v, snap, Files(v, snap)) && f in Files(v, snap)
    requires IsFile(v, Dirname(RestoreTarget(f, snap)))
    ensures !Restored(v, f, snap, fails)
    ensures var p := Dirname(RestoreTarget(f, snap));
            var (ok, w) := Restore(v, snap, fails);
            ok && p in w.nodes && w.nodes[p] == v.nodes[p]
  {
    var fs := Files(v, snap);
    var p := Dirname(RestoreTarget(f, snap));
    assert FileInTheWay(v, p) by {
      assert p in v.nodes && v.nodes[p].File? && p == p;
    }
    RestorePlaces(v, snap, fails);
    assert !RestoredTo(v, snap, fs, fails, p) by {
      forall g | g in fs
        ensures p != RestoreDest(v, g, snap)
      {
        assert !Within(p, RestoreDest(v, g, snap));
      }
    }
  }
}
