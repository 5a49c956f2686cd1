# C-drive cleaner engine, modelled in Dafny

This project models the engine of a Windows C-drive cleaner. The engine is the `CleanerLogic`
class of `cleaner_logic.py`, together with the parts of the backup manager window
(`backup_manager.py`) that validate and display backup settings.

- **Scanning.** The engine runs thirty-three scan rules over the file system. Each rule walks
  a few known directories (temporary files, caches, logs, crash dumps, the recycle bin, large
  files in the user profiles) and reports findings: a path, a size, a category and sometimes a
  subtype, a modification time, an extension or a file count. Each rule writes under its own key
  of a results map.
- **Path veto.** A raw, case-sensitive prefix test (`_is_safe_path`) keeps system paths out of
  both scanning and cleaning.
- **Cleaning.** `clean_selected` cleans the chosen findings one by one. Directories are emptied
  bottom-up, files are moved to the recycle bin or removed, and the recycle bin is emptied
  outright. Before that, with backups on, the engine creates a snapshot directory named after
  the current time below the backup directory and copies each file there. In simulate mode
  nothing is removed, but the freed-space figure is still reported.
- **The backup store.** The snapshot directories are listed newest first and pruned in two
  passes: a count pass keeps the newest `max_backups`; a size pass then deletes from the oldest
  while the total exceeds `max_backup_size`. A snapshot can be restored to drive C.
- **Start-up.** The engine picks its default backup directory on the first non-C drive that
  exists. If there is none, it uses the temporary directory.
- **The backup manager window.** It accepts new limits only when both fields are positive
  integers, converts megabytes to bytes and back, refuses a blank backup directory, and shows
  sizes in B, KB, MB or GB.

The model is organised as follows.

- **The file system** (`Volume`) is a map from path to node: a file with size and modification
  time, or a directory with a creation time. Alongside it is the order in which the operating
  system enumerates paths.
- **Paths** (`WinPath`) are `ntpath` strings. Joining, "lies below", relative paths, base names
  and extensions behave as `ntpath` does on them.
- **Specification functions** describe each operation: the scan of a target, a rule's outcome,
  the whole scan, `_clean_file`, `_clean_directory`, one item of `clean_selected`, the pruning
  passes, and the restore.
- **The engine** is a class whose fields are the source's fields (`options`, `safe_paths`,
  `backup_dir`, `max_backups`, `max_backup_size`) plus the volume it acts on. Its methods run
  the source's loops as `while` loops. Each is proved to end in the state the specification
  function gives.
- **The backup manager window** is a class whose fields are the texts it shows.
- **Inputs from outside** are parameters:
  - the environment variables, the home directory, the matches of each glob pattern, and the
    current time (`Host`);
  - the `GetLogicalDrives` bitmask;
  - which deletions, copies and recycle-bin moves fail (`Faults`);
  - which rules raise an unexpected error part-way (a map from rule to the number of findings
    appended before the error).

In these places the code does something its names and comments do not suggest; the model follows the code:

- **Path veto.** The veto matches raw string prefixes. It therefore refuses unrelated
  neighbours such as `C:\Program Files2\...` and `C:\Windows\System32Backup\...`
  (`PathSafety.RawPrefixOverreaches`). It also accepts lower-case or slash-separated spellings
  of protected paths (`PathSafety.VetoIsCaseSensitive`).
- **No validation in `set_options`.** `set_options` checks nothing: zero, negative or text
  limits are stored as given (`Options.NoValidation`). Only the backup manager window refuses
  them.
- **Pruning.** The size pass ignores the count pass and can delete every snapshot, the newest
  one included (`BackupStore.PruneCanEmptyStore`).
- **Simulate mode:**
  - it counts each item's size twice (`CleanExecutor.SimulateCountsTwice`);
  - it still creates the snapshot directory and prunes the store (`Engine.SimulateStillPrunes`).
- **Restore.** It writes every file to `C:\` joined with its path relative to the snapshot,
  whatever drive it came from (`BackupStore.RestorePlaces`). Where a directory already stands at
  that place, `copy2` puts the file inside it under its base name (`BackupStore.CopyIntoDirectory`).
- **Snapshot names.** `strptime` is more lenient than the names the engine writes: a one-digit
  day is read, the matcher backtracks, and digits of any script count, so two different
  directory names can denote the same time (`Clock.ShortDayParses`, `Clock.MonthBacktracks`,
  `Clock.TwoNamesOneTime`).
- **Failed directory creation.** `os.makedirs` raises when a file is in the way or the system
  refuses. At start-up this aborts construction (`Engine.CleanerLogic.Start`); in `set_options`
  it leaves the new options and directory stored but the limits unchanged
  (`Engine.CleanerLogic.SetOptions`); in `clean_selected` it aborts the run before any item
  (`Engine.SnapshotPathTaken`). Before each backup or restore copy, `os.makedirs` of the
  target's parent directory raises when a file stands at that parent or above it; the copy is
  then skipped and the loop goes on (`BackupStore.RestoreBlockedParent`,
  `CleanExecutor.CleanDirectoryBlockedParent`).
- **File backups.** `_clean_file` backs a file up under its base name only, so two files with
  the same name overwrite each other's backup (`CleanExecutor.FileBackupsCollide`).
- **Rule registration:**
  - `_scan_downloads`, `_scan_installer_cache`, `_scan_hibernation_file` and
    `_scan_network_cache` are never registered (`RuleTable.UnregisteredRules`);
  - the hibernation rule would raise anyway, because its key is missing
    (`RuleTable.HibernationRaises`);
  - the DNS, printer and network rules can never report anything, because all their paths lie
    under `C:\Windows\System32` (`RuleTable.DnsCacheSilent` and its neighbours).

## Model

| member | source | states |
|---|---|---|
| Text.Lower | cleaner_logic.py:1684 | `str.lower` never shortens the text |
| Text.LowerChar | cleaner_logic.py:1684 | each character lowers to one character, except the dotted capital I, which lowers to two |
| Text.LowerPerChar | cleaner_logic.py:1684 | text without a dotted capital I keeps its length and each position is lowered on its own |
| Text.LowerAppend | cleaner_logic.py:1684 | lowering a concatenation concatenates the lowered parts |
| Text.LowerSpecialCases | cleaner_logic.py:1684 | the dotted capital I lowers to `i` plus a combining dot, and the Kelvin sign to an ASCII `k` |
| Text.Strip | backup_manager.py:172 | the result is a slice of the input; everything cut off on either side is whitespace; the result neither starts nor ends with whitespace |
| Text.StripEmptyIff | backup_manager.py:172-176 | stripping leaves nothing exactly when the text is all whitespace, which is when the directory field is refused |
| Text.StripKeepsTrimmed | backup_manager.py:172 | text without surrounding whitespace is left unchanged by `strip` |
| Text.NatToString | backup_manager.py:149 | `str` of a natural number is a non-empty string of digits |
| Text.IntToString | backup_manager.py:149 | `str` of an integer ends in a digit, starts with a digit when non-negative and with `-` when negative |
| Text.NatToStringValue | backup_manager.py:149 | the digits `str` writes form a well-formed decimal literal that denotes the number |
| Text.ParseInt | backup_manager.py:193-194 | defines `int(s)` in base 10: the blanks `int()` skips are dropped from both ends, then an optional sign and digits of any script with single underscores between them give the number, anything else is refused; its properties are the `ParseInt` lemmas below |
| Text.ParseIntToString | backup_manager.py:193-194 | `int(str(n)) == n` for every integer, so the displayed limits parse back to themselves |
| Text.ParseIntIgnoresSurroundingSpace | backup_manager.py:193-194 | `int()` ignores the blanks it skips (whitespace other than U+001C to U+001F) around the digits |
| Text.ParseIntAcceptsUnderscore | backup_manager.py:193-194 | `int()` accepts a single underscore between digits (`1_024` is 1024) |
| Text.ParseIntRefuses | backup_manager.py:193-194 | `int()` refuses the empty text, a decimal point and a doubled underscore |
| Text.ParseIntSpaces | backup_manager.py:193-194 | `int()` reads a number padded with a no-break space but refuses one padded with U+001C, although `str.isspace()` holds for both |
| Text.DigitZeroOf | backup_manager.py:193-194 | a character of a Unicode decimal-digit block has its block's zero at most nine code points below it |
| Text.AsciiDigit | backup_manager.py:193-194 | below the first non-ASCII digit block, the digits `int()` reads are exactly `0`-`9`, with their usual values |
| Text.FullWidthDigit | backup_manager.py:193-194 | a full-width digit is a digit whose value is its distance from the full-width zero |
| Text.DigitNotSpace | backup_manager.py:193-194 | no digit is whitespace, so stripping never eats a digit |
| Text.ParseIntFullWidth | backup_manager.py:193-194 | `int()` reads full-width digits: `１２` is 12 and `３0` is 30 |
| WinPath.Prefix | cleaner_logic.py:1892 | the prefix a path below `d` starts with is `d` itself or `d` plus one backslash |
| WinPath.Join | cleaner_logic.py:267 | `os.path.join` keeps the base as a prefix and adds exactly the relative part after the separator |
| WinPath.RelPath | cleaner_logic.py:264 | `os.path.relpath` of a path below `d` is non-empty and joins back onto `d` to give the path |
| WinPath.Dirname | cleaner_logic.py:271 | `os.path.dirname` of a path is a prefix of it: the directory `makedirs` is asked to make before a copy |
| WinPath.Basename | cleaner_logic.py:1804-1812 | the base name is the path's last component: a separator-free suffix preceded by a separator or the start of the path |
| WinPath.LastDot | cleaner_logic.py:1694 | the extension starts at the last dot of the base name, with no dot after it |
| WinPath.JoinUnder | cleaner_logic.py:264-267 | joining a non-empty relative part onto `d` gives a path below `d` whose relative path is that part |
| WinPath.UnderTrans | cleaner_logic.py:1892 | "lies below" is transitive, as a nested walk requires |
| WinPath.UnderIrreflexive | cleaner_logic.py:1892 | no path lies below itself |
| WinPath.SiblingsDisjoint | cleaner_logic.py:159-161 | two distinct entries of a directory listing never lie below one another |
| WinPath.BareDriveJoin | cleaner_logic.py:60-63 | joining onto a bare drive `D:` inserts no separator, so the default backup directory is drive-relative |
| WinPath.ExtIsSuffix | cleaner_logic.py:1694 | `os.path.splitext` gives either nothing or a dot-led suffix of the base name with no further dot |
| WinPath.LeadingDotNoExt | cleaner_logic.py:1694 | a base name whose only dot is its first character has no extension |
| Volume.Files | cleaner_logic.py:164-171 | the files a walk of `d` visits are exactly the listed files below an existing directory `d` |
| Volume.DirsBelow | cleaner_logic.py:1917-1924 | the directories a walk below `d` visits are exactly the listed directories below `d` |
| Volume.ChildNames | cleaner_logic.py:159-160 | every name `os.listdir(d)` returns is a single component that joins onto `d` to give a listed path |
| Volume.RemoveTree | cleaner_logic.py:222 | `shutil.rmtree(d)` removes `d` and everything below it and leaves every other node unchanged |
| Volume.ClearBelow | cleaner_logic.py:1931-1944 | emptying a directory removes exactly what lies below it and leaves it in place |
| Volume.EnsureDir | cleaner_logic.py:75-76 | `os.makedirs(p, exist_ok=True)` changes nothing when `p` exists and otherwise adds one directory |
| Volume.FilesNoDups | cleaner_logic.py:164-171 | a walk visits each file once |
| Volume.SumSizesAppend | cleaner_logic.py:164-171 | summing file sizes over a concatenated walk adds the two sums |
| Seqs.Filter | cleaner_logic.py:164-171 | filtering keeps exactly the elements that pass, in their order |
| Sorting.SortDescFacts | cleaner_logic.py:1709 | `sorted(..., reverse=True)` yields a descending permutation of the input with the same length |
| Sorting.SortDescSum | cleaner_logic.py:192 | sorting does not change the sum of any per-element quantity |
| Sorting.InsertDescWithKey | cleaner_logic.py:191 | inserting an element places it after every element with the same key |
| Sorting.SortDescStable | cleaner_logic.py:191 | sorting keeps the elements of each key in their input order, as Python's stable sort does with `reverse=True` |
| Clock.Pad | cleaner_logic.py:1733 | each `strftime` field is exactly as wide as its format asks and made of digits |
| Clock.PadValue | cleaner_logic.py:1733 | a padded field's digits denote the number it was written from |
| Clock.SnapshotName | cleaner_logic.py:1733 | a snapshot name is fifteen characters with `_` in position 8 |
| Clock.SnapshotNameFields | cleaner_logic.py:1733 | the name is year, month and day, `_`, then hour, minute and second, each zero-padded |
| Clock.ParseSnapshotName | cleaner_logic.py:175 | a name `strptime` accepts denotes a valid civil time |
| Clock.ParseSnapshotNameOfName | cleaner_logic.py:175 | `strptime` of a name `strftime` wrote gives back the same time |
| Clock.MatchGroups | cleaner_logic.py:175 | a match of the snapshot pattern gives one end position per group, in order, none before the start or past the text |
| Clock.TryFirst | cleaner_logic.py:175 | the matcher commits to the first alternative of a group that fits and after which the rest of the pattern matches |
| Clock.NoAltFits | cleaner_logic.py:175 | when no alternative of a group fits, the match fails |
| Clock.SnapshotNameMatch | cleaner_logic.py:175 | on text starting with a written name, every field takes its full width and the match ends after the seconds |
| Clock.TrailingTextRefused | cleaner_logic.py:175 | a written name followed by more text is refused as unconverted data |
| Clock.ShortDayParses | cleaner_logic.py:175 | `strptime` reads a one-digit day: `2024111_123456` is 1 November 2024 |
| Clock.TwoNamesOneTime | cleaner_logic.py:175 | two different names parse to the same time, so names and times are not one to one |
| Clock.MonthBacktracks | cleaner_logic.py:175 | the matcher backtracks: in `202411_123456` the month gives up a digit and the name is 1 January 2024 |
| Clock.FullWidthYearParses | cleaner_logic.py:175 | a year written in full-width digits is read like an ASCII one |
| Clock.YearLength | cleaner_logic.py:186 | the epoch conversion gives a year 366 days when leap and 365 otherwise |
| Clock.MonthsLength | cleaner_logic.py:186 | the month lengths of a year add up to the year's length |
| Clock.EpochOf | cleaner_logic.py:186 | defines `timestamp()` of a civil time as seconds since 1970 counted in the proleptic Gregorian calendar; `EpochOfMonotone` and `EpochOfWithinYear` state its order and range |
| Clock.EpochOfMonotone | cleaner_logic.py:186-192 | a later civil time has a strictly larger timestamp, so sorting by timestamp is sorting by name time |
| Clock.EpochOfWithinYear | cleaner_logic.py:186 | a civil time's timestamp lies between the first second of its year and the first second of the next |
| Clock.LocalTimeOk | cleaner_logic.py:178-186 | defines the seconds `fromtimestamp` and `timestamp()` accept on Windows, from 0 to the last second of year 3000; `LocalTimeOkIff` states it in years |
| Clock.LocalTimeOkIff | cleaner_logic.py:186 | `timestamp()` accepts a civil time exactly when its year is from 1970 to 3000 |
| Clock.OlderThanDaysIff | cleaner_logic.py:1061 | `(now - mtime).days > n` holds exactly when at least `n + 1` whole days have passed |
| Clock.AgeTestsDiffer | cleaner_logic.py:603-617 | a file 30 days and one second old passes the download rule's threshold test but fails the backup-temp rule's `.days > 30` test |
| Options.AsInt | cleaner_logic.py:216 | a limit compares as a number exactly when it is a Boolean or an integer; an integer compares as itself |
| Options.Merged | cleaner_logic.py:78-105 | defines the settings after `set_options(o)`: `o` merged into the options, the directory taken only when truthy, each limit taken whenever its key is present; `MergedFacts` states it key by key |
| Options.MergedUntilDir | cleaner_logic.py:78-87 | defines the settings `set_options` leaves when creating the new directory raises: options merged and directory taken, limits not yet read |
| Options.MergedFacts | cleaner_logic.py:78-105 | after `set_options(o)`, every key of `o` has its new value and every other key keeps its old one; the directory changes exactly for a truthy new one; each limit follows its key unchecked |
| Options.MergedIdempotent | cleaner_logic.py:96-105 | applying the same options a second time changes nothing, so the repeated block at the end has no effect |
| Options.MergedKeepsSwitches | cleaner_logic.py:80 | `update` never loses the `simulate` and `backup` switches |
| Options.NoValidation | cleaner_logic.py:83-93 | an empty or `None` directory is ignored, while a zero, negative or text limit is stored as given |
| Options.RetryAfterFailedDir | cleaner_logic.py:78-105 | after a failed `set_options`, calling it again with the same options gives the settings a successful call would have |
| PathSafety.IsSafe | cleaner_logic.py:1946-1966 | defines `_is_safe_path`: no protected root is a raw prefix of the path and it is not one of the named system directories; `IsSafeIff` states it |
| PathSafety.IsSafeIff | cleaner_logic.py:1946-1966 | a path is safe exactly when it starts with none of the protected roots and is none of the named system directories |
| PathSafety.BelowRootRefused | cleaner_logic.py:1949-1952 | anything below a protected root is refused |
| PathSafety.RawPrefixOverreaches | cleaner_logic.py:1949-1952 | a sibling whose name merely extends a protected root is refused even though it does not lie below it |
| PathSafety.WindowsTreeNotCovered | cleaner_logic.py:1955-1964 | only the exact `C:\Windows` and `C:\ProgramData` are refused, not what lies below them |
| PathSafety.VetoIsCaseSensitive | cleaner_logic.py:1949-1952 | the lower-case and slash-separated spellings of a System32 file pass the veto |
| ScanRules.Paths | cleaner_logic.py:403-407 | the findings' paths, in order |
| ScanRules.SumWalked | cleaner_logic.py:1350-1360 | the summing loop's total is the sum of the walked files' sizes, and its count is the number of files |
| ScanRules.WalkSum | cleaner_logic.py:1548-1560 | walking a directory totals exactly its tree size and counts its files |
| ScanRules.WalkSelect | cleaner_logic.py:399-411 | the per-file walk reports exactly the findings the per-file specification gives, in walk order |
| ScanRules.PerFileStep | cleaner_logic.py:399-411 | one more walked file appends at most its own finding |
| ScanRules.GlobStep | cleaner_logic.py:1190-1204 | one more glob match appends at most its own finding |
| ScanRules.WalkMatches | cleaner_logic.py:1190-1204 | the loop over glob matches reports exactly the glob specification's findings |
| ScanRules.WalkAggregate | cleaner_logic.py:1379-1398 | the aggregate walk reports exactly the aggregate specification's entry |
| ScanRules.ScanTarget | cleaner_logic.py:398-411 | scanning one target reports exactly what the target specification gives |
| ScanRules.PerFileFindingsSound | cleaner_logic.py:399-411 | every per-file finding is a walked, selected file, reported with its own size and category |
| ScanRules.PerFileFindingsComplete | cleaner_logic.py:399-411 | every walked file the selection accepts is reported |
| ScanRules.PathsAppend | cleaner_logic.py:399-411 | the paths of concatenated findings are the concatenated paths |
| ScanRules.TreeFinding | cleaner_logic.py:1546-1569 | a directory target gives one entry exactly when it exists, passes the veto and holds bytes; the entry carries the tree size and, when counted, the number of files |
| ScanRules.VetoedTargetSilent | cleaner_logic.py:1380 | a target whose root fails the veto reports nothing |
| ScanRules.GlobFindingsSafe | cleaner_logic.py:1190-1204 | each vetted glob finding is a safe file among the matches, non-empty when the rule asks for that |
| ScanRules.CheckedFindingsSafe | cleaner_logic.py:1315-1325 | targets that check each reported path report only safe, non-empty entries |
| ScanRules.EveryFileReported | cleaner_logic.py:399-411 | a safe existing directory walked for every file reports exactly its files, in walk order |
| ScanRules.WalkFromDriveRootReportsSystem32 | cleaner_logic.py:398-407 | the veto is applied only to the walked root: a walk of `C:\` reports files under System32 that the veto refuses |
| ScanRules.NameTestCaseSensitive | cleaner_logic.py:500 | the log rule's `endswith` test misses `CBS.LOG` |
| ScanRules.LowerNameTestCaseInsensitive | cleaner_logic.py:1599-1615 | the installer rule lowers the name first, so `SETUP.TMP` is reported as a temporary installer file |
| ScanRules.BasenameOfJoin | cleaner_logic.py:402 | the base name of a joined entry is the entry name |
| RuleTable.FirefoxCaches | cleaner_logic.py:449-462 | each Firefox profile contributes its `cache2` directory when it exists, as an uncounted, vetted directory target |
| RuleTable.ListFirefoxCaches | cleaner_logic.py:455-462 | the profile loop lists exactly those cache directories |
| RuleTable.RuleTargets | cleaner_logic.py:389-1642 | defines, rule by rule, the directories or glob matches a scan rule visits and how it selects and reports their entries |
| RuleTable.Targets | cleaner_logic.py:449-462 | a rule's target list is missing exactly when it is the browser rule and the Firefox profiles path is a file |
| RuleTable.ListTargets | cleaner_logic.py:389-1642 | the engine lists a rule's targets as the target table says |
| RuleTable.ScanTargets | cleaner_logic.py:397-411 | a rule's loop over its targets reports the concatenated findings of each target |
| RuleTable.RuleOutcome | cleaner_logic.py:389-1717 | defines a rule's findings and whether it raises: the large-file scan, or the concatenated target scans, raising when the Firefox profiles cannot be listed |
| RuleTable.RunRule | cleaner_logic.py:389-1717 | running a rule gives exactly the rule's specified outcome |
| RuleTable.Faulted | cleaner_logic.py:376-382 | a rule interrupted by an error is marked as raised and keeps only a prefix of what it would have appended |
| RuleTable.EmptyResults | cleaner_logic.py:287-330 | the scan starts with an empty list under each of the 33 keys and nothing else |
| RuleTable.RunTask | cleaner_logic.py:373 | a task's contribution is its rule's outcome under the fault map |
| RuleTable.RunTasks | cleaner_logic.py:373-382 | the tasks' outcomes, in registration order |
| RuleTable.MergeOutcomes | cleaner_logic.py:376-382 | merging appends each outcome's findings under its key and lists the rules that raised |
| RuleTable.ScanSystem | cleaner_logic.py:284-387 | the scan's results and failures are exactly the specification's |
| RuleTable.KeysOfRegistered | cleaner_logic.py:287-367 | there are 33 registered tasks and 33 keys; the i-th task writes the i-th key, and no two tasks share one |
| RuleTable.ResultKeysHaveLists | cleaner_logic.py:287-330 | a category has a list exactly when it is one of the 33 keys |
| RuleTable.ResultsOfByKey | cleaner_logic.py:376-382 | after merging, each task's key holds exactly that task's findings, and the key set is unchanged |
| RuleTable.FailedOfIff | cleaner_logic.py:376-382 | a task is logged as failed exactly when its outcome raised |
| RuleTable.ScanResultsKeys | cleaner_logic.py:287-330 | the scan returns exactly the 33 keys |
| RuleTable.ScanResults | cleaner_logic.py:333-382 | defines the results of `scan_system()`: the empty lists of every key, each registered rule's findings appended under its key in registration order; `ScanResultsKeys` and `ScanResultsByRule` state it |
| RuleTable.ScanResultsByRule | cleaner_logic.py:333-382 | each registered rule's key holds exactly that rule's contribution |
| RuleTable.ScanFailuresIff | cleaner_logic.py:376-382 | a rule is reported as failed exactly when it is registered and its contribution raised |
| RuleTable.UnregisteredRules | cleaner_logic.py:333-367 | the downloads, installer-cache, hibernation and network-cache rules are never run |
| RuleTable.DownloadsShadowed | cleaner_logic.py:363 | the `downloads` key is filled only by `_scan_downloads_immediate` |
| RuleTable.InstallerCacheShadowed | cleaner_logic.py:364 | the `installer_cache` key is filled only by `_scan_installer_cache_safe` |
| RuleTable.HibernationRaises | cleaner_logic.py:721-735 | with a non-empty `hiberfil.sys` present the hibernation rule raises, because `hibernation` is not a key |
| RuleTable.VetoedRuleSilent | cleaner_logic.py:1315-1316 | a rule all of whose roots fail the veto reports nothing and does not raise |
| RuleTable.DnsCacheSilent | cleaner_logic.py:1307-1327 | the DNS-cache rule never reports anything, whatever the volume |
| RuleTable.PrinterTempSilent | cleaner_logic.py:1370-1400 | the printer rule never reports anything, whatever the volume |
| RuleTable.NetworkCacheSilent | cleaner_logic.py:1329-1368 | the network-cache rule never reports anything, whatever the volume |
| RuleTable.FirefoxFileSinksBrowserCache | cleaner_logic.py:449-462 | when the Firefox profiles path is a file, `os.listdir` raises and the browser rule contributes nothing and fails |
| RuleTable.TempDirWalkedTwice | cleaner_logic.py:392-395 | without a `TEMP` variable the temporary-files rule walks `C:\Windows\Temp` twice and reports every file twice |
| RuleTable.ScannedLargeFilesUnderUsers | cleaner_logic.py:1644-1717 | every large-file finding of the scan lies under `C:\Users`, is safe, has at least 100 MiB and is categorised as a large file |
| RuleTable.AggregateRuleEntries | cleaner_logic.py:1379-1398 | an aggregating rule reports at most one entry per directory, each with that directory's non-zero tree size |
| LargeFiles.ScanLargeFiles | cleaner_logic.py:1644-1717 | the scan loop returns exactly the specified large-file findings |
| LargeFiles.ScanRoot | cleaner_logic.py:1674-1679 | the walk of one root collects exactly that root's entries |
| LargeFiles.WalkLarge | cleaner_logic.py:1681-1703 | the per-file loop collects exactly the candidates among the walked files |
| LargeFiles.RootsVetted | cleaner_logic.py:1650-1675 | of the four roots only `C:\Users` passes the veto |
| LargeFiles.OnlyUsersWalked | cleaner_logic.py:1650-1675 | everything collected comes from the walk of `C:\Users` |
| LargeFiles.UsersWalkPrunesNothing | cleaner_logic.py:1658-1679 | no excluded directory lies under `C:\Users`, so its walk visits everything below it |
| LargeFiles.LargeEntriesSound | cleaner_logic.py:1681-1703 | every collected entry is a walked candidate file, described by its own size, extension and modification time |
| LargeFiles.LargeEntriesComplete | cleaner_logic.py:1681-1703 | every walked candidate file is collected |
| LargeFiles.LargeFileFindings | cleaner_logic.py:1644-1715 | defines what `_scan_large_files` adds: the collected entries sorted largest first and cut to a hundred; `LargeFilesSound` and `LargeFilesTop` state its properties |
| LargeFiles.LargeFilesSound | cleaner_logic.py:1709-1715 | the result has at most 100 entries, sorted by size largest first, each a safe candidate of at least 100 MiB under `C:\Users` |
| LargeFiles.LargeFilesTop | cleaner_logic.py:1709-1712 | a candidate under `C:\Users` is either reported or beaten by 100 reported files at least as large |
| LargeFiles.TopKeepsOrBeats | cleaner_logic.py:1709-1712 | cutting a descending sort to 100 keeps an element or fills the cut with elements at least as large |
| BackupStore.SnapshotTime | cleaner_logic.py:173-186 | defines a snapshot's timestamp: the time its name parses to, or the directory's creation time when `strptime` refuses the name |
| BackupStore.EntriesOf | cleaner_logic.py:159-189 | every listed snapshot is a directory entry of the backup directory, described by its own name |
| BackupStore.BackupInfoOf | cleaner_logic.py:144-207 | defines `get_backup_info()`: empty for a missing directory or an undatable snapshot, otherwise the snapshot entries newest first with their count and total size; `BackupInfoFacts` and the lemmas after it state its properties |
| BackupStore.BackupInfoFacts | cleaner_logic.py:144-207 | the summary's count is the number of snapshots and its total is the sum of their sizes; the snapshots are sorted newest first and are directories named in the listing; a missing directory gives an empty summary; when every snapshot can be dated, every listed directory is in the summary |
| BackupStore.EntriesOfComplete | cleaner_logic.py:159-161 | every listed name that is a directory has its entry in the listing loop's result |
| BackupStore.DatableIff | cleaner_logic.py:173-186 | the snapshots can be dated exactly when every one of their timestamps lies in the range `localtime` accepts |
| BackupStore.DatableSorted | cleaner_logic.py:186-191 | sorting dated snapshots keeps every timestamp in that range |
| BackupStore.SummaryDated | cleaner_logic.py:144-207 | every snapshot the summary lists has a timestamp `localtime` accepts |
| BackupStore.UndatedName | cleaner_logic.py:159-186 | one snapshot directory whose time is out of range makes the whole listing undatable |
| BackupStore.UndatableEmptiesSummary | cleaner_logic.py:173-207 | a listed snapshot directory whose time `timestamp()` refuses makes `get_backup_info` return the empty summary, as the caught `OSError` does |
| BackupStore.OutOfRangeNameEmptiesSummary | cleaner_logic.py:175-186 | a snapshot named for a year before 1970 or after 3000 empties the summary |
| BackupStore.SummaryStable | cleaner_logic.py:191 | snapshots with the same timestamp stay in listing order: the sort is stable |
| BackupStore.EntriesOfNoDups | cleaner_logic.py:159-189 | no snapshot is listed twice |
| BackupStore.BackupsDisjoint | cleaner_logic.py:159-189 | no snapshot lies inside another or equals another |
| BackupStore.SliceFrom | cleaner_logic.py:217-218 | `backups[k:]` follows Python's slicing, negative `k` included |
| BackupStore.Reverse | cleaner_logic.py:232 | `reversed` maps position `i` to position `n - 1 - i` |
| BackupStore.RemoveAllNodes | cleaner_logic.py:218-225 | removing snapshots one after another deletes exactly the nodes in or below a snapshot whose deletion succeeds, and nothing else |
| BackupStore.PruneWithinLimits | cleaner_logic.py:216-241 | a store within both limits is left untouched |
| BackupStore.RemoveSuffix | cleaner_logic.py:218-225 | after removing the snapshots from position `k` on, a snapshot is still there exactly when it comes before `k` or its deletion failed |
| BackupStore.CountPassKeepsNewest | cleaner_logic.py:216-225 | the count pass keeps exactly the newest `max_backups` snapshots and those whose deletion failed |
| BackupStore.NegativeLimitRemovesOldest | cleaner_logic.py:216-218 | a limit of -1 slices off, and so deletes, only the oldest snapshot |
| BackupStore.FitCut | cleaner_logic.py:228-241 | the number of oldest snapshots the size pass deletes is at most the number of snapshots |
| BackupStore.SizePassRemoves | cleaner_logic.py:228-241 | when every deletion succeeds, the size pass deletes exactly the oldest snapshots before the cut |
| BackupStore.FitCutFits | cleaner_logic.py:228-241 | after the cut the remaining sizes fit the cap, and one fewer deletion would not have |
| BackupStore.ReverseFacts | cleaner_logic.py:232 | reversing keeps the total size and the disjointness of the snapshots |
| BackupStore.OldestFirstFacts | cleaner_logic.py:228-232 | the snapshots taken oldest first are disjoint directories whose sizes add up to the summary's total |
| BackupStore.Prune | cleaner_logic.py:209-241 | defines the two pruning passes with numeric limits: the count pass on the newest-first list, then the size pass over the reversed list against the summary total; `PruneBySize`, `CountPassKeepsNewest` and `PruneCanEmptyStore` state what survives |
| BackupStore.PruneBySize | cleaner_logic.py:209-246 | within the count limit, pruning keeps exactly the newest snapshots whose sizes fit the cap, and deletes the fewest oldest snapshots that achieve this |
| BackupStore.SizePass | cleaner_logic.py:228-241 | defines the size pass: from the oldest snapshot on, delete while the running total exceeds the cap, subtracting a snapshot's size only when its deletion succeeds; `SizePassRemoves` and `SizePassCut` state what it deletes |
| BackupStore.SizePassCut | cleaner_logic.py:228-241 | the size pass over the oldest-first snapshots keeps exactly those after the minimal cut |
| BackupStore.PruneCanEmptyStore | cleaner_logic.py:216-241 | with two snapshots, a limit of one and a total over the cap, both snapshots are deleted, the newest included |
| BackupStore.SizePassKeepsGone | cleaner_logic.py:228-241 | the size pass never brings back a snapshot that is gone |
| BackupStore.CleanOldBackupsOf | cleaner_logic.py:209-246 | defines `clean_old_backups()`: the limits compared as numbers, raising the caught `TypeError` when either is not numeric, after the count pass when only the size limit is at fault |
| BackupStore.CleanOldBackupsNumeric | cleaner_logic.py:209-246 | with numeric limits, `clean_old_backups` succeeds with the pruned store |
| BackupStore.CleanOldBackupsNonNumeric | cleaner_logic.py:244-246 | a non-numeric count limit fails and changes nothing; a numeric count with a non-numeric size limit fails after the count pass has run |
| BackupStore.RestoreTargetInjective | cleaner_logic.py:262-267 | distinct files of a snapshot are restored to distinct places |
| BackupStore.CopyDest | cleaner_logic.py:273 | `copy2` writes at or below the destination it is given |
| BackupStore.TryCopy | cleaner_logic.py:273 | defines `shutil.copy2(src, dst)` under the fault oracle: the source node written at `dst`, or inside it when it is a directory; `TryCopyFacts` states when it succeeds and what it changes |
| BackupStore.TryCopyFacts | cleaner_logic.py:273 | a copy succeeds exactly when the source is a file, the fault oracle lets it through and the place written is no directory; it then sets only that place to the source's node, and otherwise changes nothing |
| BackupStore.CopyWithParent | cleaner_logic.py:270-273 | defines `makedirs(dirname(dst))` followed by `copy2` in one `try`: no copy when a file is in the way of the parent; `CopyWithParentFacts` states it |
| BackupStore.CopyWithParentFacts | cleaner_logic.py:270-273 | `makedirs` of the parent then `copy2` succeeds exactly when no file is in the way of the parent, the source is a file the oracle lets through and the destination is no directory; it then sets only the destination, and otherwise changes nothing |
| BackupStore.CopyIntoDirectory | cleaner_logic.py:273 | copying onto an existing directory puts the file inside it under its own base name |
| BackupStore.PlainTargetsDistinct | cleaner_logic.py:262-273 | when no target is a directory, two snapshot files are restored to different places |
| BackupStore.RestoreFilesDirs | cleaner_logic.py:257-276 | the restore loop neither creates nor removes a directory |
| BackupStore.RestoreFilesKeeps | cleaner_logic.py:257-276 | a path no copy goes through to keeps its node |
| BackupStore.RestoreFilesAdds | cleaner_logic.py:257-276 | nothing appears but where a copy goes through to |
| BackupStore.RestoreFiles | cleaner_logic.py:257-276 | defines the restore loop: each walked file copied to its target under `C:\` with its parent made first, a failure skipping only that file; the `RestoreFiles` lemmas state its effect |
| BackupStore.RestoreFilesLands | cleaner_logic.py:257-276 | each copy that goes through leaves its destination holding the node of a snapshot file copied there |
| BackupStore.Restore | cleaner_logic.py:248-282 | defines `restore_backup()`: refused unless the snapshot is a directory, otherwise the restore loop over its files; `RestorePlaces` states its effect |
| BackupStore.RestorePlaces | cleaner_logic.py:248-282 | `restore_backup` succeeds exactly for an existing directory; when no destination lies within the snapshot and none is, or lies above, another target's parent directory, each file whose parent directory can be made (no file in the way) and whose copy goes through lands at its path relative to the snapshot under `C:\`, or inside the directory found there; every other node is unchanged, nothing else appears and no directory appears or goes |
| BackupStore.RestoreBlockedParent | cleaner_logic.py:268-276 | a snapshot file whose target's parent directory is an existing file is not restored; the restore still succeeds and leaves that file as it was |
| BackupStore.RestoreOwnNode | cleaner_logic.py:257-276 | a restored file whose destination no other copied file shares is found there with its own size and mtime; with no directory at the targets, no two files share a destination |
| CleanExecutor.SimulateChangesNothing | cleaner_logic.py:1777-1778 | in simulate mode no item changes the volume, and the freed count grows by each item's simulated charge |
| CleanExecutor.ChargeIsDouble | cleaner_logic.py:1777-1778 | for safe items whose scanned sizes are still current, the simulated charge is twice the scanned size |
| CleanExecutor.SimulateCountsTwice | cleaner_logic.py:1759-1778 | a simulated clean of up-to-date safe items reports twice their total size as freed |
| CleanExecutor.UnsafeErrorsAppend | cleaner_logic.py:1750-1756 | the unsafe-path errors of concatenated error lists are the concatenated ones |
| CleanExecutor.CleanItem | cleaner_logic.py:1741-1785 | defines one pass of the `clean_selected` item loop: the veto, the recycle bin, a directory, a file or nothing, then the simulate charge, an exception becoming an error entry |
| CleanExecutor.CleanAll | cleaner_logic.py:1740-1785 | defines the item loop as the passes over the items in order; `CleanAllEntries` states its report |
| CleanExecutor.CleanItemEntries | cleaner_logic.py:1740-1785 | one item appends at most one path to the cleaned list or one error, never both, and an unsafe-path error exactly when it is vetoed |
| CleanExecutor.CleanAllEntries | cleaner_logic.py:1740-1785 | the run only appends, adds at most one entry per item, and its unsafe-path errors are exactly the vetoed items, in order |
| CleanExecutor.UnsafeItemUntouched | cleaner_logic.py:1750-1756 | a vetoed item changes nothing and adds one unsafe-path error |
| CleanExecutor.VanishedItemInNoList | cleaner_logic.py:1765-1778 | an item that no longer exists is in neither list and adds only its simulated size |
| CleanExecutor.CleanFileOf | cleaner_logic.py:1790-1868 | defines `_clean_file`: nothing for a missing file, the size in simulate mode, otherwise a backup copy, then the recycle bin or removal, raising when both fail; `CleanFileOutcome` states it |
| CleanExecutor.CleanFileOutcome | cleaner_logic.py:1815-1868 | deleting a file for real frees its size and leaves it gone, unless both the recycle-bin move and the removal fail, in which case it raises and the file stays |
| CleanExecutor.FileBackupsCollide | cleaner_logic.py:1804-1812 | two files with the same base name back up to the same place, and the second overwrites the first |
| CleanExecutor.FreedByAll | cleaner_logic.py:1892-1911 | with nothing locked the file phase frees the sum of the files' sizes |
| CleanExecutor.DeleteFilesInside | cleaner_logic.py:1892-1911 | inside the cleaned directory exactly the unlocked walked files disappear; directories are untouched; the bytes freed are the unlocked files' sizes; with a snapshot whose tree is apart from the cleaned directory's, or without backup, nothing else inside changes |
| CleanExecutor.DeleteStepInside | cleaner_logic.py:1894-1911 | one file of the walk is removed unless locked, and, with a snapshot whose tree is apart from the cleaned directory's, nothing else inside the directory changes |
| CleanExecutor.DeleteFilesBacksUp | cleaner_logic.py:1898-1905 | with a snapshot whose tree is apart from the cleaned directory's, each file whose backup copy goes through leaves its destination in the snapshot holding the node of a file of the walk copied there |
| CleanExecutor.DirDestPlace | cleaner_logic.py:1898-1903 | a backup lands below the snapshot, and so outside a cleaned directory apart from it |
| CleanExecutor.DeleteStepOutside | cleaner_logic.py:1894-1911 | outside the cleaned directory one step changes at most the backup destination of its file, which then holds that file's node |
| CleanExecutor.DeleteFilesKeeps | cleaner_logic.py:1892-1911 | outside the cleaned directory a path no backup copy goes through to keeps its node |
| CleanExecutor.DeleteFilesAdds | cleaner_logic.py:1892-1911 | outside the cleaned directory nothing appears but where a backup copy goes through to |
| CleanExecutor.PlainDirTargetsDistinct | cleaner_logic.py:1898-1903 | when no backup target is a directory, two files of the walk back up to different places |
| CleanExecutor.DeleteStepNested | cleaner_logic.py:1894-1911 | with the snapshot below the cleaned directory, one step away from the snapshot removes only its file, unless locked, and frees its size |
| CleanExecutor.DeleteFilesNested | cleaner_logic.py:1892-1911 | with the snapshot below the cleaned directory, away from the snapshot exactly the unlocked walked files go and their sizes are freed |
| CleanExecutor.RemoveEmptyDirsEffect | cleaner_logic.py:1917-1924 | the directory phase only removes directories; a directory stays exactly when it is locked or something is left below it |
| CleanExecutor.DeepestFirstFacts | cleaner_logic.py:1892 | the bottom-up order lists each directory below `d` once, deeper ones first |
| CleanExecutor.CleanDirectoryOf | cleaner_logic.py:1870-1929 | defines `_clean_directory`: nothing for a missing directory, the tree size in simulate mode, otherwise each walked file backed up and deleted, then emptied subdirectories removed bottom-up; `CleanDirectoryEffect` states it |
| CleanExecutor.CleanDirectoryEffect | cleaner_logic.py:1870-1929 | cleaning a directory keeps it, removes every unlocked file below it, removes every subdirectory left empty and frees the unlocked files' sizes; with a snapshot whose tree is apart from the cleaned directory's, or without backup, nothing outside it changes |
| CleanExecutor.CleanDirectoryUnlocked | cleaner_logic.py:1892-1911 | with nothing locked and the snapshot, if any, apart from the directory, cleaning it frees its whole tree size and leaves no file below it |
| CleanExecutor.CleanDirectoryBacksUp | cleaner_logic.py:1898-1905 | with a snapshot whose tree is apart from the cleaned directory's, and no backup destination that is or lies above another target's parent directory, each file whose parent directory can be made and whose backup copy goes through is found at its relative path in the snapshot, or inside the directory found there, holding the node of a file copied there; outside the directory nothing else changes and nothing else appears |
| CleanExecutor.CleanDirectoryBlockedParent | cleaner_logic.py:1898-1905 | a file whose backup target's parent directory is an existing file is not backed up, and that file is left as it was |
| CleanExecutor.BackupStepParent | cleaner_logic.py:1892-1911 | deleting and backing up one file of the walk does not change whether another target's parent directory can be made |
| CleanExecutor.DirPhaseOutside | cleaner_logic.py:1917-1924 | the directory phase changes nothing outside the cleaned directory |
| CleanExecutor.CleanDirectoryOwnBackup | cleaner_logic.py:1898-1905 | a file whose backup destination no other copied file shares is found there with its own size and mtime; with no directory at the targets, no two files share a destination |
| CleanExecutor.CleanDirectoryAroundSnapshot | cleaner_logic.py:1870-1929 | with the snapshot inside the cleaned directory (the default backup folder below `%TEMP%`), the directory stays, every unlocked file below it is gone, the bytes freed are those files' sizes and nothing outside it changes |
| CleanExecutor.DirectoryItemVetoIsShallow | cleaner_logic.py:1750-1769 | cleaning the item `C:\` passes the veto and deletes files under System32 that the veto refuses |
| Engine.DecodeDrives | cleaner_logic.py:52-57 | the bitmask loop lists one drive per set bit, `A:` first |
| Engine.DriveListed | cleaner_logic.py:52-57 | a drive is listed exactly when its bit is set |
| Engine.FirstOtherDriveFacts | cleaner_logic.py:60-63 | the chosen drive is the first listed drive that is not `C:` and exists; none is chosen exactly when there is no such drive |
| Engine.FindOtherDrive | cleaner_logic.py:60-63 | the search loop stops at that first drive |
| Engine.ChooseBackupDir | cleaner_logic.py:44-65 | the start-up choice is the default backup directory of the specification |
| Engine.DefaultBackupDir | cleaner_logic.py:44-65 | defines the default backup directory: `CCleaner_Backup` on the first existing drive other than C that the bitmask lists, otherwise below the temporary directory |
| Engine.DefaultBackupDirFacts | cleaner_logic.py:44-65 | the default is the temporary directory's `CCleaner_Backup` or `CCleaner_Backup` on an existing drive other than C whose bit is set |
| Engine.ChosenDriveLetter | cleaner_logic.py:52-63 | a chosen drive is a real drive letter other than C whose bit is set and which exists |
| Engine.FirstOtherDriveIn | cleaner_logic.py:60-63 | the chosen drive is one of the listed drives, not `C:`, and exists |
| Engine.SimulateWithoutBackup | cleaner_logic.py:1730-1778 | a simulated run without backups changes nothing and reports each item's simulated charge |
| Engine.SimulateStillPrunes | cleaner_logic.py:1730-1738 | a simulated run with backups whose snapshot directory can be made still creates it and prunes the store |
| Engine.SnapshotPathTaken | cleaner_logic.py:1730-1735 | a file at the snapshot path, or a backup directory that is a file, makes the whole run raise before any item is touched |
| Engine.CleanSelectedOf | cleaner_logic.py:1719-1788 | defines `clean_selected()`: with backups on, the snapshot directory made (raising when it cannot be) and the store pruned, then the item loop |
| Engine.CleanSelectedEntries | cleaner_logic.py:1740-1785 | the report has at most one entry per item, and its unsafe-path errors are exactly the vetoed items |
| Engine.ListBackups | cleaner_logic.py:159-189 | the listing loop reports whether every snapshot could be dated, and when so collects exactly the snapshot entries and their total size |
| Engine.DescribeSnapshot | cleaner_logic.py:161-186 | one snapshot's entry is its name, path, tree size and timestamp, and it is dated exactly when `localtime` accepts that timestamp |
| Engine.ListedStep | cleaner_logic.py:159-189 | one pass of the listing loop skips a name that is no directory and appends a dated directory's entry, keeping the list and the total in step with the specification |
| Engine.RemoveSnapshots | cleaner_logic.py:218-225 | the count-pass loop ends in the specified store |
| Engine.TrimToSize | cleaner_logic.py:228-241 | the size-pass loop ends in the specified store |
| Engine.DeleteWalkedFiles | cleaner_logic.py:1892-1911 | the file loop of `_clean_directory` ends in the specified volume with the specified byte count |
| Engine.RemoveWalkedDirs | cleaner_logic.py:1917-1924 | the directory loop ends in the specified volume |
| Engine.CleanItemDirectory | cleaner_logic.py:1765-1769 | a safe directory item is cleaned as a directory and listed as cleaned with the bytes freed added |
| Engine.CleanItemFileCleaned | cleaner_logic.py:1770-1778 | a safe file item whose cleaning reports a byte count is listed as cleaned with those bytes added, and the item size on top in simulate mode |
| Engine.CleanItemFileRaised | cleaner_logic.py:1770-1785 | a safe file item whose cleaning raises is listed as an error and the volume is what the failed cleaning left |
| Engine.CopyBack | cleaner_logic.py:257-276 | the restore loop ends in the specified volume |
| Engine.CleanerLogic.constructor | cleaner_logic.py:28-76 | when the default backup directory can be made, a new engine simulates and backs up by default, keeps five snapshots of at most 1 GiB, picks the default backup directory and creates it |
| Engine.CleanerLogic.Start | cleaner_logic.py:28-76 | start-up raises exactly when the default backup directory is missing and cannot be made; otherwise the new engine has the default settings and the directory exists |
| Engine.CleanerLogic.SetOptions | cleaner_logic.py:78-105 | it fails exactly when a new backup directory is missing and cannot be made; on success the settings become the merge of the old ones with the options and the directory exists; on failure the options and directory are already updated, the limits are not, and the volume is unchanged |
| Engine.CleanerLogic.IsSafePath | cleaner_logic.py:1946-1966 | the veto loop answers exactly the path-safety predicate |
| Engine.CleanerLogic.GetBackupInfo | cleaner_logic.py:144-207 | the summary is the backup store's summary of the current backup directory: empty when it is missing or some snapshot cannot be dated, otherwise every snapshot directory newest first with their count and total size |
| Engine.CleanerLogic.CleanOldBackups | cleaner_logic.py:209-246 | pruning changes only the volume, as the two-pass specification says, and reports whether the limits could be compared |
| Engine.CleanerLogic.RestoreBackup | cleaner_logic.py:248-282 | restoring changes only the volume, as the restore specification says: refused unless the snapshot is a directory, otherwise each file copied to its place under `C:\` unless its parent is blocked by a file or the copy fails |
| Engine.CleanerLogic.ScanSystem | cleaner_logic.py:284-387 | the engine's scan returns exactly the specified results and failures |
| Engine.CleanerLogic.CleanFile | cleaner_logic.py:1790-1868 | cleaning a file changes the volume and reports the bytes as `_clean_file` specifies |
| Engine.CleanerLogic.CleanDirectory | cleaner_logic.py:1870-1929 | cleaning a directory changes the volume and reports the bytes as `_clean_directory` specifies |
| Engine.CleanerLogic.CleanOne | cleaner_logic.py:1741-1785 | one pass of the item loop ends in the specified volume and report |
| Engine.CleanerLogic.CleanFound | cleaner_logic.py:1765-1785 | for a safe item other than the recycle bin, the loop body ends in the specified volume and report |
| Engine.CleanerLogic.CleanFoundFile | cleaner_logic.py:1770-1785 | for a safe file item, the loop body ends in the specified volume and report |
| Engine.CleanerLogic.CleanItems | cleaner_logic.py:1740-1785 | the item loop ends in the volume and report the specification of the whole item sequence gives, settings unchanged |
| Engine.CleanerLogic.CleanSelected | cleaner_logic.py:1719-1788 | the whole run ends in the volume and report `clean_selected` specifies, raising when the snapshot directory cannot be made, and leaves the settings unchanged |
| Engine.FreshEngineDefaults | cleaner_logic.py:30-76 | after start-up the backup directory exists, both switches are on, and the limits are 5 and 1073741824 |
| BackupWindow.TruncDiv | backup_manager.py:149 | `int(a / b)` truncates toward zero |
| BackupWindow.MegabytesOf | backup_manager.py:149 | the megabyte display exists exactly when the stored size limit is a number |
| BackupWindow.MegabytesRoundTrip | backup_manager.py:149-205 | a size entered in megabytes is displayed back as the same number of megabytes |
| BackupWindow.CheckLimits | backup_manager.py:190-218 | defines the window's checks of the two limit fields in their order: both parsed, then the count, then the size, an accepted size converted to bytes; `CheckLimitsCases` states each outcome |
| BackupWindow.CheckLimitsCases | backup_manager.py:190-218 | text that is not a number is refused first, then a count of zero or less, then a size of zero or less; only positive limits get through, the size in bytes |
| BackupWindow.FullWidthLimitsAccepted | backup_manager.py:193-194 | limits typed in full-width digits are accepted as the numbers they denote |
| BackupWindow.ControlPaddedLimitsRefused | backup_manager.py:190-200 | a count field padded with U+001C is "not a number", while one padded with a no-break space is read |
| BackupWindow.AcceptedLimitsPositive | backup_manager.py:196-205 | accepted limits keep at least one snapshot and at least one whole megabyte |
| BackupWindow.LimitsRedisplayed | backup_manager.py:205-214 | after accepted limits are applied, the redisplayed fields check to the same limits |
| BackupWindow.EnteredDir | backup_manager.py:172-176 | the entered directory is refused exactly when it is all whitespace, and is otherwise the stripped, non-empty text |
| BackupWindow.FormatSize | backup_manager.py:278-288 | defines `format_size`: below 1024 the exact byte count with ` B`, otherwise the count scaled to the largest unit reached, GB at most; `TierRange`, `TierMonotone` and `SmallSizesExact` state its properties |
| BackupWindow.TierRange | backup_manager.py:278-288 | from 1024 bytes on, the unit chosen is the largest one the size reaches, and the size is below 1024 of it except for GB |
| BackupWindow.TierMonotone | backup_manager.py:278-288 | a larger size never gets a smaller unit |
| BackupWindow.SmallSizesExact | backup_manager.py:281-282 | a size below 1024 is shown as its exact byte count followed by ` B` |
| BackupWindow.RowsOf | backup_manager.py:152-157 | one row per snapshot, in order |
| BackupWindow.RowsNewestFirst | backup_manager.py:152-157 | the rows show the snapshots newest first |
| BackupWindow.InsertRows | backup_manager.py:152-157 | the insertion loop shows exactly those rows |
| BackupWindow.BackupManagerWindow.Shows | backup_manager.py:139-157 | defines what a refresh leaves on screen: the labels and the directory field show the engine's backup summary, the count field its limit, and, when the size limit is a number, the size field that limit in MB and the list one row per snapshot; otherwise the list is empty |
| BackupWindow.BackupManagerWindow.constructor | backup_manager.py:16-28 | a new window `Shows` the engine's backup summary, limits and rows after its first refresh; when the size limit is not a number, the size field keeps its initial `1024` and the list is empty |
| BackupWindow.BackupManagerWindow.ShowSummary | backup_manager.py:139-145 | the labels and the directory field show the summary's directory, count and formatted size |
| BackupWindow.BackupManagerWindow.RefreshBackupList | backup_manager.py:129-157 | the window `Shows` the current summary, limits and rows; it fails exactly when the size limit is not a number, and then the size field is unchanged and the list empty |
| BackupWindow.BackupManagerWindow.ApplyBackupLimits | backup_manager.py:190-218 | accepted limits are merged into the engine, the volume is untouched, and the refreshed window `Shows` the new summary and rows, its fields reading back as the same limits; refused limits leave the engine and every window field unchanged |
| BackupWindow.BackupManagerWindow.ApplyBackupDir | backup_manager.py:170-188 | a blank or uncreatable directory leaves the engine, the volume and every window field unchanged; otherwise it is created and set in the engine, the refreshed window `Shows` it, and the result reports whether the refresh got through the size field, which is otherwise unchanged |

## Left out

- Text.Lower: only ASCII capitals, the Kelvin sign and the dotted capital I are lowered; other non-ASCII capitals are kept. Every name the rules compare against is ASCII, and no other capital lowers to an ASCII character, so no comparison changes.
- Volume.Exists: lookups use the exact, case-sensitive path string (likewise `Volume.IsFile` and `Volume.IsDir`). NTFS ignores case and accepts `/` as a separator; a path spelled differently from its node is treated as missing.
- RuleTable.Faulted: an unexpected error ends the rule, whereas the media-cache and app-log rules catch errors inside their glob branches (cleaner_logic.py:982, 1206) and go on.
- CleanExecutor.CleanFileOf: a file moved to the recycle bin disappears from the volume rather than appearing under `C:\$Recycle.Bin`.
- CleanExecutor.CleanDirectoryOf: the walk is listed up front, while `os.walk` lists each directory only when it reaches it. A backup copied into a snapshot inside the cleaned directory could therefore be visited by the real walk; the model, like the lemmas about the snapshot inside the directory, assumes nothing is below the snapshot when the walk starts. The restore walk is listed up front in the same way.
- Whether the system refuses `os.makedirs` (a missing or read-only drive, no permission) is an input flag, `denied`; a file in the way is decided from the volume.
- Thread interleaving: `scan_system` runs its rules on a thread pool. The model runs them one after another in registration order. Each rule writes under its own key, so the order inside a key is the same; only the interleaving of log output differs.
- `os.makedirs` creating intermediate directories: only the named directory is added to the volume, and the parent directories that `makedirs` creates before a backup or restore copy are not added at all. A file in the way of that parent is modelled; it skips the copy.
- WinPath.Dirname: a UNC prefix (`\\server\share`) is not split off as a drive, because no path the engine writes to starts with one.
- `shutil.rmtree` that fails part-way: a snapshot whose deletion fails is left whole, not partly deleted.
- Recycle bins on drives other than C: `Clear-RecycleBin` is modelled as emptying `C:\$Recycle.Bin`.
- `ctypes` calls and `get_disk_info`: `GetLogicalDrives` is an input bitmask, `SHFileOperationW` is a fault oracle, and disk usage is not modelled.
- BackupWindow.FormatSize: the two-decimal float division for KB, MB and GB is not computed; the result keeps the byte count and the chosen unit (`Scaled`).
- BackupWindow.MegabytesOf: the float division `max_backup_size / (1024 * 1024)` is modelled as exact integer division truncated toward zero, which agrees with Python's float only below 2^53.
- The human-readable time string of each backup row is not modelled; rows carry the numeric timestamp.
- LargeFiles.LargeFileEntry: the `modified` field carries the file's numeric mtime, not the local time `strftime` formats from it. An mtime that `fromtimestamp` refuses raises `OSError`, which the rule does not catch; the model leaves that error to the fault map of unexpected errors instead of deciding it from the volume.
- Text.ParseInt: the digit limit of CPython 3.11 and later is not modelled. There `int()` refuses text of more than 4300 digits, and `str()` refuses to write such a number.
- Volume.Node: modification and creation times, and the host's `now`, are whole seconds, while `os.path.getmtime`, `os.path.getctime` and `datetime.now()` carry fractions of a second. An age test (`Clock.ModifiedBefore`, `Clock.OlderThanDays`) can therefore decide differently from the source in the boundary second. Two snapshots dated by their creation times within the same second keep listing order, where the source sorts them by their exact times, so the count pass can delete a different one of the two.
- Time zones: civil times convert to timestamps as UTC; the local-time offset of `timestamp()` is not modelled. `Clock.LocalTimeOk` bounds UTC seconds to the years 1970 to 3000, so a time within a few hours of either end, which the offset would move across it, can be judged differently from the source.
- Drives are modelled as nodes named `X:` of the volume; `os.path.exists("X:")` is whether that node exists.
- Options.DirIsText: a truthy `backup_dir` that is not text is excluded. `os.path.exists` and `os.makedirs` take an integer or a Boolean as a file descriptor: an integer that is no open descriptor makes `os.makedirs` raise a `TypeError`, while a Boolean or an open descriptor raises nothing and is stored as the backup directory. Paths in the model are always text.
- The backup manager's restore, delete and clean buttons, `browse_backup_dir`, and the rest of the user interface are not part of this model.
- Logging, and the `progress_callback` of `clean_selected`, have no effect on state and are left out.
- Each scan rule is a table of targets and selections. The per-file `PermissionError`/`FileNotFoundError` handling inside walks is covered by taking the walk over the files that exist, and unexpected errors are an input fault map.
