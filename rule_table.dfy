/**
 * The engine's scan rules and the scan that runs them: each `_scan_*` rule is the list of
 * targets it looks at (module ScanRules says what a target reports), the key of the results
 * map it appends to, and the errors it lets escape. `scan_system` starts from 33 empty lists
 * and runs the 33 registered rules, each in isolation from the others' errors.
 */
module RuleTable {
  import opened Wrappers
  import opened Text
  import opened WinPath
  import opened Volume
  import opened PathSafety
  import opened ScanRules
  import opened Seqs
  import LF = LargeFiles

  /** The engine's `_scan_*` methods: the 33 registered ones, then the four it never registers. */
  datatype Rule =
    | ScanTempFiles | ScanRecycleBin | ScanBrowserCache | ScanSystemLogs | ScanWindowsUpdates
    | ScanThumbnailsCache | ScanPrefetch | ScanOldWindows | ScanErrorReports | ScanServicePacks
    | ScanMemoryDumps | ScanFontCache | ScanDiskCleanupBackup | ScanAppCache | ScanMediaCache
    | ScanSearchIndex | ScanBackupTemp | ScanUpdateTemp | ScanDriverBackup | ScanAppCrash
    | ScanAppLogs | ScanRecentItems | ScanNotificationCache | ScanDnsCache | ScanPrinterTemp
    | ScanDeviceTemp | ScanWindowsDefender | ScanStoreCache | ScanOnedriveCache
    | ScanDownloadsImmediate | ScanInstallerCacheSafe | ScanDeliveryOptimization | ScanLargeFiles
    | ScanDownloads | ScanInstallerCache | ScanHibernationFile | ScanNetworkCache

  /** The results key a rule appends to. */
  function KeyOf(r: Rule): Category
  {
    match r
    case ScanTempFiles => Temp
    case ScanRecycleBin => Recycle
    case ScanBrowserCache => Cache
    case ScanSystemLogs => Logs
    case ScanWindowsUpdates => Updates
    case ScanThumbnailsCache => Thumbnails
    case ScanPrefetch => Prefetch
    case ScanOldWindows => OldWindows
    case ScanErrorReports => ErrorReports
    case ScanServicePacks => ServicePacks
    case ScanMemoryDumps => MemoryDumps
    case ScanFontCache => FontCache
    case ScanDiskCleanupBackup => DiskCleanup
    case ScanAppCache => AppCache
    case ScanMediaCache => MediaCache
    case ScanSearchIndex => SearchIndex
    case ScanBackupTemp => BackupTemp
    case ScanUpdateTemp => UpdateTemp
    case ScanDriverBackup => DriverBackup
    case ScanAppCrash => AppCrash
    case ScanAppLogs => AppLogs
    case ScanRecentItems => RecentItems
    case ScanNotificationCache => Notification
    case ScanDnsCache => DnsCache
    case ScanPrinterTemp => PrinterTemp
    case ScanDeviceTemp => DeviceTemp
    case ScanWindowsDefender => WindowsDefender
    case ScanStoreCache => StoreCache
    case ScanOnedriveCache => OnedriveCache
    case ScanDownloadsImmediate => Downloads
    case ScanInstallerCacheSafe => InstallerCache
    case ScanDeliveryOptimization => DeliveryOpt
    case ScanLargeFiles => LargeFiles
    case ScanDownloads => Downloads
    case ScanInstallerCache => InstallerCache
    case ScanHibernationFile => Hibernation
    case ScanNetworkCache => NetworkCache
  }

  /** The keys of the results map, in the order `scan_system` creates them. */
  const ResultKeys: seq<Category> := [
    Temp, Recycle, Cache, Logs, Updates, Thumbnails,
    Prefetch, OldWindows, ErrorReports, ServicePacks, MemoryDumps, FontCache, DiskCleanup,
    AppCache, MediaCache, SearchIndex, BackupTemp, UpdateTemp, DriverBackup, AppCrash,
    AppLogs, RecentItems, Notification, DnsCache, PrinterTemp, DeviceTemp,
    WindowsDefender, StoreCache, OnedriveCache,
    Downloads, InstallerCache, DeliveryOpt,
    LargeFiles]

  /** The task list `scan_system` submits. */
  const Registered: seq<Rule> := [
    ScanTempFiles, ScanRecycleBin, ScanBrowserCache, ScanSystemLogs, ScanWindowsUpdates,
    ScanThumbnailsCache, ScanPrefetch, ScanOldWindows, ScanErrorReports, ScanServicePacks,
    ScanMemoryDumps, ScanFontCache, ScanDiskCleanupBackup, ScanAppCache, ScanMediaCache,
    ScanSearchIndex, ScanBackupTemp, ScanUpdateTemp, ScanDriverBackup, ScanAppCrash,
    ScanAppLogs, ScanRecentItems, ScanNotificationCache, ScanDnsCache, ScanPrinterTemp,
    ScanDeviceTemp, ScanWindowsDefender, ScanStoreCache, ScanOnedriveCache,
    ScanDownloadsImmediate, ScanInstallerCacheSafe, ScanDeliveryOptimization, ScanLargeFiles]

  /** The position of a key among the result keys; the two keys no list is made for come last. */
  function KeyIndex(k: Category): nat
  {
    match k
    case Temp => 0 case Recycle => 1 case Cache => 2 case Logs => 3 case Updates => 4
    case Thumbnails => 5 case Prefetch => 6 case OldWindows => 7 case ErrorReports => 8
    case ServicePacks => 9 case MemoryDumps => 10 case FontCache => 11 case DiskCleanup => 12
    case AppCache => 13 case MediaCache => 14 case SearchIndex => 15 case BackupTemp => 16
    case UpdateTemp => 17 case DriverBackup => 18 case AppCrash => 19 case AppLogs => 20
    case RecentItems => 21 case Notification => 22 case DnsCache => 23 case PrinterTemp => 24
    case DeviceTemp => 25 case WindowsDefender => 26 case StoreCache => 27 case OnedriveCache => 28
    case Downloads => 29 case InstallerCache => 30 case DeliveryOpt => 31 case LargeFiles => 32
    case Hibernation => 33 case NetworkCache => 34
  }

  /** Whether the results map has a list under `k`: every key but the two of the rules never registered. */
  predicate HasList(k: Category)
  {
    k != Hibernation && k != NetworkCache
  }

  // ---------------------------------------------------------------- the targets of each rule

  /** `os.environ.get(name, '')`. */
  function Env(value: Option<Path>): Path
  {
    value.GetOr("")
  }

  /** `C:\Users\<USERNAME>`, with an empty name when the variable is unset. */
  function UserDir(h: Host): Path
  {
    Join("C:\\Users", h.userName.GetOr(""))
  }

  /** The rules that accept glob patterns take a path with a `*` as one. */
  function Wild(p: Path, sel: Sel, plain: Target): Target
  {
    if '*' in p then GlobFiles(p, sel) else plain
  }

  function Cached(d: Path): Target
  {
    Tree(d, true, false)
  }

  /** The Firefox profile caches: `<profile>\cache2` for each listed profile where it exists. */
  function FirefoxCaches(v: Vol, profiles: Path, names: seq<string>): (ts: seq<Target>)
    ensures forall t :: t in ts ==> t.Tree? && t.vetted && !t.counted && Exists(v, t.dir)
  {
    if names == [] then []
    else
      var cache := Join(Join(profiles, names[|names| - 1]), "cache2");
      FirefoxCaches(v, profiles, names[..|names| - 1]) + (if Exists(v, cache) then [Cached(cache)] else [])
  }

  function FirefoxProfiles(h: Host): Path
  {
    Join(Env(h.appData), "Mozilla\\Firefox\\Profiles")
  }

  /** The targets a rule visits, in order; for the browser rule, those it visits before the Firefox profiles. */
  function RuleTargets(h: Host, r: Rule): seq<Target>
  {
    var lad := Env(h.localAppData);
    var ad := Env(h.appData);
    var user := UserDir(h);
    match r
    case ScanTempFiles =>
      [PerFile(h.temp.GetOr("C:\\Windows\\Temp"), AnyFile), PerFile("C:\\Windows\\Temp", AnyFile)]
    case ScanRecycleBin => [Tree("C:\\$Recycle.Bin", false, false)]
    case ScanBrowserCache =>
      [Cached(Join(lad, "Google\\Chrome\\User Data\\Default\\Cache")),
       Cached(Join(lad, "Microsoft\\Edge\\User Data\\Default\\Cache"))]
    case ScanSystemLogs =>
      var logs := NameEndsWith([".log", ".etl", ".dmp"]);
      [PerFile("C:\\Windows\\Logs", logs), PerFile("C:\\Windows\\debug", logs)]
    case ScanWindowsUpdates =>
      [Cached("C:\\Windows\\SoftwareDistribution\\Download"), Cached("C:\\Windows\\SoftwareDistribution\\DataStore")]
    case ScanThumbnailsCache =>
      var d1 := Join(lad, "Microsoft\\Windows\\Explorer");
      var d2 := Join(user, "AppData\\Local\\Microsoft\\Windows\\Explorer");
      [Thumbs(d1, Join(d1, "thumbcache_*.db")), Thumbs(d2, Join(d2, "thumbcache_*.db"))]
    case ScanPrefetch => [PerFile("C:\\Windows\\Prefetch", NameEndsWith([".pf"]))]
    case ScanOldWindows => [Cached("C:\\Windows.old"), Cached("C:\\$Windows.~BT"), Cached("C:\\$Windows.~WS")]
    case ScanErrorReports =>
      [Cached("C:\\ProgramData\\Microsoft\\Windows\\WER"),
       Cached(Join(user, "AppData\\Local\\Microsoft\\Windows\\WER")),
       Cached(Join(lad, "Microsoft\\Windows\\WER"))]
    case ScanServicePacks => [Cached("C:\\Windows\\$NtServicePackUninstall$"), Cached("C:\\Windows\\$hf_mig$")]
    case ScanMemoryDumps =>
      [FileOrTree("C:\\Windows\\Minidump"), FileOrTree("C:\\Windows\\MEMORY.DMP"), FileOrTree("C:\\Windows\\memory.dmp")]
    case ScanFontCache =>
      [FileOrTree("C:\\Windows\\ServiceProfiles\\LocalService\\AppData\\Local\\FontCache"),
       FileOrTree("C:\\Windows\\System32\\FNTCACHE.DAT")]
    case ScanDiskCleanupBackup =>
      [Cached("C:\\Windows\\System32\\LogFiles\\setupapi"), Cached("C:\\Windows\\Temp\\CheckSur"),
       Cached("C:\\Windows\\Logs\\CBS")]
    case ScanAppCache =>
      [Cached(Join(ad, "Adobe\\Common")), Cached(Join(lad, "Microsoft\\Office\\Recent")),
       Cached(Join(lad, "Microsoft\\Office\\OTele")), Cached(Join(lad, "Google\\DriveFS")),
       Cached(Join(lad, "Microsoft\\Teams\\Cache")), Cached(Join(ad, "Slack\\Cache")),
       Cached(Join(ad, "discord\\Cache")), Cached(Join(lad, "Microsoft\\Windows\\INetCache\\IE"))]
    case ScanMediaCache =>
      var player, art, storage := Join(lad, "Microsoft\\Media Player"), Join(ad, "vlc\\art"), Join(lad, "Spotify\\Storage");
      var cache, icons := Join(ad, "Spotify\\cache"), Join(lad, "Microsoft\\Windows\\Explorer\\iconcache*");
      [Wild(player, AnyFile, Cached(player)), Wild(art, AnyFile, Cached(art)), Wild(storage, AnyFile, Cached(storage)),
       Wild(cache, AnyFile, Cached(cache)), Wild(icons, AnyFile, Cached(icons))]
    case ScanSearchIndex =>
      var temps := NameEndsWith([".tmp", ".old", ".bak", ".log"]);
      [PerFile("C:\\ProgramData\\Microsoft\\Search\\Data\\Temp", temps),
       PerFile("C:\\ProgramData\\Microsoft\\Search\\Data\\Applications\\Windows", temps),
       PerFile("C:\\Windows\\ServiceProfiles\\LocalService\\AppData\\Local\\Microsoft\\Windows\\Search", temps)]
    case ScanBackupTemp =>
      [PerFile("C:\\Windows\\Temp\\WindowsBackup", OlderThanDays(30)),
       PerFile("C:\\Windows\\Logs\\WindowsBackup", OlderThanDays(30)),
       PerFile(Join(lad, "Microsoft\\Windows\\WindowsBackup"), OlderThanDays(30))]
    case ScanUpdateTemp =>
      [Cached("C:\\Windows\\SoftwareDistribution\\PostRebootEventCache"),
       Cached("C:\\Windows\\SoftwareDistribution\\Temp"), Cached("C:\\Windows\\WinSxS\\Temp"),
       Cached("C:\\Windows\\Temp\\TrustedInstaller")]
    case ScanDriverBackup => [Cached("C:\\Windows\\inf\\OLD"), Cached("C:\\Windows\\System32\\DriverStore\\Temp")]
    case ScanAppCrash =>
      [Cached("C:\\ProgramData\\Microsoft\\Windows\\WER\\ReportArchive"),
       Cached("C:\\ProgramData\\Microsoft\\Windows\\WER\\ReportQueue"),
       Cached(Join(lad, "CrashDumps")),
       Cached(Join(lad, "Microsoft\\Windows\\WER\\ReportArchive")),
       Cached(Join(lad, "Microsoft\\Windows\\WER\\ReportQueue"))]
    case ScanAppLogs =>
      var stale := ModifiedBefore(30);
      var teamsTxt, teams, office := Join(ad, "Microsoft\\Teams\\logs.txt"), Join(ad, "Microsoft\\Teams\\logs"), Join(lad, "Microsoft\\Office\\*.log");
      var slack, discord := Join(ad, "Slack\\logs"), Join(ad, "discord\\logs");
      [Wild(teamsTxt, stale, FileOrPerFile(teamsTxt, stale)), Wild(teams, stale, FileOrPerFile(teams, stale)),
       Wild(office, stale, FileOrPerFile(office, stale)), Wild(slack, stale, FileOrPerFile(slack, stale)),
       Wild(discord, stale, FileOrPerFile(discord, stale))]
    case ScanRecentItems =>
      [Cached(Join(ad, "Microsoft\\Windows\\Recent")), Cached(Join(ad, "Microsoft\\Office\\Recent"))]
    case ScanNotificationCache =>
      [Cached(Join(lad, "Microsoft\\Windows\\Notifications")),
       Cached(Join(user, "AppData\\Local\\Microsoft\\Windows\\ActionCenterCache"))]
    case ScanDnsCache => DnsCacheTargets
    case ScanPrinterTemp => PrinterTempTargets
    case ScanDeviceTemp =>
      [FileOrTree("C:\\Windows\\INF\\setupapi.dev.log"), FileOrTree("C:\\Windows\\INF\\setupapi.log"),
       FileOrTree("C:\\Windows\\System32\\LogFiles\\setupapi")]
    case ScanWindowsDefender =>
      [Cached("C:\\ProgramData\\Microsoft\\Windows Defender\\Scans\\History"),
       Cached("C:\\ProgramData\\Microsoft\\Windows Defender\\Quarantine"),
       Cached("C:\\ProgramData\\Microsoft\\Windows Defender\\Support")]
    case ScanStoreCache =>
      [Cached(Join(lad, "Packages\\Microsoft.WindowsStore_8wekyb3d8bbwe\\LocalCache")),
       Cached(Join(lad, "Packages\\Microsoft.WindowsStore_8wekyb3d8bbwe\\LocalState")),
       Cached(Join(lad, "Packages\\Microsoft.WindowsStore_8wekyb3d8bbwe\\TempState"))]
    case ScanOnedriveCache =>
      [Cached(Join(lad, "Microsoft\\OneDrive\\logs")), Cached(Join(lad, "Microsoft\\OneDrive\\settings\\Personal\\logs"))]
    case ScanDownloadsImmediate =>
      [Tree(Join(user, "Downloads"), true, true), Tree(Join(h.home, "Downloads"), true, true)]
    case ScanInstallerCacheSafe =>
      var safe := InstallerSafe([".tmp", ".temp", ".msi.cache", ".exe.cache", ".log", ".old"], 30);
      [PerFile("C:\\Windows\\Installer\\Temp", safe), PerFile("C:\\ProgramData\\Package Cache\\Temp", safe),
       PerFile("C:\\Windows\\Downloaded Program Files\\Temp", safe), PerFile(Join(lad, "Package Cache"), safe),
       PerFile(Join(lad, "Temp\\Downloaded Installations"), safe),
       PerFile("C:\\Windows\\Installer",
                    LowerNameEndsWith([".msp.cache", ".msi.cache", ".tmp", ".temp"], "windows_installer_cache"))]
    case ScanDeliveryOptimization =>
      [Cached("C:\\Windows\\ServiceProfiles\\NetworkService\\AppData\\Local\\Microsoft\\Windows\\DeliveryOptimization\\Cache"),
       Cached("C:\\Windows\\SoftwareDistribution\\DeliveryOptimization\\Cache")]
    case ScanLargeFiles => []
    case ScanDownloads =>
      var sel := NameEndsWithOrModifiedBefore([".tmp", ".temp", ".part", ".crdownload", ".download"], 30);
      [PerFile(Join(user, "Downloads"), sel), PerFile(Join(h.home, "Downloads"), sel)]
    case ScanInstallerCache =>
      [PerFile("C:\\Windows\\Installer", ModifiedBefore(90)), PerFile("C:\\ProgramData\\Package Cache", ModifiedBefore(90)),
       PerFile("C:\\Windows\\Downloaded Program Files", ModifiedBefore(90))]
    case ScanHibernationFile => [SingleFile(Hiberfil)]
    case ScanNetworkCache => NetworkCacheTargets
  }

  const Hiberfil: Path := "C:\\hiberfil.sys"

  /** The three rules whose every target lies below `C:\Windows\System32`. */
  const DnsCacheTargets: seq<Target> :=
    [SingleFile("C:\\Windows\\System32\\dnsrslvr.log"), SingleFile("C:\\Windows\\System32\\dns\\cache.dns")]

  const PrinterTempTargets: seq<Target> :=
    [Cached("C:\\Windows\\System32\\spool\\PRINTERS"), Cached("C:\\Windows\\System32\\spool\\SERVERS"),
     Cached("C:\\Windows\\System32\\spool\\drivers\\color")]

  const NetworkCacheTargets: seq<Target> :=
    [FileOrTree("C:\\Windows\\System32\\drivers\\etc\\hosts.ics"),
     FileOrTree("C:\\Windows\\System32\\drivers\\etc\\networks"),
     FileOrTree("C:\\Windows\\System32\\wbem\\Repository\\FS\\INDEX.BTR")]

  /**
   * The targets of a rule, in the order the rule visits them; `None` when the rule fails before
   * visiting any (listing a Firefox profiles path that is a file raises an error the rule does
   * not catch).
   */
  function Targets(h: Host, v: Vol, r: Rule): (ts: Option<seq<Target>>)
    ensures ts.None? <==> r == ScanBrowserCache && IsFile(v, FirefoxProfiles(h))
  {
    var fp := FirefoxProfiles(h);
    if r != ScanBrowserCache || !Exists(v, fp) then Some(RuleTargets(h, r))
    else if IsFile(v, fp) then None
    else Some(RuleTargets(h, r) + FirefoxCaches(v, fp, ListDir(v, fp)))
  }

  // ---------------------------------------------------------------- what a rule reports

  /** The entries of the targets `ts`, target after target. */
  function TargetsFindings(h: Host, v: Vol, ts: seq<Target>, kind: Category): seq<Finding>
  {
    if ts == [] then []
    else TargetsFindings(h, v, ts[..|ts| - 1], kind) + TargetFindings(h, v, ts[|ts| - 1], kind)
  }

  /** What a rule leaves in its results list, and whether an error escaped it. */
  datatype Outcome = Outcome(findings: seq<Finding>, raised: bool)

  /**
   * A rule run on its own: the large-file scan reports its sorted selection; a rule whose key
   * has no list raises at its first append and leaves nothing; any other rule reports the
   * entries of its targets.
   */
  function RuleOutcome(h: Host, v: Vol, r: Rule): Outcome
  {
    if r == ScanLargeFiles then Outcome(LF.LargeFileFindings(v), false)
    else match Targets(h, v, r)
      case None => Outcome([], true)
      case Some(ts) =>
        var fs := TargetsFindings(h, v, ts, KeyOf(r));
        if HasList(KeyOf(r)) then Outcome(fs, false) else Outcome([], fs != [])
  }

  /**
   * The rule under an unexpected error (an `OSError` other than the two the rules catch, an
   * out-of-range timestamp): `faults[r]` is how many entries the rule appends before it. The
   * large-file scan appends once, at its end, so a fault leaves it nothing.
   */
  function Faulted(o: Outcome, r: Rule, faults: map<Rule, nat>): (f: Outcome)
    ensures r !in faults ==> f == o
    ensures r in faults ==> f.raised && |f.findings| <= |o.findings| && f.findings == o.findings[..|f.findings|]
  {
    if r !in faults then o
    else if r == ScanLargeFiles || faults[r] > |o.findings| then
      Outcome(if r == ScanLargeFiles then [] else o.findings, true)
    else Outcome(o.findings[..faults[r]], true)
  }

  /** What rule `r` contributes to the scan. */
  function Contribution(h: Host, v: Vol, r: Rule, faults: map<Rule, nat>): Outcome
  {
    Faulted(RuleOutcome(h, v, r), r, faults)
  }

  // ---------------------------------------------------------------- the scan loops

  lemma FirefoxCachesSnoc(v: Vol, profiles: Path, names: seq<string>, i: nat)
    requires i < |names|
    ensures var cache := Join(Join(profiles, names[i]), "cache2");
            FirefoxCaches(v, profiles, names[..i + 1])
            == FirefoxCaches(v, profiles, names[..i]) + (if Exists(v, cache) then [Cached(cache)] else [])
  {
    assert names[..i + 1][..i] == names[..i];
  }

  /** The Firefox profile listing loop. */
  method ListFirefoxCaches(v: Vol, profiles: Path) returns (ts: seq<Target>)
    ensures ts == FirefoxCaches(v, profiles, ListDir(v, profiles))
  {
    var names := ListDir(v, profiles);
    ts := [];
    for i := 0 to |names|
      invariant ts == FirefoxCaches(v, profiles, names[..i])
    {
      FirefoxCachesSnoc(v, profiles, names, i);
      var cache := Join(Join(profiles, names[i]), "cache2");
      if Exists(v, cache) {
        ts := ts + [Cached(cache)];
      }
    }
    assert names[..|names|] == names;
  }

  /** The targets a rule visits, the Firefox profiles listed when the rule gets that far. */
  method ListTargets(h: Host, v: Vol, r: Rule) returns (ts: Option<seq<Target>>)
    ensures ts == Targets(h, v, r)
  {
    var fixed := RuleTargets(h, r);
    ts := Some(fixed);
    var fp := FirefoxProfiles(h);
    if r == ScanBrowserCache && Exists(v, fp) {
      if IsFile(v, fp) {
        ts := None;
      } else {
        var profileCaches := ListFirefoxCaches(v, fp);
        ts := Some(fixed + profileCaches);
      }
    }
  }

  /** The loop over a rule's targets. */
  method ScanTargets(h: Host, v: Vol, ts: seq<Target>, kind: Category) returns (fs: seq<Finding>)
    ensures fs == TargetsFindings(h, v, ts, kind)
  {
    fs := [];
    var i := 0;
    while i < |ts|
      invariant 0 <= i <= |ts|
      invariant fs == TargetsFindings(h, v, ts[..i], kind)
    {
      assert ts[..i + 1][..i] == ts[..i];
      var found := ScanTarget(h, v, ts[i], kind);
      fs := fs + found;
      i := i + 1;
    }
    assert ts[..i] == ts;
  }

  /** One rule, run on its own. */
  method RunRule(h: Host, v: Vol, r: Rule) returns (o: Outcome)
    ensures o == RuleOutcome(h, v, r)
  {
    if r == ScanLargeFiles {
      var large := LF.ScanLargeFiles(v);
      return Outcome(large, false);
    }
    var ts := ListTargets(h, v, r);
    if ts.None? {
      return Outcome([], true);
    }
    var fs := ScanTargets(h, v, ts.value, KeyOf(r));
    if HasList(KeyOf(r)) {
      o := Outcome(fs, false);
    } else {
      o := Outcome([], fs != []);
    }
  }

  /** The initial results map: an empty list under each of the 33 keys. */
  function EmptyResults(): (m: map<Category, seq<Finding>>)
    ensures forall k :: k in m <==> HasList(k)
    ensures forall k :: k in m ==> m[k] == []
  {
    ResultKeysHaveLists();
    map k | k in ResultKeys :: []
  }

  /** A task list whose rules append to distinct keys, each of which has a list. */
  predicate KeyedTasks(rs: seq<Rule>)
  {
    (forall i :: 0 <= i < |rs| ==> HasList(KeyOf(rs[i])))
    && forall i, j :: 0 <= i < j < |rs| ==> KeyOf(rs[i]) != KeyOf(rs[j])
  }

  /** What the first `|os|` tasks of `rs` append, given their outcomes `os`: each task's key and its entries. */
  function AppendsOf(rs: seq<Rule>, os: seq<Outcome>): (a: seq<(Category, seq<Finding>)>)
    requires |os| <= |rs|
    ensures |a| == |os|
  {
    if os == [] then []
    else AppendsOf(rs, os[..|os| - 1]) + [(KeyOf(rs[|os| - 1]), os[|os| - 1].findings)]
  }

  /** The results map `start` once the first `|os|` tasks of `rs` have appended. */
  function ResultsOf(start: map<Category, seq<Finding>>, rs: seq<Rule>, os: seq<Outcome>): map<Category, seq<Finding>>
    requires |os| <= |rs|
  {
    Collect(start, AppendsOf(rs, os))
  }

  /** A results map with an empty list under each key that has one. */
  predicate Fresh(start: map<Category, seq<Finding>>)
  {
    (forall k :: k in start <==> HasList(k)) && forall k :: k in start ==> start[k] == []
  }

  /** The rules among the first `|os|` tasks of `rs` that raised, in task order. */
  function FailedOf(rs: seq<Rule>, os: seq<Outcome>): seq<Rule>
    requires |os| <= |rs|
  {
    if os == [] then []
    else FailedOf(rs, os[..|os| - 1]) + (if os[|os| - 1].raised then [rs[|os| - 1]] else [])
  }

  /** The outcomes of the tasks `rs`. */
  function Outcomes(h: Host, v: Vol, faults: map<Rule, nat>, rs: seq<Rule>): (os: seq<Outcome>)
    ensures |os| == |rs|
  {
    if rs == [] then [] else Outcomes(h, v, faults, rs[..|rs| - 1]) + [Contribution(h, v, rs[|rs| - 1], faults)]
  }

  /** The results map after the registered rules have run, each appending what it contributes. */
  function ScanResults(h: Host, v: Vol, faults: map<Rule, nat>): map<Category, seq<Finding>>
  {
    ResultsOf(EmptyResults(), Registered, Outcomes(h, v, faults, Registered))
  }

  /** The rules whose errors the scan logs. */
  function ScanFailures(h: Host, v: Vol, faults: map<Rule, nat>): seq<Rule>
  {
    FailedOf(Registered, Outcomes(h, v, faults, Registered))
  }

  /** One task: the rule under its faults. */
  method RunTask(h: Host, v: Vol, r: Rule, faults: map<Rule, nat>) returns (o: Outcome)
    ensures o == Contribution(h, v, r, faults)
  {
    o := RunRule(h, v, r);
    o := Faulted(o, r, faults);
  }

  /** The tasks `rs` run one after another, each in isolation from the others' errors. */
  method RunTasks(h: Host, v: Vol, faults: map<Rule, nat>, rs: seq<Rule>) returns (os: seq<Outcome>)
    ensures os == Outcomes(h, v, faults, rs)
  {
    os := [];
    for i := 0 to |rs|
      invariant os == Outcomes(h, v, faults, rs[..i])
    {
      var o := RunTask(h, v, rs[i], faults);
      OutcomesSnoc(h, v, faults, rs, i);
      os := os + [o];
    }
    assert rs[..|rs|] == rs;
  }

  /**
   * What the tasks leave behind: each task's entries under its key, in task order, and the
   * tasks that raised, logged in task order.
   */
  method MergeOutcomes(rs: seq<Rule>, os: seq<Outcome>)
    returns (results: map<Category, seq<Finding>>, failed: seq<Rule>)
    requires KeyedTasks(rs) && |os| == |rs|
    ensures results == ResultsOf(EmptyResults(), rs, os) && failed == FailedOf(rs, os)
  {
    results := EmptyResults();
    failed := [];
    for i := 0 to |os|
      invariant results == ResultsOf(EmptyResults(), rs, os[..i]) && failed == FailedOf(rs, os[..i])
    {
      var key := KeyOf(rs[i]);
      MergeStep(EmptyResults(), rs, os, i);
      results := results[key := results[key] + os[i].findings];
      if os[i].raised {
        failed := failed + [rs[i]];
      }
    }
    assert os[..|os|] == os;
  }

  /**
   * `scan_system`, run sequentially over the 33 registered tasks. The registered tasks append
   * to distinct keys, so the order in which the threads of the source interleave their appends
   * leaves the same lists.
   */
  method ScanSystem(h: Host, v: Vol, faults: map<Rule, nat>)
    returns (results: map<Category, seq<Finding>>, failed: seq<Rule>)
    ensures results == ScanResults(h, v, faults)
    ensures failed == ScanFailures(h, v, faults)
  {
    RegisteredKeysFit();
    var os := RunTasks(h, v, faults, Registered);
    results, failed := MergeOutcomes(Registered, os);
  }

  // ---------------------------------------------------------------- properties

  /** The key at a position: the inverse of `KeyIndex`. */
  function KeyAt(n: nat): Category
  {
    if n == 0 then Temp
    else     if n == 1 then Recycle
    else     if n == 2 then Cache
    else     if n == 3 then Logs
    else     if n == 4 then Updates
    else     if n == 5 then Thumbnails
    else     if n == 6 then Prefetch
    else     if n == 7 then OldWindows
    else     if n == 8 then ErrorReports
    else     if n == 9 then ServicePacks
    else     if n == 10 then MemoryDumps
    else     if n == 11 then FontCache
    else     if n == 12 then DiskCleanup
    else     if n == 13 then AppCache
    else     if n == 14 then MediaCache
    else     if n == 15 then SearchIndex
    else     if n == 16 then BackupTemp
    else     if n == 17 then UpdateTemp
    else     if n == 18 then DriverBackup
    else     if n == 19 then AppCrash
    else     if n == 20 then AppLogs
    else     if n == 21 then RecentItems
    else     if n == 22 then Notification
    else     if n == 23 then DnsCache
    else     if n == 24 then PrinterTemp
    else     if n == 25 then DeviceTemp
    else     if n == 26 then WindowsDefender
    else     if n == 27 then StoreCache
    else     if n == 28 then OnedriveCache
    else     if n == 29 then Downloads
    else     if n == 30 then InstallerCache
    else     if n == 31 then DeliveryOpt
    else     if n == 32 then LargeFiles
    else     if n == 33 then Hibernation
    else NetworkCache
  }

  lemma KeyAtIndex(k: Category)
    ensures KeyIndex(k) < 35 && KeyAt(KeyIndex(k)) == k
  {
  }

  /** `KeyIndex` gives the position of each listed key in the key list; the two unlisted keys come after. */
  lemma KeyIndexInverse(k: Category)
    ensures HasList(k) <==> KeyIndex(k) < |ResultKeys|
    ensures HasList(k) ==> ResultKeys[KeyIndex(k)] == k
  {
    KeysLineUp();
    KeyAtIndex(k);
    var n := KeyIndex(k);
    if n < |ResultKeys| {
      KeyAtIndex(ResultKeys[n]);
      assert KeyIndex(Hibernation) == 33 && KeyIndex(NetworkCache) == 34;
    }
  }


  /**
   * The task list and the key list line up: the `i`-th registered rule appends to the `i`-th
   * key, and a key has a list exactly when its position is among the first 33.
   */
  lemma KeysOfRegistered()
    ensures |Registered| == |ResultKeys| == 33
    ensures forall i :: 0 <= i < |Registered| ==> KeyOf(Registered[i]) == ResultKeys[i]
    ensures forall i, j :: 0 <= i < j < |Registered| ==> KeyOf(Registered[i]) != KeyOf(Registered[j])
  {
    KeysLineUp();
    forall i, j | 0 <= i < j < |Registered|
      ensures KeyOf(Registered[i]) != KeyOf(Registered[j])
    {
      assert KeyIndex(KeyOf(Registered[i])) == i;
    }
  }

  lemma KeysLineUp()
    ensures |Registered| == |ResultKeys| == 33
    ensures forall i :: 0 <= i < |Registered| ==> KeyOf(Registered[i]) == ResultKeys[i]
    ensures forall i :: 0 <= i < |ResultKeys| ==> KeyIndex(ResultKeys[i]) == i
  {
    forall i | 0 <= i < |ResultKeys|
      ensures KeyOf(Registered[i]) == ResultKeys[i] && KeyIndex(ResultKeys[i]) == i
    {
      if i < 3 { KeyAtA(i); } else if i < 6 { KeyAtB(i); } else if i < 9 { KeyAtC(i); }
      else if i < 12 { KeyAtD(i); } else if i < 15 { KeyAtE(i); } else if i < 18 { KeyAtF(i); }
      else if i < 21 { KeyAtG(i); } else if i < 24 { KeyAtH(i); } else if i < 27 { KeyAtI(i); }
      else if i < 30 { KeyAtJ(i); } else { KeyAtK(i); }
    }
  }

  /** The registered rules append to 33 distinct keys, each of which has a list. */
  lemma RegisteredKeysFit()
    ensures |Registered| == 33 && KeyedTasks(Registered)
  {
    KeysOfRegistered();
    ResultKeysHaveLists();
  }

  /** A key has a list exactly when it is one of the 33 result keys. */
  lemma ResultKeysHaveLists()
    ensures forall k :: HasList(k) <==> k in ResultKeys
  {
    KeysLineUp();
    forall k
      ensures HasList(k) <==> k in ResultKeys
    {
      KeyIndexInverse(k);
      if k in ResultKeys {
        var j :| 0 <= j < |ResultKeys| && ResultKeys[j] == k;
      }
    }
  }


  /** The `i`-th append is the key of the `i`-th task with that task's entries. */
  lemma {:induction false} AppendsOfAt(rs: seq<Rule>, os: seq<Outcome>, i: nat)
    requires i < |os| <= |rs|
    ensures AppendsOf(rs, os)[i] == (KeyOf(rs[i]), os[i].findings)
  {
    if i < |os| - 1 {
      AppendsOfAt(rs, os[..|os| - 1], i);
    }
  }

  /** Each of the first `|os|` tasks has its own key's list to itself, and the map keeps its 33 keys. */
  lemma ResultsOfByKey(start: map<Category, seq<Finding>>, rs: seq<Rule>, os: seq<Outcome>)
    requires Fresh(start) && KeyedTasks(rs) && |os| <= |rs|
    ensures forall k :: k in ResultsOf(start, rs, os) <==> HasList(k)
    ensures forall i :: 0 <= i < |os| ==> ResultsOf(start, rs, os)[KeyOf(rs[i])] == os[i].findings
  {
    var a := AppendsOf(rs, os);
    forall i | 0 <= i < |a|
      ensures a[i] == (KeyOf(rs[i]), os[i].findings)
    {
      AppendsOfAt(rs, os, i);
    }
    CollectByKey(start, a);
  }

  /** One more task: its entries go under its key, and it is logged when it raised. */
  lemma TaskStep(start: map<Category, seq<Finding>>, rs: seq<Rule>, os: seq<Outcome>, o: Outcome)
    requires (forall k :: k in start <==> HasList(k)) && |os| < |rs| && HasList(KeyOf(rs[|os|]))
    ensures var key := KeyOf(rs[|os|]);
            key in ResultsOf(start, rs, os)
            && ResultsOf(start, rs, os + [o]) == ResultsOf(start, rs, os)[key := ResultsOf(start, rs, os)[key] + o.findings]
    ensures FailedOf(rs, os + [o]) == FailedOf(rs, os) + (if o.raised then [rs[|os|]] else [])
  {
    var a := AppendsOf(rs, os);
    var key := KeyOf(rs[|os|]);
    assert (os + [o])[..|os|] == os;
    assert AppendsOf(rs, os + [o]) == a + [(key, o.findings)];
    CollectSnoc(start, a, key, o.findings);
    CollectDomain(start, a);
  }

  /** The same step, on prefixes of the outcome list. */
  lemma MergeStep(start: map<Category, seq<Finding>>, rs: seq<Rule>, os: seq<Outcome>, i: nat)
    requires (forall k :: k in start <==> HasList(k)) && |os| == |rs| && i < |os| && HasList(KeyOf(rs[i]))
    ensures var key := KeyOf(rs[i]);
            key in ResultsOf(start, rs, os[..i])
            && ResultsOf(start, rs, os[..i + 1]) == ResultsOf(start, rs, os[..i])[key := ResultsOf(start, rs, os[..i])[key] + os[i].findings]
    ensures FailedOf(rs, os[..i + 1]) == FailedOf(rs, os[..i]) + (if os[i].raised then [rs[i]] else [])
  {
    assert os[..i + 1] == os[..i] + [os[i]];
    TaskStep(start, rs, os[..i], os[i]);
  }

  lemma {:induction false} FailedOfRules(rs: seq<Rule>, os: seq<Outcome>)
    requires |os| <= |rs|
    ensures forall r :: r in FailedOf(rs, os) ==> r in rs[..|os|]
  {
    if os != [] {
      FailedOfRules(rs, os[..|os| - 1]);
      assert forall r :: r in rs[..|os| - 1] ==> r in rs[..|os|];
    }
  }

  /** Only tasks of the list are logged. */
  lemma FailedOfListed(rs: seq<Rule>, os: seq<Outcome>, r: Rule)
    requires |os| == |rs|
    ensures r in FailedOf(rs, os) ==> r in rs
  {
    FailedOfRules(rs, os);
    assert rs[..|os|] == rs;
  }

  /** Of the first `|os|` tasks, the `i`-th is logged exactly when it raised. */
  lemma {:induction false} FailedOfIff(rs: seq<Rule>, os: seq<Outcome>, i: nat)
    requires NoDups(rs) && i < |os| <= |rs|
    ensures rs[i] in FailedOf(rs, os) <==> os[i].raised
  {
    var n := |os| - 1;
    FailedOfRules(rs, os[..n]);
    if i < n {
      FailedOfIff(rs, os[..n], i);
    } else {
      assert rs[n] !in rs[..n];
    }
  }

  /** Tasks with distinct keys are distinct rules. */
  lemma KeyedNoDups(rs: seq<Rule>)
    requires KeyedTasks(rs)
    ensures NoDups(rs)
  {
    forall i, j | 0 <= i < j < |rs|
      ensures rs[i] != rs[j]
    {
      assert KeyOf(rs[i]) != KeyOf(rs[j]);
    }
  }

  /** One more task adds its contribution. */
  lemma OutcomesSnoc(h: Host, v: Vol, faults: map<Rule, nat>, rs: seq<Rule>, i: nat)
    requires i < |rs|
    ensures Outcomes(h, v, faults, rs[..i + 1]) == Outcomes(h, v, faults, rs[..i]) + [Contribution(h, v, rs[i], faults)]
  {
    assert rs[..i + 1][..i] == rs[..i];
  }

  /** The `i`-th outcome is what the `i`-th rule contributes. */
  lemma {:induction false} OutcomesAt(h: Host, v: Vol, faults: map<Rule, nat>, rs: seq<Rule>, i: nat)
    requires i < |rs|
    ensures Outcomes(h, v, faults, rs)[i] == Contribution(h, v, rs[i], faults)
  {
    if i < |rs| - 1 {
      OutcomesAt(h, v, faults, rs[..|rs| - 1], i);
    }
  }

  /** After the scan the results have exactly the 33 keys. */
  lemma ScanResultsKeys(h: Host, v: Vol, faults: map<Rule, nat>)
    ensures forall k :: k in ScanResults(h, v, faults) <==> HasList(k)
  {
    RegisteredKeysFit();
    ResultsOfByKey(EmptyResults(), Registered, Outcomes(h, v, faults, Registered));
  }

  /**
   * The list of a registered rule holds exactly what that rule contributed, whatever the other
   * rules did.
   */
  lemma ScanResultsByRule(h: Host, v: Vol, faults: map<Rule, nat>, r: Rule)
    requires r in Registered
    ensures KeyOf(r) in ScanResults(h, v, faults)
    ensures ScanResults(h, v, faults)[KeyOf(r)] == Contribution(h, v, r, faults).findings
  {
    var i :| 0 <= i < |Registered| && Registered[i] == r;
    RegisteredKeysFit();
    ResultsOfByKey(EmptyResults(), Registered, Outcomes(h, v, faults, Registered));
    OutcomesAt(h, v, faults, Registered, i);
  }

  /** A rule is logged as failed exactly when it is registered and raised. */
  lemma ScanFailuresIff(h: Host, v: Vol, faults: map<Rule, nat>, r: Rule)
    ensures r in ScanFailures(h, v, faults) <==> r in Registered && Contribution(h, v, r, faults).raised
  {
    var os := Outcomes(h, v, faults, Registered);
    RegisteredKeysFit();
    KeyedNoDups(Registered);
    FailedOfListed(Registered, os, r);
    if r in Registered {
      var i :| 0 <= i < |Registered| && Registered[i] == r;
      FailedOfIff(Registered, os, i);
      OutcomesAt(h, v, faults, Registered, i);
    }
  }

  lemma KeyAtA(i: nat)
    requires 0 <= i < 3
    ensures KeyOf(Registered[i]) == ResultKeys[i] && KeyIndex(ResultKeys[i]) == i
  {
    if i == 0 {
    } else if i == 1 {
    } else if i == 2 {
    }
  }

  lemma KeyAtB(i: nat)
    requires 3 <= i < 6
    ensures KeyOf(Registered[i]) == ResultKeys[i] && KeyIndex(ResultKeys[i]) == i
  {
    if i == 3 {
    } else if i == 4 {
    } else if i == 5 {
    }
  }

  lemma KeyAtC(i: nat)
    requires 6 <= i < 9
    ensures KeyOf(Registered[i]) == ResultKeys[i] && KeyIndex(ResultKeys[i]) == i
  {
    if i == 6 {
    } else if i == 7 {
    } else if i == 8 {
    }
  }

  lemma KeyAtD(i: nat)
    requires 9 <= i < 12
    ensures KeyOf(Registered[i]) == ResultKeys[i] && KeyIndex(ResultKeys[i]) == i
  {
    if i == 9 {
    } else if i == 10 {
    } else if i == 11 {
    }
  }

  lemma KeyAtE(i: nat)
    requires 12 <= i < 15
    ensures KeyOf(Registered[i]) == ResultKeys[i] && KeyIndex(ResultKeys[i]) == i
  {
    if i == 12 {
    } else if i == 13 {
    } else if i == 14 {
    }
  }

  lemma KeyAtF(i: nat)
    requires 15 <= i < 18
    ensures KeyOf(Registered[i]) == ResultKeys[i] && KeyIndex(ResultKeys[i]) == i
  {
    if i == 15 {
    } else if i == 16 {
    } else if i == 17 {
    }
  }

  lemma KeyAtG(i: nat)
    requires 18 <= i < 21
    ensures KeyOf(Registered[i]) == ResultKeys[i] && KeyIndex(ResultKeys[i]) == i
  {
    if i == 18 {
    } else if i == 19 {
    } else if i == 20 {
    }
  }

  lemma KeyAtH(i: nat)
    requires 21 <= i < 24
    ensures KeyOf(Registered[i]) == ResultKeys[i] && KeyIndex(ResultKeys[i]) == i
  {
    if i == 21 {
    } else if i == 22 {
    } else if i == 23 {
    }
  }

  lemma KeyAtI(i: nat)
    requires 24 <= i < 27
    ensures KeyOf(Registered[i]) == ResultKeys[i] && KeyIndex(ResultKeys[i]) == i
  {
    if i == 24 {
    } else if i == 25 {
    } else if i == 26 {
    }
  }

  lemma KeyAtJ(i: nat)
    requires 27 <= i < 30
    ensures KeyOf(Registered[i]) == ResultKeys[i] && KeyIndex(ResultKeys[i]) == i
  {
    if i == 27 {
    } else if i == 28 {
    } else if i == 29 {
    }
  }

  lemma KeyAtK(i: nat)
    requires 30 <= i < 33
    ensures KeyOf(Registered[i]) == ResultKeys[i] && KeyIndex(ResultKeys[i]) == i
  {
    if i == 30 {
    } else if i == 31 {
    } else if i == 32 {
    }
  }

  /**
   * Four rules are defined but never registered: two share their keys with registered rules,
   * and two append to keys the results map has no list for.
   */
  lemma UnregisteredRules()
    ensures forall i :: 0 <= i < |Registered| ==>
              Registered[i] != ScanDownloads && Registered[i] != ScanInstallerCache
              && Registered[i] != ScanHibernationFile && Registered[i] != ScanNetworkCache
  {
    UnlistedRulesUnregistered();
    DownloadsShadowed();
    InstallerCacheShadowed();
  }

  /** The two rules whose keys have no list are not registered: every registered key has one. */
  lemma UnlistedRulesUnregistered()
    ensures forall i :: 0 <= i < |Registered| ==>
              Registered[i] != ScanHibernationFile && Registered[i] != ScanNetworkCache
  {
    RegisteredKeysFit();
  }

  /** The registered `_immediate` and `_safe` variants hold the keys of the older downloads and installer-cache rules. */
  lemma Shadowers()
    ensures Registered[29] == ScanDownloadsImmediate && Registered[30] == ScanInstallerCacheSafe
  {
  }

  /**
   * When the `i`-th task appends to the `i`-th key of a list `KeyIndex` numbers, a rule whose key
   * is numbered `j` can only be the `j`-th task.
   */
  lemma ShadowedByIndex(rs: seq<Rule>, ks: seq<Category>, j: nat, r: Rule)
    requires |rs| == |ks| && j < |rs| && KeyIndex(KeyOf(r)) == j && rs[j] != r
    requires forall i :: 0 <= i < |rs| ==> KeyOf(rs[i]) == ks[i]
    requires forall i :: 0 <= i < |ks| ==> KeyIndex(ks[i]) == i
    ensures forall i :: 0 <= i < |rs| ==> rs[i] != r
  {
    forall i | 0 <= i < |rs|
      ensures rs[i] != r
    {
      assert KeyIndex(KeyOf(rs[i])) == i;
    }
  }

  lemma DownloadsShadowed()
    ensures forall i :: 0 <= i < |Registered| ==> Registered[i] != ScanDownloads
  {
    KeysLineUp();
    Shadowers();
    ShadowedByIndex(Registered, ResultKeys, 29, ScanDownloads);
  }


  lemma InstallerCacheShadowed()
    ensures forall i :: 0 <= i < |Registered| ==> Registered[i] != ScanInstallerCache
  {
    KeysLineUp();
    Shadowers();
    ShadowedByIndex(Registered, ResultKeys, 30, ScanInstallerCache);
  }


  /** The hibernation rule would raise on a present hibernation file, leaving nothing. */
  lemma HibernationRaises(h: Host, v: Vol)
    requires IsFile(v, Hiberfil) && SizeOf(v, Hiberfil) > 0
    ensures RuleOutcome(h, v, ScanHibernationFile) == Outcome([], true)
  {
    HiberfilReported(h, v);
    assert RuleTargets(h, ScanHibernationFile) == [SingleFile(Hiberfil)];
    assert Targets(h, v, ScanHibernationFile) == Some([SingleFile(Hiberfil)]);
    assert !HasList(KeyOf(ScanHibernationFile));
  }

  lemma HiberfilReported(h: Host, v: Vol)
    requires IsFile(v, Hiberfil) && SizeOf(v, Hiberfil) > 0
    ensures TargetsFindings(h, v, [SingleFile(Hiberfil)], Hibernation) != []
  {
    HiberfilSafe();
    assert [SingleFile(Hiberfil)][..0] == [];
  }

  lemma HiberfilSafe()
    ensures IsSafe(Hiberfil)
  {
    IsSafeIff(Hiberfil);
    assert Hiberfil[3] != "C:\\Windows\\System32"[3];
    assert Hiberfil[3] != "C:\\Program Files"[3];
  }


  /** The targets of the DNS, printer and network rules all lie below `C:\Windows\System32`. */
  lemma System32Vetoed(p: Path)
    requires StartsWith(p, "C:\\Windows\\System32")
    ensures !IsSafe(p)
  {
    IsSafeIff(p);
  }

  /** A rule all of whose targets are vetoed reports nothing. */
  lemma {:induction false} VetoedTargetsSilent(h: Host, v: Vol, ts: seq<Target>, kind: Category)
    requires forall t :: t in ts ==> VettedRoot(t).Some? && !IsSafe(VettedRoot(t).value)
    ensures TargetsFindings(h, v, ts, kind) == []
  {
    if ts != [] {
      VetoedTargetsSilent(h, v, ts[..|ts| - 1], kind);
      VetoedTargetSilent(h, v, ts[|ts| - 1], kind);
    }
  }

  /** A rule other than the two special ones whose every target is vetoed reports nothing and raises nothing. */
  lemma VetoedRuleSilent(h: Host, v: Vol, r: Rule)
    requires r != ScanLargeFiles && r != ScanBrowserCache
    requires forall t :: t in RuleTargets(h, r) ==> VettedRoot(t).Some? && !IsSafe(VettedRoot(t).value)
    ensures RuleOutcome(h, v, r) == Outcome([], false)
  {
    VetoedTargetsSilent(h, v, RuleTargets(h, r), KeyOf(r));
  }

  lemma DnsPathsVetoed()
    ensures !IsSafe("C:\\Windows\\System32\\dnsrslvr.log") && !IsSafe("C:\\Windows\\System32\\dns\\cache.dns")
  {
    System32Vetoed("C:\\Windows\\System32\\dnsrslvr.log");
    System32Vetoed("C:\\Windows\\System32\\dns\\cache.dns");
  }

  lemma DnsTargetsVetoed()
    ensures forall t :: t in DnsCacheTargets ==> VettedRoot(t).Some? && !IsSafe(VettedRoot(t).value)
  {
    DnsPathsVetoed();
  }


  lemma PrinterPathsVetoed()
    ensures !IsSafe("C:\\Windows\\System32\\spool\\PRINTERS") && !IsSafe("C:\\Windows\\System32\\spool\\SERVERS") && !IsSafe("C:\\Windows\\System32\\spool\\drivers\\color")
  {
    System32Vetoed("C:\\Windows\\System32\\spool\\PRINTERS");
    System32Vetoed("C:\\Windows\\System32\\spool\\SERVERS");
    System32Vetoed("C:\\Windows\\System32\\spool\\drivers\\color");
  }

  lemma PrinterTargetsVetoed()
    ensures forall t :: t in PrinterTempTargets ==> VettedRoot(t).Some? && !IsSafe(VettedRoot(t).value)
  {
    PrinterPathsVetoed();
  }


  lemma NetworkPathsVetoed()
    ensures !IsSafe("C:\\Windows\\System32\\drivers\\etc\\hosts.ics") && !IsSafe("C:\\Windows\\System32\\drivers\\etc\\networks") && !IsSafe("C:\\Windows\\System32\\wbem\\Repository\\FS\\INDEX.BTR")
  {
    System32Vetoed("C:\\Windows\\System32\\drivers\\etc\\hosts.ics");
    System32Vetoed("C:\\Windows\\System32\\drivers\\etc\\networks");
    System32Vetoed("C:\\Windows\\System32\\wbem\\Repository\\FS\\INDEX.BTR");
  }

  lemma NetworkTargetsVetoed()
    ensures forall t :: t in NetworkCacheTargets ==> VettedRoot(t).Some? && !IsSafe(VettedRoot(t).value)
  {
    NetworkPathsVetoed();
  }



  /** The DNS cache, printer and network cache rules can never report anything. */
  lemma DnsCacheSilent(h: Host, v: Vol)
    ensures RuleOutcome(h, v, ScanDnsCache) == Outcome([], false)
  {
    DnsTargetsVetoed();
    VetoedRuleSilent(h, v, ScanDnsCache);
  }

  lemma PrinterTempSilent(h: Host, v: Vol)
    ensures RuleOutcome(h, v, ScanPrinterTemp) == Outcome([], false)
  {
    PrinterTargetsVetoed();
    VetoedRuleSilent(h, v, ScanPrinterTemp);
  }

  lemma NetworkCacheSilent(h: Host, v: Vol)
    ensures RuleOutcome(h, v, ScanNetworkCache) == Outcome([], false)
  {
    NetworkTargetsVetoed();
    VetoedRuleSilent(h, v, ScanNetworkCache);
  }

  /** A Firefox profiles path that is a file sinks the whole browser-cache rule, Chrome and Edge included. */
  lemma FirefoxFileSinksBrowserCache(h: Host, v: Vol, faults: map<Rule, nat>)
    requires IsFile(v, FirefoxProfiles(h))
    ensures Contribution(h, v, ScanBrowserCache, faults) == Outcome([], true)
  {
  }

  /**
   * With `TEMP` unset the temporary-files rule walks `C:\Windows\Temp` twice, so each of its
   * files is reported twice.
   */
  lemma TempDirWalkedTwice(h: Host, v: Vol)
    requires h.temp.None?
    ensures var once := TargetFindings(h, v, PerFile("C:\\Windows\\Temp", AnyFile), Temp);
            RuleOutcome(h, v, ScanTempFiles) == Outcome(once + once, false)
  {
    var t := PerFile("C:\\Windows\\Temp", AnyFile);
    var ts := [t, t];
    assert RuleTargets(h, ScanTempFiles) == ts;
    assert Targets(h, v, ScanTempFiles) == Some(ts);
    assert HasList(KeyOf(ScanTempFiles));
    assert ts[..1][..0] == [] && ts[..1] == [t];
    assert TargetsFindings(h, v, ts[..1], Temp) == TargetFindings(h, v, t, Temp);
  }

  /** Every large-file entry of the scan lies below `C:\Users` and passes the veto. */
  lemma ScannedLargeFilesUnderUsers(h: Host, v: Vol, faults: map<Rule, nat>, f: Finding)
    requires f in Contribution(h, v, ScanLargeFiles, faults).findings
    ensures Under(f.path, "C:\\Users") && IsSafe(f.path) && f.size >= LF.MinSize && f.kind == LargeFiles
  {
    LF.LargeFilesSound(v);
  }

  /** The rules that write aggregate entries report each directory at most once, with its tree size. */
  lemma {:induction false} AggregateRuleEntries(h: Host, v: Vol, ts: seq<Target>, kind: Category)
    requires forall t :: t in ts ==> t.Tree?
    ensures |TargetsFindings(h, v, ts, kind)| <= |ts|
    ensures forall f :: f in TargetsFindings(h, v, ts, kind) ==>
              Tree(f.path, true, false) in ts || Tree(f.path, false, false) in ts || Tree(f.path, true, true) in ts
              || Tree(f.path, false, true) in ts
    ensures forall f :: f in TargetsFindings(h, v, ts, kind) ==> f.size == TreeSize(v, f.path) && f.size > 0
  {
    if ts != [] {
      var init := ts[..|ts| - 1];
      var t := ts[|ts| - 1];
      AggregateRuleEntries(h, v, init, kind);
      TreeFinding(h, v, t.dir, t.vetted, t.counted, kind);
      assert forall u :: u in init ==> u in ts;
    }
  }
}
