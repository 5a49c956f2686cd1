/**
 * The backup manager window (`BackupManagerWindow`): the only place where positive backup
 * limits are enforced. It reads the limits from two text fields, converts megabytes to bytes
 * for the engine and back to megabytes for display, checks a new backup directory, and
 * shows sizes in the largest unit below the next threshold. Message boxes become the
 * `ok` result (an information box when true, an error box when false).
 */
module BackupWindow {
  import opened Wrappers
  import opened Text
  import opened WinPath
  import opened Volume
  import opened Options
  import opened BackupStore
  import opened Engine

  // ---------------------------------------------------------------- megabytes

  const Megabyte: int := 1024 * 1024

  /** `int(a / b)` for a positive `b`: the quotient truncated toward zero. */
  function TruncDiv(a: int, b: int): (q: int)
    requires b > 0
    ensures a >= 0 ==> q * b <= a < q * b + b
    ensures a < 0 ==> q * b - b < a <= q * b
  {
    if a >= 0 then a / b else -((-a) / b)
  }

  /**
   * The megabytes the window shows for a stored size limit: a number divided by 1024 * 1024
   * and truncated toward zero; `True` and `False` count as 1 and 0; text or `None` makes the
   * division raise (`None`).
   */
  function MegabytesOf(x: Value): (r: Option<int>)
    ensures r.Some? <==> AsInt(x).Some?
  {
    match AsInt(x)
    case None => None
    case Some(n) => Some(TruncDiv(n, Megabyte))
  }

  /** A size entered in megabytes reads back as the same megabytes. */
  lemma MegabytesRoundTrip(mb: int)
    ensures MegabytesOf(VInt(mb * Megabyte)) == Some(mb)
  {
    var q := TruncDiv(mb * Megabyte, Megabyte);
    if mb >= 0 {
      assert q * Megabyte <= mb * Megabyte < q * Megabyte + Megabyte;
      assert q == mb;
    } else {
      assert q * Megabyte - Megabyte < mb * Megabyte <= q * Megabyte;
      assert q == mb;
    }
  }

  /** `str(x)` for a stored option value. */
  function ValueText(x: Value): string
  {
    match x
    case VBool(b) => if b then "True" else "False"
    case VInt(i) => IntToString(i)
    case VStr(s) => s
    case VNone => "None"
  }

  // ---------------------------------------------------------------- apply_backup_limits

  /** What the limit fields amount to, in the order the window checks them. */
  datatype LimitsCheck =
    | NotANumber                       // either field fails `int()`
    | CountNotPositive                 // at most zero snapshots
    | SizeNotPositive                  // at most zero megabytes
    | Limits(count: int, bytes: int)   // what is handed to `set_options`

  /**
   * `apply_backup_limits`'s checks: both fields parsed first, then the count, then the size;
   * an accepted size goes to the engine in bytes.
   */
  function CheckLimits(countText: string, sizeText: string): LimitsCheck
  {
    match (ParseInt(countText), ParseInt(sizeText))
    case (Some(count), Some(mb)) =>
      if count <= 0 then CountNotPositive
      else if mb <= 0 then SizeNotPositive
      else Limits(count, mb * Megabyte)
    case _ => NotANumber
  }

  /** The option map an accepted check hands to the engine. */
  function LimitOptions(count: int, bytes: int): map<string, Value>
  {
    map["max_backups" := VInt(count), "max_backup_size" := VInt(bytes)]
  }

  /**
   * The checks in terms of the parsed fields: text that is not a number is refused before
   * anything else, a count or a size of zero or less is refused, and only positive limits
   * get through, the size multiplied out to bytes.
   */
  lemma CheckLimitsCases(countText: string, sizeText: string)
    ensures var r := CheckLimits(countText, sizeText);
            var c, s := ParseInt(countText), ParseInt(sizeText);
            (r == NotANumber <==> c.None? || s.None?)
            && (r == CountNotPositive <==> c.Some? && s.Some? && c.value <= 0)
            && (r == SizeNotPositive <==> c.Some? && s.Some? && c.value > 0 && s.value <= 0)
            && (r.Limits? <==> c.Some? && s.Some? && c.value > 0 && s.value > 0)
            && (r.Limits? ==> r.count == c.value && r.bytes == s.value * Megabyte)
  {
  }

  /** The fields accept digits of other scripts: full-width `１２` snapshots of `３0` megabytes get through. */
  lemma FullWidthLimitsAccepted()
    ensures CheckLimits("\U{FF11}\U{FF12}", "\U{FF13}0") == Limits(12, 30 * Megabyte)
  {
    ParseIntFullWidth();
  }

  /**
   * A field padded with the separator control U+001C is not a number, although `str.isspace()`
   * holds for that control; a field padded with a no-break space is read.
   */
  lemma ControlPaddedLimitsRefused()
    ensures CheckLimits("\U{1c}5", "10") == NotANumber
    ensures CheckLimits("\U{a0}5", "10") == Limits(5, 10 * Megabyte)
  {
    ParseIntSpaces();
    ParseIntToString(10);
    assert IntToString(10) == "10" by {
      assert NatToString(10) == NatToString(1) + [DigitChar(0)];
    }
  }

  /** Accepted limits are positive, and the size is a whole number of megabytes. */
  lemma AcceptedLimitsPositive(countText: string, sizeText: string)
    requires CheckLimits(countText, sizeText).Limits?
    ensures var r := CheckLimits(countText, sizeText);
            r.count >= 1 && r.bytes >= Megabyte && r.bytes % Megabyte == 0
  {
    var mb := ParseInt(sizeText).value;
    assert mb >= 1;
    assert mb * Megabyte >= Megabyte;
  }

  /**
   * Accepted limits survive the window's own round trip: the texts the window shows for
   * them afterwards pass the same checks and give the same limits.
   */
  lemma LimitsRedisplayed(countText: string, sizeText: string)
    requires CheckLimits(countText, sizeText).Limits?
    ensures var r := CheckLimits(countText, sizeText);
            MegabytesOf(VInt(r.bytes)).Some?
            && CheckLimits(ValueText(VInt(r.count)), IntToString(MegabytesOf(VInt(r.bytes)).value)) == r
  {
    var count, mb := ParseInt(countText).value, ParseInt(sizeText).value;
    assert CheckLimits(countText, sizeText) == Limits(count, mb * Megabyte);
    MegabytesRoundTrip(mb);
    ParseIntToString(count);
    ParseIntToString(mb);
    assert CheckLimits(IntToString(count), IntToString(mb)) == Limits(count, mb * Megabyte);
  }

  // ---------------------------------------------------------------- apply_backup_dir

  /** The directory `apply_backup_dir` takes from the entry: the text stripped, or `None` when blank. */
  function EnteredDir(entry: string): (r: Option<Path>)
    ensures r.None? <==> forall i :: 0 <= i < |entry| ==> IsSpace(entry[i])
    ensures r.Some? ==> r.value == Strip(entry) && |r.value| > 0
  {
    StripEmptyIff(entry);
    var t := Strip(entry);
    if t == [] then None else Some(t)
  }

  // ---------------------------------------------------------------- format_size

  datatype Unit = B | KB | MB | GB

  /** The unit `format_size` picks: the thresholds 1024, 1024² and 1024³, compared as integers. */
  function Tier(n: int): Unit
  {
    if n < 1024 then B
    else if n < 1024 * 1024 then KB
    else if n < 1024 * 1024 * 1024 then MB
    else GB
  }

  function UnitBytes(u: Unit): (r: int)
    ensures r > 0
  {
    match u
    case B => 1
    case KB => 1024
    case MB => 1024 * 1024
    case GB => 1024 * 1024 * 1024
  }

  function Rank(u: Unit): nat
  {
    match u
    case B => 0
    case KB => 1
    case MB => 2
    case GB => 3
  }

  /**
   * What `format_size(n)` shows: below 1024 the byte count itself followed by ` B`; above,
   * `n` divided by the unit's size, with two decimals, followed by the unit.
   */
  datatype SizeText = Exact(text: string) | Scaled(bytes: int, unit: Unit)

  function FormatSize(n: int): SizeText
  {
    var u := Tier(n);
    if u == B then Exact(IntToString(n) + " B") else Scaled(n, u)
  }

  /**
   * The unit chosen is the largest whose size `n` reaches: the scaled amount is at least 1,
   * and below 1024 for every unit but GB, which has no upper bound.
   */
  lemma TierRange(n: int)
    requires n >= 1024
    ensures var u := Tier(n);
            u != B && UnitBytes(u) <= n && (u != GB ==> n < 1024 * UnitBytes(u))
  {
  }

  /** A larger size never gets a smaller unit. */
  lemma TierMonotone(a: int, b: int)
    requires a <= b
    ensures Rank(Tier(a)) <= Rank(Tier(b))
  {
  }

  /** A size below 1024 is shown in bytes, and the number shown reads back as the size. */
  lemma SmallSizesExact(n: int)
    requires n < 1024
    ensures FormatSize(n).Exact?
    ensures var t := FormatSize(n).text;
            |t| >= 2 && t[|t| - 2..] == " B" && ParseInt(t[..|t| - 2]) == Some(n)
  {
    var t := FormatSize(n).text;
    assert t[..|t| - 2] == IntToString(n);
    ParseIntToString(n);
  }

  // ---------------------------------------------------------------- the window

  /** One row of the backup list: name, time stamp, size, and the snapshot's path as its tag. */
  datatype Row = Row(name: string, time: int, size: SizeText, tag: Path)

  function RowOf(e: BackupEntry): Row
  {
    Row(e.name, e.timestamp, FormatSize(e.size), e.path)
  }

  /** The rows for a summary's entries, in the summary's order. */
  function RowsOf(es: seq<BackupEntry>): (r: seq<Row>)
    ensures |r| == |es| && forall i :: 0 <= i < |es| ==> r[i] == RowOf(es[i])
  {
    if es == [] then [] else RowsOf(es[..|es| - 1]) + [RowOf(es[|es| - 1])]
  }

  /** The rows come newest first, since the summary does, and each row's tag names its snapshot. */
  lemma RowsNewestFirst(v: Vol, d: Path)
    ensures var rows := RowsOf(BackupInfoOf(v, d).backups);
            forall i, j :: 0 <= i < j < |rows| ==> rows[j].time <= rows[i].time
  {
    BackupInfoFacts(v, d);
  }

  /** The row-insertion loop of `refresh_backup_list`. */
  method InsertRows(es: seq<BackupEntry>) returns (rows: seq<Row>)
    ensures rows == RowsOf(es)
  {
    rows := [];
    var i := 0;
    while i < |es|
      invariant 0 <= i <= |es|
      invariant rows == RowsOf(es[..i])
    {
      assert es[..i + 1][..i] == es[..i];
      rows := rows + [RowOf(es[i])];
      i := i + 1;
    }
    assert es[..i] == es;
  }

  class BackupManagerWindow {
    var cleaner: CleanerLogic
    var dirLabel: Path
    var countLabel: int
    var sizeLabel: SizeText
    var dirEntry: string
    var maxBackupsText: string
    var maxBackupSizeText: string
    var rows: seq<Row>

    ghost predicate Valid()
      reads this, cleaner
    {
      cleaner.Valid()
    }

    /**
     * What `refresh_backup_list()` leaves on screen: the labels and the directory entry show the
     * engine's backup summary, the count field its limit and, when the size limit is a number,
     * the size field that limit in MB and the list one row per snapshot; otherwise the list is
     * empty.
     */
    ghost predicate Shows()
      reads this, cleaner
    {
      var info := BackupInfoOf(cleaner.fs, cleaner.backupDir);
      dirLabel == info.dir == dirEntry && countLabel == info.count
      && sizeLabel == FormatSize(info.totalSize)
      && maxBackupsText == ValueText(cleaner.maxBackups)
      && match MegabytesOf(cleaner.maxBackupSize)
         case Some(mb) => maxBackupSizeText == IntToString(mb) && rows == RowsOf(info.backups)
         case None => rows == []
    }

    /**
     * `__init__`: the widgets with the limit fields at `5` and `1024`, then a first refresh,
     * after which the window shows the engine's summary and limits; the size field keeps
     * `1024` when the size limit is not a number.
     */
    constructor (engine: CleanerLogic)
      requires engine.Valid()
      ensures cleaner == engine && Valid() && Shows()
      ensures MegabytesOf(engine.maxBackupSize).None? ==> maxBackupSizeText == "1024"
    {
      cleaner := engine;
      dirLabel, countLabel, sizeLabel, dirEntry := "", 0, Exact(""), "";
      maxBackupsText, maxBackupSizeText := "5", "1024";
      rows := [];
      new;
      var shown := RefreshBackupList();
    }

    /**
     * `refresh_backup_list()`: the list cleared, the labels and the directory entry set from
     * the summary, the limit fields set from the engine, then one row per snapshot. A size
     * limit that is not a number raises at its field, after the list was cleared.
     */
    method RefreshBackupList() returns (ok: bool)
      requires Valid()
      modifies this`dirLabel, this`countLabel, this`sizeLabel, this`dirEntry
      modifies this`maxBackupsText, this`maxBackupSizeText, this`rows
      ensures Shows()
      ensures ok <==> MegabytesOf(cleaner.maxBackupSize).Some?
      ensures !ok ==> maxBackupSizeText == old(maxBackupSizeText)
    {
      rows := [];
      var info := cleaner.GetBackupInfo();
      ShowSummary(info);
      maxBackupsText := ValueText(cleaner.maxBackups);
      var mb := MegabytesOf(cleaner.maxBackupSize);
      if mb.None? {
        return false;
      }
      maxBackupSizeText := IntToString(mb.value);
      rows := InsertRows(info.backups);
      return true;
    }

    /** The three labels and the directory entry, set from the summary. */
    method ShowSummary(info: BackupInfo)
      modifies this`dirLabel, this`countLabel, this`sizeLabel, this`dirEntry
      ensures dirLabel == info.dir == dirEntry && countLabel == info.count
      ensures sizeLabel == FormatSize(info.totalSize)
    {
      dirLabel := info.dir;
      countLabel := info.count;
      sizeLabel := FormatSize(info.totalSize);
      dirEntry := info.dir;
    }

    /**
     * `apply_backup_limits()`: the fields checked as `CheckLimits` says; only accepted limits
     * reach `set_options`, after which the window is refreshed. A refused entry changes
     * neither the engine nor the window.
     */
    method ApplyBackupLimits(clock: int) returns (ok: bool)
      requires Valid()
      modifies this`dirLabel, this`countLabel, this`sizeLabel, this`dirEntry
      modifies this`maxBackupsText, this`maxBackupSizeText, this`rows, cleaner
      ensures Valid() && cleaner.fs == old(cleaner.fs)
      ensures ok <==> CheckLimits(old(maxBackupsText), old(maxBackupSizeText)).Limits?
      ensures ok ==> var r := CheckLimits(old(maxBackupsText), old(maxBackupSizeText));
                     cleaner.Current() == Merged(old(cleaner.Current()), LimitOptions(r.count, r.bytes))
                     && CheckLimits(maxBackupsText, maxBackupSizeText) == r
      ensures ok ==> Shows()
      ensures !ok ==> unchanged(this, cleaner)
    {
      var check := CheckLimits(maxBackupsText, maxBackupSizeText);
      if !check.Limits? {
        return false;
      }
      LimitsRedisplayed(maxBackupsText, maxBackupSizeText);
      var limits := LimitOptions(check.count, check.bytes);
      assert "backup_dir" !in limits && !SetsDir(limits);
      var _ := cleaner.SetOptions(limits, false, clock);
      assert cleaner.maxBackups == VInt(check.count) && cleaner.maxBackupSize == VInt(check.bytes);
      var shown := RefreshBackupList();
      return true;
    }

    /**
     * `apply_backup_dir()`: a blank entry is refused; otherwise the directory is created
     * unless present, handed to `set_options`, and the window refreshed. The call reports
     * failure when the creation raises, leaving everything as it was, and when the refresh
     * raises after the change.
     */
    method ApplyBackupDir(denied: bool, clock: int) returns (ok: bool)
      requires Valid()
      modifies this`dirLabel, this`countLabel, this`sizeLabel, this`dirEntry
      modifies this`maxBackupsText, this`maxBackupSizeText, this`rows, cleaner
      ensures Valid()
      ensures var d := EnteredDir(old(dirEntry));
              (d.None? || MakeDirsFails(old(cleaner.fs), d.value, denied) ==>
                 !ok && unchanged(this, cleaner))
              && (d.Some? && !MakeDirsFails(old(cleaner.fs), d.value, denied) ==>
                 cleaner.Current() == Merged(old(cleaner.Current()), map["backup_dir" := VStr(d.value)])
                 && cleaner.fs == EnsureDir(old(cleaner.fs), d.value, clock)
                 && Shows() && (ok <==> MegabytesOf(cleaner.maxBackupSize).Some?)
                 && (!ok ==> maxBackupSizeText == old(maxBackupSizeText)))
    {
      var d := EnteredDir(dirEntry);
      if d.None? {
        return false;
      }
      var dir := d.value;
      if MakeDirsFails(cleaner.fs, dir, denied) {
        return false;
      }
      cleaner.fs := EnsureDir(cleaner.fs, dir, clock);
      var _ := cleaner.SetOptions(map["backup_dir" := VStr(dir)], denied, clock);
      ok := RefreshBackupList();
    }
  }
}
