/**
 * The engine's option state: the `options` dictionary and the three fields `set_options`
 * writes (`backup_dir`, `max_backups`, `max_backup_size`). Option values are Python values,
 * so they are modelled as such: a limit set to text or `None` is stored as given, and only
 * fails later, where the engine compares it with a number.
 */
module Options {
  import opened Wrappers
  import opened WinPath

  /** A Python value as an option can hold it. */
  datatype Value = VBool(b: bool) | VInt(i: int) | VStr(s: string) | VNone

  /** Python truthiness. */
  predicate Truthy(x: Value)
  {
    match x
    case VBool(b) => b
    case VInt(i) => i != 0
    case VStr(s) => |s| > 0
    case VNone => false
  }

  /**
   * The value as an integer operand of `<`, `>` or a slice bound: `True` and `False` act as 1
   * and 0; text and `None` make the comparison raise `TypeError` (`None`).
   */
  function AsInt(x: Value): (r: Option<int>)
    ensures r.Some? <==> x.VBool? || x.VInt?
    ensures x.VInt? ==> r == Some(x.i)
  {
    match x
    case VBool(b) => Some(if b then 1 else 0)
    case VInt(i) => Some(i)
    case _ => None
  }

  /** What `set_options` can change, besides the volume. */
  datatype Settings = Settings(
    options: map<string, Value>,
    backupDir: Path,
    maxBackups: Value,
    maxBackupSize: Value)

  /** The defaults: simulate and back up; five snapshots of at most 1 GiB in all. */
  const DefaultOptions: map<string, Value> := map["simulate" := VBool(true), "backup" := VBool(true)]
  const DefaultMaxBackups: Value := VInt(5)
  const DefaultMaxBackupSize: Value := VInt(1024 * 1024 * 1024)

  /** The two switches every option map holds from the start; `update` never removes a key. */
  predicate HasSwitches(options: map<string, Value>)
  {
    "simulate" in options && "backup" in options
  }

  /**
   * `set_options` is only ever handed a text (or a falsy value) as `backup_dir`; any other
   * truthy value would reach `os.path.exists` and is not modelled.
   */
  predicate DirIsText(o: map<string, Value>)
  {
    "backup_dir" in o ==> o["backup_dir"].VStr? || !Truthy(o["backup_dir"])
  }

  /** Whether `o` names a new backup directory: the key is present with a truthy value. */
  predicate SetsDir(o: map<string, Value>)
  {
    "backup_dir" in o && Truthy(o["backup_dir"])
  }

  /**
   * The settings after `set_options(o)`: `o` merged into the options; the backup directory
   * taken from `o` only when truthy; each limit taken from `o` whenever its key is present.
   */
  function Merged(st: Settings, o: map<string, Value>): Settings
    requires DirIsText(o)
  {
    Settings(
      st.options + o,
      if SetsDir(o) then o["backup_dir"].s else st.backupDir,
      if "max_backups" in o then o["max_backups"] else st.maxBackups,
      if "max_backup_size" in o then o["max_backup_size"] else st.maxBackupSize)
  }

  /**
   * The settings `set_options(o)` leaves when creating the new backup directory raises: the
   * options are merged and the directory is taken, but the limits are not read.
   */
  function MergedUntilDir(st: Settings, o: map<string, Value>): Settings
    requires DirIsText(o)
  {
    Merged(st, o).(maxBackups := st.maxBackups, maxBackupSize := st.maxBackupSize)
  }

  // ---------------------------------------------------------------- properties

  /**
   * The merge in terms of each key: a key of `o` takes its value from `o`, any other key keeps
   * its old value; the directory changes exactly for a truthy new one, which is then non-empty
   * text; the limits follow their keys with no check of the values.
   */
  lemma MergedFacts(st: Settings, o: map<string, Value>)
    requires DirIsText(o)
    ensures var m := Merged(st, o);
            (forall k :: k in m.options <==> k in st.options || k in o)
            && (forall k :: k in o ==> m.options[k] == o[k])
            && (forall k :: k in st.options && k !in o ==> m.options[k] == st.options[k])
            && (SetsDir(o) ==> m.backupDir == o["backup_dir"].s && |m.backupDir| > 0)
            && (!SetsDir(o) ==> m.backupDir == st.backupDir)
            && m.maxBackups == (if "max_backups" in o then o["max_backups"] else st.maxBackups)
            && m.maxBackupSize == (if "max_backup_size" in o then o["max_backup_size"] else st.maxBackupSize)
  {
  }

  /** A second call with the same options changes nothing more. */
  lemma MergedIdempotent(st: Settings, o: map<string, Value>)
    requires DirIsText(o)
    ensures Merged(Merged(st, o), o) == Merged(st, o)
  {
    var m := Merged(st, o);
    assert m.options + o == m.options;
  }

  /**
   * A `set_options(o)` whose directory creation raised leaves settings from which the same
   * call, once it goes through, reaches what a first successful call would have.
   */
  lemma RetryAfterFailedDir(st: Settings, o: map<string, Value>)
    requires DirIsText(o)
    ensures Merged(MergedUntilDir(st, o), o) == Merged(st, o)
  {
    assert (st.options + o) + o == st.options + o;
  }

  /** Merging keeps the two switches. */
  lemma MergedKeepsSwitches(st: Settings, o: map<string, Value>)
    requires DirIsText(o) && HasSwitches(st.options)
    ensures HasSwitches(Merged(st, o).options)
  {
  }

  /** An empty or `None` directory is ignored, while a limit of zero, a negative one or text is stored as given. */
  lemma NoValidation(st: Settings)
    ensures Merged(st, map["backup_dir" := VStr("")]).backupDir == st.backupDir
    ensures Merged(st, map["backup_dir" := VNone]).backupDir == st.backupDir
    ensures Merged(st, map["max_backups" := VInt(0)]).maxBackups == VInt(0)
    ensures Merged(st, map["max_backup_size" := VInt(-1)]).maxBackupSize == VInt(-1)
    ensures Merged(st, map["max_backups" := VStr("5")]).maxBackups == VStr("5")
  {
  }
}
