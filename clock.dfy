/**
 * Calendar time as the backup store uses it: the `%Y%m%d_%H%M%S` snapshot names written with
 * `strftime` and read back with `strptime`, the conversion of a civil time to seconds, and
 * the two age tests the scan rules apply to modification times.
 */
module Clock {
  import opened Wrappers
  import opened Text

  /** A civil (local, naive) date and time, as `datetime` holds it. */
  datatype DateTime = DateTime(year: int, month: int, day: int, hour: int, minute: int, second: int)

  predicate IsLeap(y: int)
  {
    y % 4 == 0 && (y % 100 != 0 || y % 400 == 0)
  }

  function DaysInMonth(y: int, m: int): int
  {
    if m == 2 then (if IsLeap(y) then 29 else 28)
    else if m == 4 || m == 6 || m == 9 || m == 11 then 30
    else 31
  }

  /** The values `datetime` accepts. */
  predicate ValidDateTime(t: DateTime)
  {
    1 <= t.year <= 9999 && 1 <= t.month <= 12 && 1 <= t.day <= DaysInMonth(t.year, t.month)
    && 0 <= t.hour < 24 && 0 <= t.minute < 60 && 0 <= t.second < 60
  }

  // ---------------------------------------------------------------- snapshot names

  function Pow10(n: nat): (r: nat)
    ensures r >= 1
  {
    if n == 0 then 1 else 10 * Pow10(n - 1)
  }

  /** `n` written with exactly `w` decimal digits, zero-padded (`%02d`, `%04d`). */
  function Pad(n: nat, w: nat): (r: string)
    ensures |r| == w && forall i :: 0 <= i < w ==> IsDigit(r[i])
  {
    if w == 0 then [] else Pad(n / 10, w - 1) + [DigitChar(n % 10)]
  }

  lemma {:induction false} PadValue(n: nat, w: nat)
    requires n < Pow10(w)
    ensures DigitsValue(Pad(n, w)) == n
  {
    if w > 0 {
      PadValue(n / 10, w - 1);
      var s := Pad(n, w);
      assert s[..|s| - 1] == Pad(n / 10, w - 1);
    }
  }

  /** `t.strftime('%Y%m%d_%H%M%S')`: the name a snapshot directory gets. */
  function SnapshotName(t: DateTime): (r: string)
    requires ValidDateTime(t)
    ensures |r| == 15 && r[8] == '_'
  {
    Pad(t.year, 4) + Pad(t.month, 2) + Pad(t.day, 2) + "_"
    + Pad(t.hour, 2) + Pad(t.minute, 2) + Pad(t.second, 2)
  }

  /** Where each field sits in a snapshot name. */
  lemma SnapshotNameFields(t: DateTime)
    requires ValidDateTime(t)
    ensures var s := SnapshotName(t);
            s[0..4] == Pad(t.year, 4) && s[4..6] == Pad(t.month, 2) && s[6..8] == Pad(t.day, 2)
            && s[9..11] == Pad(t.hour, 2) && s[11..13] == Pad(t.minute, 2) && s[13..15] == Pad(t.second, 2)
  {
    var s := SnapshotName(t);
    var y, mo, d, h, mi, se := Pad(t.year, 4), Pad(t.month, 2), Pad(t.day, 2), Pad(t.hour, 2),
      Pad(t.minute, 2), Pad(t.second, 2);
    assert s == y + mo + d + "_" + h + mi + se;
    assert s[0..4] == y && s[4..6] == mo && s[6..8] == d;
    assert s[9..11] == h && s[11..13] == mi && s[13..15] == se;
  }

  /** The two characters of a two-digit field: tens, then units, both ASCII. */
  lemma PadTwo(n: nat)
    requires n < 100
    ensures Pad(n, 2) == [DigitChar(n / 10), DigitChar(n % 10)]
  {
    var q := n / 10;
    assert q < 10 && q / 10 == 0 && q % 10 == q;
    assert Pad(q, 1) == Pad(0, 0) + [DigitChar(q)];
    assert Pad(n, 2) == Pad(q, 1) + [DigitChar(n % 10)];
  }

  // ---------------------------------------------------------------- reading a name back

  /**
   * One character position of a pattern alternative: a literal character, an ASCII range such
   * as `[0-5]`, or `\d`, which in a `str` pattern takes a decimal digit of any script.
   */
  datatype CharClass = Lit(c: char) | Span(lo: char, hi: char) | AnyDigit

  predicate ClassHas(k: CharClass, c: char)
  {
    match k
    case Lit(x) => c == x
    case Span(lo, hi) => lo <= c <= hi
    case AnyDigit => IsDigit(c)
  }

  /** An alternative `alt` fits `s` at position `i`, character by character. */
  predicate AltAt(s: string, i: nat, alt: seq<CharClass>)
  {
    i + |alt| <= |s| && forall j :: 0 <= j < |alt| ==> ClassHas(alt[j], s[i + j])
  }

  /**
   * The groups `_strptime` builds for `'%Y%m%d_%H%M%S'`; each group lists its alternatives in
   * the order the regular expression tries them (the `_` is a group of its own here).
   */
  const YearGroup: seq<seq<CharClass>> := [[AnyDigit, AnyDigit, AnyDigit, AnyDigit]]
  const MonthGroup: seq<seq<CharClass>> := [[Lit('1'), Span('0', '2')], [Lit('0'), Span('1', '9')], [Span('1', '9')]]
  const DayGroup: seq<seq<CharClass>> :=
    [[Lit('3'), Span('0', '1')], [Span('1', '2'), AnyDigit], [Lit('0'), Span('1', '9')], [Span('1', '9')],
     [Lit(' '), Span('1', '9')]]
  const UnderscoreGroup: seq<seq<CharClass>> := [[Lit('_')]]
  const HourGroup: seq<seq<CharClass>> := [[Lit('2'), Span('0', '3')], [Span('0', '1'), AnyDigit], [AnyDigit]]
  const MinuteGroup: seq<seq<CharClass>> := [[Span('0', '5'), AnyDigit], [AnyDigit]]
  const SecondGroup: seq<seq<CharClass>> := [[Lit('6'), Span('0', '1')], [Span('0', '5'), AnyDigit], [AnyDigit]]

  const SnapshotPattern: seq<seq<seq<CharClass>>> :=
    [YearGroup, MonthGroup, DayGroup, UnderscoreGroup, HourGroup, MinuteGroup, SecondGroup]

  /**
   * `re.match` of the groups `gs` from position `i`: the end position of each group in the first
   * match a backtracking matcher finds, or `None` when no choice of alternatives fits. As with
   * `re.match`, text may remain after the last group.
   */
  function MatchGroups(s: string, i: nat, gs: seq<seq<seq<CharClass>>>): (r: Option<seq<nat>>)
    requires i <= |s|
    ensures r.Some? ==> |r.value| == |gs| && (|gs| > 0 ==> i <= r.value[0])
                        && (forall k :: 0 < k < |gs| ==> r.value[k - 1] <= r.value[k])
                        && forall k :: 0 <= k < |gs| ==> r.value[k] <= |s|
    decreases |gs|, 1, 0
  {
    if gs == [] then Some([]) else TryAlts(s, i, gs[0], gs[1..])
  }

  /** Tries the alternatives of one group in order; the first one after which `rest` also matches wins. */
  function TryAlts(s: string, i: nat, alts: seq<seq<CharClass>>, rest: seq<seq<seq<CharClass>>>): (r: Option<seq<nat>>)
    requires i <= |s|
    ensures r.Some? ==> |r.value| == |rest| + 1 && i <= r.value[0]
                        && (forall k :: 0 < k <= |rest| ==> r.value[k - 1] <= r.value[k])
                        && forall k :: 0 <= k <= |rest| ==> r.value[k] <= |s|
    decreases |rest| + 1, 0, |alts|
  {
    if alts == [] then None
    else if AltAt(s, i, alts[0]) then
      match MatchGroups(s, i + |alts[0]|, rest)
      case Some(ends) => Some([i + |alts[0]|] + ends)
      case None => TryAlts(s, i, alts[1..], rest)
    else TryAlts(s, i, alts[1..], rest)
  }

  /**
   * `datetime.strptime(s, '%Y%m%d_%H%M%S')`: the pattern must match from the start and reach the
   * end of `s` ("unconverted data remains" otherwise); each field is `int()` of its group's text
   * (which drops the day's leading space and reads digits of any script); the result must be
   * a valid `datetime`. `None` stands for the `ValueError` after which the store falls back
   * to the directory's ctime.
   */
  function ParseSnapshotName(s: string): (r: Option<DateTime>)
    ensures r.Some? ==> ValidDateTime(r.value)
  {
    match MatchGroups(s, 0, SnapshotPattern)
    case None => None
    case Some(e) =>
      if e[6] != |s| then None
      else
        var t := DateTime(DigitsValue(s[..e[0]]), DigitsValue(s[e[0]..e[1]]), DigitsValue(s[e[1]..e[2]]),
                          DigitsValue(s[e[3]..e[4]]), DigitsValue(s[e[4]..e[5]]), DigitsValue(s[e[5]..e[6]]));
        if ValidDateTime(t) then Some(t) else None
  }

  /**
   * The matcher commits to alternative `k` of a group when it fits and the later groups match
   * after it, and every earlier alternative either does not fit or leaves the later groups
   * unmatched.
   */
  lemma {:induction false} TryFirst(s: string, i: nat, alts: seq<seq<CharClass>>, rest: seq<seq<seq<CharClass>>>, k: nat)
    requires i <= |s| && k < |alts|
    requires forall j :: 0 <= j < k ==> !AltAt(s, i, alts[j]) || MatchGroups(s, i + |alts[j]|, rest).None?
    requires AltAt(s, i, alts[k]) && MatchGroups(s, i + |alts[k]|, rest).Some?
    ensures TryAlts(s, i, alts, rest) == Some([i + |alts[k]|] + MatchGroups(s, i + |alts[k]|, rest).value)
  {
    if k > 0 {
      assert forall j :: 0 <= j < k - 1 ==> alts[1..][j] == alts[j + 1];
      TryFirst(s, i, alts[1..], rest, k - 1);
    }
  }

  /** A group none of whose alternatives fits leaves the whole match to fail. */
  lemma {:induction false} NoAltFits(s: string, i: nat, alts: seq<seq<CharClass>>, rest: seq<seq<seq<CharClass>>>)
    requires i <= |s|
    requires forall j :: 0 <= j < |alts| ==> !AltAt(s, i, alts[j])
    ensures TryAlts(s, i, alts, rest) == None
  {
    if alts != [] {
      NoAltFits(s, i, alts[1..], rest);
    }
  }

  /** One group of a match: alternative `k` is the first that fits, and the later groups match after it. */
  lemma GroupStep(s: string, i: nat, g: seq<seq<CharClass>>, rest: seq<seq<seq<CharClass>>>, k: nat, e: seq<nat>)
    requires i <= |s| && k < |g| && AltAt(s, i, g[k])
    requires forall j :: 0 <= j < k ==> !AltAt(s, i, g[j])
    requires MatchGroups(s, i + |g[k]|, rest) == Some(e)
    ensures MatchGroups(s, i, [g] + rest) == Some([i + |g[k]|] + e)
  {
    TryFirst(s, i, g, rest, k);
    assert ([g] + rest)[1..] == rest;
  }

  /** An alternative one of whose classes refuses the character it faces does not fit there. */
  lemma MissesAt(s: string, i: nat, alt: seq<CharClass>, j: nat)
    requires j < |alt| && i + j < |s| && !ClassHas(alt[j], s[i + j])
    ensures !AltAt(s, i, alt)
  {
  }

  /** The two ASCII digits of `n` at position `i`, as `%02d` writes them. */
  predicate TwoDigitsAt(s: string, i: nat, n: nat)
  {
    i + 2 <= |s| && s[i] == DigitChar(n / 10 % 10) && s[i + 1] == DigitChar(n % 10)
  }

  lemma MonthStep(s: string, i: nat, n: nat, rest: seq<seq<seq<CharClass>>>, e: seq<nat>)
    requires 1 <= n <= 12 && TwoDigitsAt(s, i, n) && MatchGroups(s, i + 2, rest) == Some(e)
    ensures MatchGroups(s, i, [MonthGroup] + rest) == Some([i + 2] + e)
  {
    if n >= 10 {
      assert n / 10 % 10 == 1 && n % 10 <= 2;
      GroupStep(s, i, MonthGroup, rest, 0, e);
    } else {
      assert n / 10 % 10 == 0 && 1 <= n % 10;
      MissesAt(s, i, MonthGroup[0], 0);
      GroupStep(s, i, MonthGroup, rest, 1, e);
    }
  }

  lemma DayStep(s: string, i: nat, n: nat, rest: seq<seq<seq<CharClass>>>, e: seq<nat>)
    requires 1 <= n <= 31 && TwoDigitsAt(s, i, n) && MatchGroups(s, i + 2, rest) == Some(e)
    ensures MatchGroups(s, i, [DayGroup] + rest) == Some([i + 2] + e)
  {
    var hi, lo := n / 10 % 10, n % 10;
    assert s[i] as int == '0' as int + hi && s[i + 1] as int == '0' as int + lo;
    if n >= 30 {
      DayFromThree(s, i, rest, e);
    } else if n >= 10 {
      assert IsDigit(s[i + 1]);
      DayFromOneOrTwo(s, i, rest, e);
    } else {
      DayFromZero(s, i, rest, e);
    }
  }

  lemma DayFromThree(s: string, i: nat, rest: seq<seq<seq<CharClass>>>, e: seq<nat>)
    requires i + 2 <= |s| && s[i] == '3' && '0' <= s[i + 1] <= '1' && MatchGroups(s, i + 2, rest) == Some(e)
    ensures MatchGroups(s, i, [DayGroup] + rest) == Some([i + 2] + e)
  {
    assert AltAt(s, i, DayGroup[0]);
    GroupStep(s, i, DayGroup, rest, 0, e);
  }

  lemma DayFromOneOrTwo(s: string, i: nat, rest: seq<seq<seq<CharClass>>>, e: seq<nat>)
    requires i + 2 <= |s| && '1' <= s[i] <= '2' && IsDigit(s[i + 1]) && MatchGroups(s, i + 2, rest) == Some(e)
    ensures MatchGroups(s, i, [DayGroup] + rest) == Some([i + 2] + e)
  {
    MissesAt(s, i, DayGroup[0], 0);
    assert AltAt(s, i, DayGroup[1]);
    GroupStep(s, i, DayGroup, rest, 1, e);
  }

  lemma DayFromZero(s: string, i: nat, rest: seq<seq<seq<CharClass>>>, e: seq<nat>)
    requires i + 2 <= |s| && s[i] == '0' && '1' <= s[i + 1] <= '9' && MatchGroups(s, i + 2, rest) == Some(e)
    ensures MatchGroups(s, i, [DayGroup] + rest) == Some([i + 2] + e)
  {
    MissesAt(s, i, DayGroup[0], 0);
    MissesAt(s, i, DayGroup[1], 0);
    assert AltAt(s, i, DayGroup[2]);
    GroupStep(s, i, DayGroup, rest, 2, e);
  }

  lemma HourStep(s: string, i: nat, n: nat, rest: seq<seq<seq<CharClass>>>, e: seq<nat>)
    requires n < 24 && TwoDigitsAt(s, i, n) && MatchGroups(s, i + 2, rest) == Some(e)
    ensures MatchGroups(s, i, [HourGroup] + rest) == Some([i + 2] + e)
  {
    if n >= 20 {
      assert n / 10 % 10 == 2 && n % 10 <= 3;
      GroupStep(s, i, HourGroup, rest, 0, e);
    } else {
      assert n / 10 % 10 <= 1;
      MissesAt(s, i, HourGroup[0], 0);
      GroupStep(s, i, HourGroup, rest, 1, e);
    }
  }

  lemma MinuteStep(s: string, i: nat, n: nat, rest: seq<seq<seq<CharClass>>>, e: seq<nat>)
    requires n < 60 && TwoDigitsAt(s, i, n) && MatchGroups(s, i + 2, rest) == Some(e)
    ensures MatchGroups(s, i, [MinuteGroup] + rest) == Some([i + 2] + e)
  {
    GroupStep(s, i, MinuteGroup, rest, 0, e);
  }

  lemma SecondStep(s: string, i: nat, n: nat, rest: seq<seq<seq<CharClass>>>, e: seq<nat>)
    requires n < 60 && TwoDigitsAt(s, i, n) && MatchGroups(s, i + 2, rest) == Some(e)
    ensures MatchGroups(s, i, [SecondGroup] + rest) == Some([i + 2] + e)
  {
    assert n / 10 % 10 <= 5;
    MissesAt(s, i, SecondGroup[0], 0);
    GroupStep(s, i, SecondGroup, rest, 1, e);
  }

  /** A two-digit field of a name sits at its position as `TwoDigitsAt` describes. */
  lemma FieldChars(s: string, i: nat, n: nat)
    requires n < 100 && i + 2 <= |s| && s[i..i + 2] == Pad(n, 2)
    ensures TwoDigitsAt(s, i, n)
  {
    PadTwo(n);
    assert s[i] == s[i..i + 2][0] && s[i + 1] == s[i..i + 2][1];
  }

  /** The time half `_HHMMSS` at position `i`, each field two digits in range. */
  lemma TimeHalfMatches(u: string, i: nat, h: nat, m: nat, sec: nat)
    requires i + 7 <= |u| && u[i] == '_' && h < 24 && m < 60 && sec < 60
    requires TwoDigitsAt(u, i + 1, h) && TwoDigitsAt(u, i + 3, m) && TwoDigitsAt(u, i + 5, sec)
    ensures MatchGroups(u, i, [UnderscoreGroup, HourGroup, MinuteGroup, SecondGroup]) == Some([i + 1, i + 3, i + 5, i + 7])
  {
    var e0: seq<nat> := [];
    assert MatchGroups(u, i + 7, []) == Some(e0);
    SecondStep(u, i + 5, sec, [], e0);
    assert [SecondGroup] + [] == [SecondGroup] && [i + 5 + 2] + e0 == [i + 7];
    assert MatchGroups(u, i + 5, [SecondGroup]) == Some([i + 7]);
    MinuteStep(u, i + 3, m, [SecondGroup], [i + 7]);
    assert [MinuteGroup] + [SecondGroup] == [MinuteGroup, SecondGroup] && [i + 3 + 2] + [i + 7] == [i + 5, i + 7];
    assert MatchGroups(u, i + 3, [MinuteGroup, SecondGroup]) == Some([i + 5, i + 7]);
    HourStep(u, i + 1, h, [MinuteGroup, SecondGroup], [i + 5, i + 7]);
    assert [HourGroup] + [MinuteGroup, SecondGroup] == [HourGroup, MinuteGroup, SecondGroup];
    assert [i + 1 + 2] + [i + 5, i + 7] == [i + 3, i + 5, i + 7];
    assert MatchGroups(u, i + 1, [HourGroup, MinuteGroup, SecondGroup]) == Some([i + 3, i + 5, i + 7]);
    assert AltAt(u, i, UnderscoreGroup[0]);
    GroupStep(u, i, UnderscoreGroup, [HourGroup, MinuteGroup, SecondGroup], 0, [i + 3, i + 5, i + 7]);
    assert |UnderscoreGroup[0]| == 1 && [i + 1] + [i + 3, i + 5, i + 7] == [i + 1, i + 3, i + 5, i + 7];
    assert [UnderscoreGroup] + [HourGroup, MinuteGroup, SecondGroup] == [UnderscoreGroup, HourGroup, MinuteGroup, SecondGroup];
  }

  /** The date half `YYYYMMDD`, followed by a time half that matches. */
  lemma DateHalfMatches(u: string, mo: nat, d: nat, e: seq<nat>)
    requires |u| >= 8 && AltAt(u, 0, YearGroup[0]) && 1 <= mo <= 12 && 1 <= d <= 31
    requires TwoDigitsAt(u, 4, mo) && TwoDigitsAt(u, 6, d)
    requires MatchGroups(u, 8, [UnderscoreGroup, HourGroup, MinuteGroup, SecondGroup]) == Some(e)
    ensures MatchGroups(u, 0, SnapshotPattern) == Some([4, 6, 8] + e)
  {
    var rest := [UnderscoreGroup, HourGroup, MinuteGroup, SecondGroup];
    DayStep(u, 6, d, rest, e);
    assert [DayGroup] + rest == [DayGroup, UnderscoreGroup, HourGroup, MinuteGroup, SecondGroup];
    MonthStep(u, 4, mo, [DayGroup] + rest, [8] + e);
    assert [MonthGroup] + ([DayGroup] + rest) == [MonthGroup, DayGroup, UnderscoreGroup, HourGroup, MinuteGroup, SecondGroup];
    GroupStep(u, 0, YearGroup, [MonthGroup] + ([DayGroup] + rest), 0, [6] + ([8] + e));
    assert |YearGroup[0]| == 4 && [4] + ([6] + ([8] + e)) == [4, 6, 8] + e;
    assert [YearGroup] + ([MonthGroup] + ([DayGroup] + rest)) == SnapshotPattern;
  }

  /** The characters of a name the engine writes, field by field. */
  lemma SnapshotNameDigits(t: DateTime, u: string)
    requires ValidDateTime(t) && |u| >= 15 && u[..15] == SnapshotName(t)
    ensures AltAt(u, 0, YearGroup[0]) && u[8] == '_'
    ensures TwoDigitsAt(u, 4, t.month) && TwoDigitsAt(u, 6, t.day)
    ensures TwoDigitsAt(u, 9, t.hour) && TwoDigitsAt(u, 11, t.minute) && TwoDigitsAt(u, 13, t.second)
  {
    var s := SnapshotName(t);
    SnapshotNameFields(t);
    assert u[0..4] == s[0..4] && u[4..6] == s[4..6] && u[6..8] == s[6..8] && u[8] == s[8];
    assert u[9..11] == s[9..11] && u[11..13] == s[11..13] && u[13..15] == s[13..15];
    YearFits(u, t.year);
    FieldChars(u, 4, t.month);
    FieldChars(u, 6, t.day);
    FieldChars(u, 9, t.hour);
    FieldChars(u, 11, t.minute);
    FieldChars(u, 13, t.second);
  }

  /**
   * On text that starts with a name the engine writes, every group takes its two-digit (or
   * four-digit) alternative, and the match ends after the seconds.
   */
  lemma SnapshotNameMatch(t: DateTime, u: string)
    requires ValidDateTime(t) && |u| >= 15 && u[..15] == SnapshotName(t)
    ensures MatchGroups(u, 0, SnapshotPattern) == Some([4, 6, 8, 9, 11, 13, 15])
  {
    SnapshotNameDigits(t, u);
    TimeHalfMatches(u, 8, t.hour, t.minute, t.second);
    DateHalfMatches(u, t.month, t.day, [9, 11, 13, 15]);
    assert [4, 6, 8] + [9, 11, 13, 15] == [4, 6, 8, 9, 11, 13, 15];
  }

  /** A name the engine writes reads back as the time it was written from. */
  lemma ParseSnapshotNameOfName(t: DateTime)
    requires ValidDateTime(t)
    ensures ParseSnapshotName(SnapshotName(t)) == Some(t)
  {
    var s := SnapshotName(t);
    assert s[..15] == s;
    SnapshotNameMatch(t, s);
    SnapshotNameFields(t);
    PadValue(t.year, 4);
    PadValue(t.month, 2);
    PadValue(t.day, 2);
    PadValue(t.hour, 2);
    PadValue(t.minute, 2);
    PadValue(t.second, 2);
    assert s[..4] == s[0..4];
  }

  /**
   * Text after the seconds is "unconverted data": a name the engine writes followed by anything
   * more is refused, and the snapshot is dated by its directory's ctime instead.
   */
  lemma TrailingTextRefused(t: DateTime, u: string)
    requires ValidDateTime(t) && |u| > 15 && u[..15] == SnapshotName(t)
    ensures ParseSnapshotName(u) == None
  {
    SnapshotNameMatch(t, u);
  }

  /** The four year digits of a name fit `\d\d\d\d`. */
  lemma YearFits(s: string, y: nat)
    requires |s| >= 4 && s[0..4] == Pad(y, 4)
    ensures AltAt(s, 0, YearGroup[0])
  {
    assert forall j :: 0 <= j < 4 ==> s[j] == Pad(y, 4)[j];
  }

  /** The value `int()` gives a two-digit field. */
  lemma DigitsValueTwo(s: string)
    requires |s| == 2 && IsDigit(s[0]) && IsDigit(s[1])
    ensures DigitsValue(s) == DigitValue(s[0]) * 10 + DigitValue(s[1])
  {
    var init := s[..1];
    assert init[..0] == [] && init[0] == s[0];
    assert DigitsValue(init) == DigitValue(s[0]);
  }

  /** The value `int()` gives a four-digit field. */
  lemma DigitsValueFour(s: string)
    requires |s| == 4 && forall j :: 0 <= j < 4 ==> IsDigit(s[j])
    ensures DigitsValue(s) == DigitValue(s[0]) * 1000 + DigitValue(s[1]) * 100 + DigitValue(s[2]) * 10 + DigitValue(s[3])
  {
    var two, three := s[..2], s[..3];
    DigitsValueTwo(two);
    assert three[..2] == two && three[2] == s[2] && two[0] == s[0] && two[1] == s[1];
    assert DigitsValue(three) == DigitsValue(two) * 10 + DigitValue(s[2]);
  }

  /** The time `_123456` closes each of the examples below, at position `i`. */
  lemma ExampleTime(s: string, i: nat)
    requires |s| == i + 7 && s[i..] == "_123456"
    ensures MatchGroups(s, i, [UnderscoreGroup, HourGroup, MinuteGroup, SecondGroup]) == Some([i + 1, i + 3, i + 5, i + 7])
    ensures DigitsValue(s[i + 1..i + 3]) == 12 && DigitsValue(s[i + 3..i + 5]) == 34 && DigitsValue(s[i + 5..i + 7]) == 56
  {
    assert forall j :: 0 <= j < 7 ==> s[i + j] == s[i..][j];
    assert s[i] == '_' && s[i + 1] == '1' && s[i + 2] == '2' && s[i + 3] == '3' && s[i + 4] == '4'
      && s[i + 5] == '5' && s[i + 6] == '6';
    assert DigitChar(1) == '1' && DigitChar(2) == '2' && DigitChar(3) == '3' && DigitChar(4) == '4'
      && DigitChar(5) == '5' && DigitChar(6) == '6';
    TimeHalfMatches(s, i, 12, 34, 56);
    assert s[i + 1..i + 3] == "12" && s[i + 3..i + 5] == "34" && s[i + 5..i + 7] == "56";
    DigitsValueTwo("12");
    DigitsValueTwo("34");
    DigitsValueTwo("56");
  }

  /** The parse of a name, once its match and the values of its fields are known. */
  lemma ParseFromMatch(s: string, e: seq<nat>, t: DateTime)
    requires MatchGroups(s, 0, SnapshotPattern) == Some(e) && |e| == 7 && e[6] == |s|
    requires e[0] <= e[1] <= e[2] && e[3] <= e[4] <= e[5] <= e[6]
    requires DigitsValue(s[..e[0]]) == t.year && DigitsValue(s[e[0]..e[1]]) == t.month
    requires DigitsValue(s[e[1]..e[2]]) == t.day && DigitsValue(s[e[3]..e[4]]) == t.hour
    requires DigitsValue(s[e[4]..e[5]]) == t.minute && DigitsValue(s[e[5]..e[6]]) == t.second
    requires ValidDateTime(t)
    ensures ParseSnapshotName(s) == Some(t)
  {
  }

  /**
   * `strptime` is lenient about widths: a one-digit day is read, so the fourteen-character
   * `2024111_123456` denotes 1 November 2024.
   */
  lemma ShortDayParses()
    ensures ParseSnapshotName("2024111_123456") == Some(DateTime(2024, 11, 1, 12, 34, 56))
  {
    var s := "2024111_123456";
    var e: seq<nat> := [4, 6, 7, 8, 10, 12, 14];
    assert s[..4] == "2024";
    assert s[4..6] == "11";
    assert s[6..7] == "1";
    assert s[7..] == "_123456";
    ShortDayMatch();
    ExampleTime(s, 7);
    YearValue();
    DigitsValueTwo("11");
    assert DigitsValue("1") == 1 by { assert "1"[..0] == []; }
    ParseFromMatch(s, e, DateTime(2024, 11, 1, 12, 34, 56));
  }

  /**
   * Two different directory names denote the same time: the short one above and the name the
   * engine writes for it. Names and times are therefore not one to one.
   */
  lemma TwoNamesOneTime()
    ensures ParseSnapshotName("2024111_123456") == ParseSnapshotName("20241101_123456")
  {
    var t := DateTime(2024, 11, 1, 12, 34, 56);
    ShortDayParses();
    ParseSnapshotNameOfName(t);
    NameOfExample();
  }

  lemma YearValue()
    ensures DigitsValue("2024") == 2024
  {
    DigitsValueFour("2024");
  }

  lemma NameOfExample()
    ensures SnapshotName(DateTime(2024, 11, 1, 12, 34, 56)) == "20241101_123456"
  {
    PadTwo(11);
    PadTwo(1);
    PadTwo(12);
    PadTwo(34);
    PadTwo(56);
    PadTwo(20);
    PadTwo(24);
    assert Pad(2024, 4) == Pad(20, 2) + Pad(24, 2) by {
      assert Pad(2024, 4) == Pad(202, 3) + [DigitChar(4)];
      assert Pad(202, 3) == Pad(20, 2) + [DigitChar(2)];
    }
  }

  /** `2024` fits `\d\d\d\d`. */
  lemma ExampleYearFits(s: string)
    requires |s| >= 4 && s[..4] == "2024"
    ensures AltAt(s, 0, YearGroup[0])
  {
    assert s[0] == '2' && s[1] == '0' && s[2] == '2' && s[3] == '4' by {
      assert forall j :: 0 <= j < 4 ==> s[j] == s[..4][j];
    }
  }

  lemma ShortDayMatch()
    ensures MatchGroups("2024111_123456", 0, SnapshotPattern) == Some([4, 6, 7, 8, 10, 12, 14])
  {
    var s := "2024111_123456";
    assert s[4] == '1';
    assert s[5] == '1';
    assert s[6] == '1';
    assert s[7] == '_';
    assert s[..4] == "2024";
    assert s[7..] == "_123456";
    ExampleTime(s, 7);
    var rest := [UnderscoreGroup, HourGroup, MinuteGroup, SecondGroup];
    MissesAt(s, 6, DayGroup[0], 0);
    MissesAt(s, 6, DayGroup[1], 1);
    MissesAt(s, 6, DayGroup[2], 0);
    GroupStep(s, 6, DayGroup, rest, 3, [8, 10, 12, 14]);
    assert |DayGroup[3]| == 1 && [6 + 1] + [8, 10, 12, 14] == [7, 8, 10, 12, 14];
    assert [DayGroup] + rest == [DayGroup, UnderscoreGroup, HourGroup, MinuteGroup, SecondGroup];
    ExampleYearFits(s);
    LeadingDigits(s, 4, [7, 8, 10, 12, 14]);
    assert [4, 6] + [7, 8, 10, 12, 14] == [4, 6, 7, 8, 10, 12, 14];
  }

  /** `YYYY` and a month `11` at the start, in front of a match of the later groups from `6`. */
  lemma LeadingDigits(s: string, i: nat, e: seq<nat>)
    requires i == 4 && |s| >= 6 && AltAt(s, 0, YearGroup[0]) && s[4] == '1' && s[5] == '1'
    requires MatchGroups(s, 6, [DayGroup, UnderscoreGroup, HourGroup, MinuteGroup, SecondGroup]) == Some(e)
    ensures MatchGroups(s, 0, SnapshotPattern) == Some([4, 6] + e)
  {
    var rest := [DayGroup, UnderscoreGroup, HourGroup, MinuteGroup, SecondGroup];
    assert AltAt(s, 4, MonthGroup[0]);
    GroupStep(s, 4, MonthGroup, rest, 0, e);
    assert |MonthGroup[0]| == 2;
    GroupStep(s, 0, YearGroup, [MonthGroup] + rest, 0, [6] + e);
    assert [YearGroup] + ([MonthGroup] + rest) == SnapshotPattern;
    assert |YearGroup[0]| == 4 && [0 + 4] + ([6] + e) == [4, 6] + e;
  }

  /**
   * The matcher backtracks: in `202411_123456` the month first takes `11`, the day then finds
   * `_`, so the month falls back to `1` and the day to `1`: 1 January 2024.
   */
  lemma MonthBacktracks()
    ensures ParseSnapshotName("202411_123456") == Some(DateTime(2024, 1, 1, 12, 34, 56))
  {
    var s := "202411_123456";
    assert s[..4] == "2024";
    assert s[4..5] == "1";
    assert s[5..6] == "1";
    assert s[6..] == "_123456";
    BacktrackMatch();
    ExampleTime(s, 6);
    YearValue();
    assert DigitsValue("1") == 1 by { assert "1"[..0] == []; }
    ParseFromMatch(s, [4, 5, 6, 7, 9, 11, 13], DateTime(2024, 1, 1, 12, 34, 56));
  }

  lemma BacktrackMatch()
    ensures MatchGroups("202411_123456", 0, SnapshotPattern) == Some([4, 5, 6, 7, 9, 11, 13])
  {
    var s := "202411_123456";
    assert s[4] == '1';
    assert s[5] == '1';
    assert s[6] == '_';
    assert s[..4] == "2024";
    assert s[6..] == "_123456";
    ExampleTime(s, 6);
    var rest := [UnderscoreGroup, HourGroup, MinuteGroup, SecondGroup];
    MissesAt(s, 5, DayGroup[0], 0);
    MissesAt(s, 5, DayGroup[1], 1);
    MissesAt(s, 5, DayGroup[2], 0);
    GroupStep(s, 5, DayGroup, rest, 3, [7, 9, 11, 13]);
    assert |DayGroup[3]| == 1 && [5 + 1] + [7, 9, 11, 13] == [6, 7, 9, 11, 13];
    assert [DayGroup] + rest == [DayGroup, UnderscoreGroup, HourGroup, MinuteGroup, SecondGroup];
    DayFailsAtUnderscore(s, 6, rest);
    ExampleYearFits(s);
    BacktrackedMonth(s, [6, 7, 9, 11, 13]);
    assert [4, 5] + [6, 7, 9, 11, 13] == [4, 5, 6, 7, 9, 11, 13];
  }

  /** No alternative of the day group fits at a `_`. */
  lemma DayFailsAtUnderscore(s: string, i: nat, rest: seq<seq<seq<CharClass>>>)
    requires i < |s| && s[i] == '_'
    ensures MatchGroups(s, i, [DayGroup] + rest) == None
  {
    forall j | 0 <= j < |DayGroup|
      ensures !AltAt(s, i, DayGroup[j])
    {
      MissesAt(s, i, DayGroup[j], 0);
    }
    NoAltFits(s, i, DayGroup, rest);
    assert ([DayGroup] + rest)[1..] == rest;
  }

  /** `YYYY1` then a later match from `5`, when the two-digit month `1x` leaves the rest unmatched. */
  lemma BacktrackedMonth(s: string, e: seq<nat>)
    requires |s| >= 6 && AltAt(s, 0, YearGroup[0]) && s[4] == '1'
    requires MatchGroups(s, 6, [DayGroup, UnderscoreGroup, HourGroup, MinuteGroup, SecondGroup]) == None
    requires MatchGroups(s, 5, [DayGroup, UnderscoreGroup, HourGroup, MinuteGroup, SecondGroup]) == Some(e)
    ensures MatchGroups(s, 0, SnapshotPattern) == Some([4, 5] + e)
  {
    var rest := [DayGroup, UnderscoreGroup, HourGroup, MinuteGroup, SecondGroup];
    ShortMonth(s, rest, e);
    GroupStep(s, 0, YearGroup, [MonthGroup] + rest, 0, [5] + e);
    assert [YearGroup] + ([MonthGroup] + rest) == SnapshotPattern;
    assert |YearGroup[0]| == 4 && [0 + 4] + ([5] + e) == [4, 5] + e;
  }

  /** A month `1` followed by text the two-digit month `1x` would leave unmatched is read as January. */
  lemma ShortMonth(s: string, rest: seq<seq<seq<CharClass>>>, e: seq<nat>)
    requires |s| >= 6 && s[4] == '1'
    requires MatchGroups(s, 6, rest) == None && MatchGroups(s, 5, rest) == Some(e)
    ensures MatchGroups(s, 4, [MonthGroup] + rest) == Some([5] + e)
  {
    assert |MonthGroup[0]| == 2 && |MonthGroup[2]| == 1;
    MissesAt(s, 4, MonthGroup[1], 0);
    assert AltAt(s, 4, MonthGroup[2]);
    TryFirst(s, 4, MonthGroup, rest, 2);
    assert ([MonthGroup] + rest)[1..] == rest;
  }

  /** `\d` takes digits of any script: a year in full-width digits is read like an ASCII one. */
  lemma FullWidthYearParses()
    ensures ParseSnapshotName("\U{FF12}\U{FF10}\U{FF12}\U{FF14}1101_123456") == Some(DateTime(2024, 11, 1, 12, 34, 56))
  {
    var s := "\U{FF12}\U{FF10}\U{FF12}\U{FF14}1101_123456";
    assert s[..4] == "\U{FF12}\U{FF10}\U{FF12}\U{FF14}";
    assert s[4..6] == "11";
    assert s[6..8] == "01";
    assert s[8..] == "_123456";
    FullWidthMatch();
    ExampleTime(s, 8);
    FullWidthYearValue();
    DigitsValueTwo("11");
    DigitsValueTwo("01");
    ParseFromMatch(s, [4, 6, 8, 9, 11, 13, 15], DateTime(2024, 11, 1, 12, 34, 56));
  }

  lemma FullWidthYearValue()
    ensures DigitsValue("\U{FF12}\U{FF10}\U{FF12}\U{FF14}") == 2024
  {
    var y := "\U{FF12}\U{FF10}\U{FF12}\U{FF14}";
    assert y[0] == '\U{FF12}' && y[1] == '\U{FF10}' && y[2] == '\U{FF12}' && y[3] == '\U{FF14}';
    FullWidthDigit(y[0]);
    FullWidthDigit(y[1]);
    FullWidthDigit(y[2]);
    FullWidthDigit(y[3]);
    DigitsValueFour(y);
  }

  lemma FullWidthMatch()
    ensures MatchGroups("\U{FF12}\U{FF10}\U{FF12}\U{FF14}1101_123456", 0, SnapshotPattern) == Some([4, 6, 8, 9, 11, 13, 15])
  {
    var s := "\U{FF12}\U{FF10}\U{FF12}\U{FF14}1101_123456";
    assert s[0] == '\U{FF12}';
    assert s[1] == '\U{FF10}';
    assert s[2] == '\U{FF12}';
    assert s[3] == '\U{FF14}';
    assert s[4] == '1';
    assert s[5] == '1';
    assert s[6] == '0';
    assert s[7] == '1';
    assert s[8..] == "_123456";
    ExampleTime(s, 8);
    FullWidthDigit(s[0]);
    FullWidthDigit(s[1]);
    FullWidthDigit(s[2]);
    FullWidthDigit(s[3]);
    assert AltAt(s, 0, YearGroup[0]);
    assert DigitChar(0) == '0' && DigitChar(1) == '1';
    DateHalfMatches(s, 11, 1, [9, 11, 13, 15]);
    assert [4, 6, 8] + [9, 11, 13, 15] == [4, 6, 8, 9, 11, 13, 15];
  }

  // ---------------------------------------------------------------- seconds

  /** Days from 0001-01-01 to the first day of year `y`. */
  function DaysBeforeYear(y: int): int
    requires y >= 1
  {
    365 * (y - 1) + (y - 1) / 4 - (y - 1) / 100 + (y - 1) / 400
  }

  /** Days from the first day of year `y` to the first day of month `m`. */
  function DaysBeforeMonth(y: int, m: int): (r: int)
    requires 1 <= m <= 13
    ensures r >= 0
  {
    if m == 1 then 0 else DaysBeforeMonth(y, m - 1) + DaysInMonth(y, m - 1)
  }

  /** Seconds since 1970-01-01 00:00:00 of a civil time (`datetime.timestamp()`, local time taken as UTC). */
  function EpochOf(t: DateTime): int
    requires ValidDateTime(t)
  {
    var days := DaysBeforeYear(t.year) + DaysBeforeMonth(t.year, t.month) + t.day - 1;
    (days - 719162) * 86400 + t.hour * 3600 + t.minute * 60 + t.second
  }

  /** `a` is earlier than `b` field by field, from the year down to the second. */
  predicate Before(a: DateTime, b: DateTime)
  {
    a.year < b.year
    || (a.year == b.year && a.month < b.month)
    || (a.year == b.year && a.month == b.month && a.day < b.day)
    || (a.year == b.year && a.month == b.month && a.day == b.day && a.hour < b.hour)
    || (a.year == b.year && a.month == b.month && a.day == b.day && a.hour == b.hour && a.minute < b.minute)
    || (a.year == b.year && a.month == b.month && a.day == b.day && a.hour == b.hour && a.minute == b.minute
        && a.second < b.second)
  }

  lemma YearLength(y: int)
    requires y >= 1
    ensures DaysBeforeYear(y + 1) - DaysBeforeYear(y) == if IsLeap(y) then 366 else 365
  {
    assert y / 4 - (y - 1) / 4 == if y % 4 == 0 then 1 else 0;
    assert y / 100 - (y - 1) / 100 == if y % 100 == 0 then 1 else 0;
    assert y / 400 - (y - 1) / 400 == if y % 400 == 0 then 1 else 0;
    if y % 100 == 0 {
      assert y == 4 * (25 * (y / 100));
    }
    if y % 400 == 0 {
      assert y == 100 * (4 * (y / 400));
    }
  }

  lemma MonthsLength(y: int)
    ensures DaysBeforeMonth(y, 13) == if IsLeap(y) then 366 else 365
  {
    var f := if IsLeap(y) then 29 else 28;
    assert DaysBeforeMonth(y, 2) == 31;
    assert DaysBeforeMonth(y, 3) == 31 + f;
    assert DaysBeforeMonth(y, 4) == 62 + f;
    assert DaysBeforeMonth(y, 5) == 92 + f;
    assert DaysBeforeMonth(y, 6) == 123 + f;
    assert DaysBeforeMonth(y, 7) == 153 + f;
    assert DaysBeforeMonth(y, 8) == 184 + f;
    assert DaysBeforeMonth(y, 9) == 215 + f;
    assert DaysBeforeMonth(y, 10) == 245 + f;
    assert DaysBeforeMonth(y, 11) == 276 + f;
    assert DaysBeforeMonth(y, 12) == 306 + f;
  }

  lemma {:induction false} DaysBeforeYearMonotone(a: int, b: int)
    requires 1 <= a < b
    ensures DaysBeforeYear(a) + 365 <= DaysBeforeYear(b)
    decreases b - a
  {
    YearLength(a);
    if a + 1 < b {
      DaysBeforeYearMonotone(a + 1, b);
    }
  }

  lemma {:induction false} DaysBeforeMonthMonotone(y: int, a: int, b: int)
    requires 1 <= a <= b <= 13
    ensures DaysBeforeMonth(y, a) <= DaysBeforeMonth(y, b)
    decreases b - a
  {
    if a < b {
      DaysBeforeMonthMonotone(y, a, b - 1);
    }
  }

  /** The day number of a valid date lies within its year. */
  lemma DayWithinYear(t: DateTime)
    requires ValidDateTime(t)
    ensures DaysBeforeMonth(t.year, t.month) + t.day - 1 < DaysBeforeMonth(t.year, 13)
  {
    DaysBeforeMonthMonotone(t.year, t.month + 1, 13);
  }

  /** Converting to seconds respects the calendar order, so timestamps sort snapshots chronologically. */
  lemma EpochOfMonotone(a: DateTime, b: DateTime)
    requires ValidDateTime(a) && ValidDateTime(b) && Before(a, b)
    ensures EpochOf(a) < EpochOf(b)
  {
    var da := DaysBeforeYear(a.year) + DaysBeforeMonth(a.year, a.month) + a.day - 1;
    var db := DaysBeforeYear(b.year) + DaysBeforeMonth(b.year, b.month) + b.day - 1;
    if a.year < b.year {
      DayWithinYear(a);
      YearLength(a.year);
      MonthsLength(a.year);
      if a.year + 1 < b.year {
        DaysBeforeYearMonotone(a.year + 1, b.year);
      }
      assert da < db;
    } else if a.month < b.month {
      DaysBeforeMonthMonotone(a.year, a.month + 1, b.month);
      assert DaysBeforeMonth(a.year, a.month + 1) == DaysBeforeMonth(a.year, a.month) + DaysInMonth(a.year, a.month);
      assert da < db;
    }
  }

  /**
   * The last second the C library's `localtime` accepts on Windows, 3000-12-31 23:59:59.
   * `datetime.timestamp()` and `datetime.fromtimestamp()` go through it, and raise `OSError`
   * for a time before the epoch or after this one.
   */
  const LatestLocalTime: int := 32535215999

  predicate LocalTimeOk(s: int)
  {
    0 <= s <= LatestLocalTime
  }

  /** Two civil times that are not one before the other are the same. */
  lemma BeforeTotal(a: DateTime, b: DateTime)
    ensures a == b || Before(a, b) || Before(b, a)
  {
  }

  /** Of two valid civil times, the first comes before the second exactly when it has fewer seconds. */
  lemma EpochOfOrder(a: DateTime, b: DateTime)
    requires ValidDateTime(a) && ValidDateTime(b)
    ensures Before(a, b) <==> EpochOf(a) < EpochOf(b)
  {
    BeforeTotal(a, b);
    if Before(a, b) {
      EpochOfMonotone(a, b);
    } else if Before(b, a) {
      EpochOfMonotone(b, a);
    }
  }

  /** A civil time's seconds lie within the seconds of its year. */
  lemma EpochOfWithinYear(t: DateTime)
    requires ValidDateTime(t)
    ensures (DaysBeforeYear(t.year) - 719162) * 86400 <= EpochOf(t) < (DaysBeforeYear(t.year + 1) - 719162) * 86400
  {
    DayWithinYear(t);
    MonthsLength(t.year);
    YearLength(t.year);
  }

  /**
   * The seconds `localtime` accepts are exactly those of the civil times in the years 1970 to
   * 3000: a snapshot named for a time outside them cannot be dated.
   */
  lemma LocalTimeOkIff(t: DateTime)
    requires ValidDateTime(t)
    ensures LocalTimeOk(EpochOf(t)) <==> 1970 <= t.year <= 3000
  {
    EpochOfWithinYear(t);
    assert DaysBeforeYear(1970) == 719162;
    assert DaysBeforeYear(3001) == 1095727;
    if t.year > 1970 {
      DaysBeforeYearMonotone(1970, t.year);
    } else if t.year < 1969 {
      DaysBeforeYearMonotone(t.year + 1, 1970);
    }
    if t.year > 3001 {
      DaysBeforeYearMonotone(3001, t.year);
    } else if t.year < 2999 {
      DaysBeforeYearMonotone(t.year + 1, 3001);
    }
  }

  // ---------------------------------------------------------------- ages

  const SecondsPerDay: int := 86400

  /** `mod_time < now - timedelta(days=days)`, on seconds. */
  predicate ModifiedBefore(mtime: int, now: int, days: nat)
  {
    mtime < now - days * SecondsPerDay
  }

  /** `(now - mod_time).days > days`: whole elapsed days, rounded down. */
  predicate OlderThanDays(mtime: int, now: int, days: nat)
  {
    (now - mtime) / SecondsPerDay > days
  }

  /** The whole-day test asks for a full extra day: older than 30 days means at least 31 days old. */
  lemma OlderThanDaysIff(mtime: int, now: int, days: nat)
    ensures OlderThanDays(mtime, now, days) <==> now - mtime >= (days + 1) * SecondsPerDay
  {
    var q := (now - mtime) / SecondsPerDay;
    var r := (now - mtime) % SecondsPerDay;
    assert now - mtime == q * SecondsPerDay + r && 0 <= r < SecondsPerDay;
    if q > days {
      assert q * SecondsPerDay >= (days + 1) * SecondsPerDay;
    } else {
      assert q * SecondsPerDay <= days * SecondsPerDay;
    }
  }

  /** The two age tests disagree between 30 days and one second and 31 days. */
  lemma AgeTestsDiffer(now: int)
    ensures ModifiedBefore(now - 30 * SecondsPerDay - 1, now, 30)
    ensures !OlderThanDays(now - 30 * SecondsPerDay - 1, now, 30)
  {
    OlderThanDaysIff(now - 30 * SecondsPerDay - 1, now, 30);
  }
}
