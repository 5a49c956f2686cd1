/**
 * Character-string operations with the semantics of the Python built-ins the cleaner relies
 * on: `str.startswith`, `str.endswith`, `str.lower`, `str.strip`, `str(int)` and `int(str)`
 * in base 10, with Unicode decimal digits.
 */
module Text {
  import opened Wrappers

  /** `s.startswith(prefix)`. */
  predicate StartsWith(s: string, prefix: string)
  {
    |prefix| <= |s| && s[..|prefix|] == prefix
  }

  /** `s.endswith(suffix)`: case-sensitive. */
  predicate EndsWith(s: string, suffix: string)
  {
    |suffix| <= |s| && s[|s| - |suffix|..] == suffix
  }

  /** `any(s.endswith(x) for x in suffixes)`. */
  predicate EndsWithAny(s: string, suffixes: seq<string>)
  {
    exists i :: 0 <= i < |suffixes| && EndsWith(s, suffixes[i])
  }

  /**
   * What `str.lower()` turns one character into: ASCII capitals become small letters, and
   * the two characters whose lower case holds an ASCII letter are mapped as Python maps them
   * (the Kelvin sign to `k`, the dotted capital I to `i` followed by a combining dot above).
   * Every other character is kept.
   */
  function LowerChar(c: char): (r: string)
    ensures |r| >= 1 && (|r| == 1 <==> c != '\U{0130}')
  {
    if 'A' <= c <= 'Z' then [(c as int + 32) as char]
    else if c == '\U{212A}' then ['k']
    else if c == '\U{0130}' then ['i', '\U{0307}']
    else [c]
  }

  /** `s.lower()`, character by character; only the dotted capital I lengthens the text. */
  function Lower(s: string): (r: string)
    ensures |r| >= |s|
  {
    if s == [] then [] else Lower(s[..|s| - 1]) + LowerChar(s[|s| - 1])
  }

  /** Without a dotted capital I, lowering keeps the length and maps each character on its own. */
  lemma {:induction false} LowerPerChar(s: string)
    requires forall i :: 0 <= i < |s| ==> s[i] != '\U{0130}'
    ensures |Lower(s)| == |s|
    ensures forall i :: 0 <= i < |s| ==> Lower(s)[i] == LowerChar(s[i])[0]
  {
    if s != [] {
      LowerPerChar(s[..|s| - 1]);
    }
  }

  /** Lowering works piece by piece: the lower case of a concatenation is the concatenation of the lower cases. */
  lemma {:induction false} LowerAppend(a: string, b: string)
    ensures Lower(a + b) == Lower(a) + Lower(b)
  {
    if b == [] {
      assert a + b == a;
    } else {
      var init := b[..|b| - 1];
      assert (a + b)[..|a + b| - 1] == a + init;
      LowerAppend(a, init);
    }
  }

  /** The dotted capital I lowers to two characters, and the Kelvin sign to an ASCII `k`. */
  lemma LowerSpecialCases()
    ensures Lower("\U{0130}") == "i\U{0307}" && |Lower("\U{0130}")| == 2
    ensures Lower("A\U{212A}") == "ak"
  {
    assert "\U{0130}"[..0] == [];
    assert "A\U{212A}"[..1] == "A" && "A"[..0] == [];
  }

  /** The characters for which Python's `str.isspace()` holds. */
  predicate IsSpace(c: char)
  {
    ('\t' <= c <= '\r') || ('\U{1c}' <= c <= ' ') || c == '\U{85}' || c == '\U{a0}'
    || c == '\U{1680}' || ('\U{2000}' <= c <= '\U{200a}') || c == '\U{2028}' || c == '\U{2029}'
    || c == '\U{202f}' || c == '\U{205f}' || c == '\U{3000}'
  }

  /**
   * The characters `int()` skips around a number: those of `str.isspace()` except the
   * separator controls U+001C to U+001F. `int()` turns non-ASCII whitespace into a blank but
   * keeps ASCII characters as they are, and then skips only tab, line feed, vertical tab, form
   * feed, carriage return and the blank itself.
   */
  predicate IntSpace(c: char)
  {
    IsSpace(c) && !('\U{1c}' <= c <= '\U{1f}')
  }

  function StripLeft(s: string, sp: char -> bool): string
  {
    if |s| > 0 && sp(s[0]) then StripLeft(s[1..], sp) else s
  }

  function StripRight(s: string, sp: char -> bool): string
  {
    if |s| > 0 && sp(s[|s| - 1]) then StripRight(s[..|s| - 1], sp) else s
  }

  lemma {:induction false} StripLeftShape(s: string, sp: char -> bool)
    ensures |StripLeft(s, sp)| <= |s| && StripLeft(s, sp) == s[|s| - |StripLeft(s, sp)|..]
    ensures |StripLeft(s, sp)| > 0 ==> !sp(StripLeft(s, sp)[0])
    ensures forall i :: 0 <= i < |s| - |StripLeft(s, sp)| ==> sp(s[i])
  {
    if |s| > 0 && sp(s[0]) {
      StripLeftShape(s[1..], sp);
    }
  }

  lemma {:induction false} StripRightShape(s: string, sp: char -> bool)
    ensures |StripRight(s, sp)| <= |s| && StripRight(s, sp) == s[..|StripRight(s, sp)|]
    ensures |StripRight(s, sp)| > 0 ==> !sp(StripRight(s, sp)[|StripRight(s, sp)| - 1])
    ensures forall i :: |StripRight(s, sp)| <= i < |s| ==> sp(s[i])
  {
    if |s| > 0 && sp(s[|s| - 1]) {
      StripRightShape(s[..|s| - 1], sp);
    }
  }

  /** How many leading characters of the set `sp` stripping drops. */
  function StripOffset(s: string, sp: char -> bool): (k: nat)
    ensures k <= |s|
  {
    StripLeftShape(s, sp);
    |s| - |StripLeft(s, sp)|
  }

  /**
   * The stretch of `s` left once the characters of the set `sp` are dropped from both ends;
   * it neither starts nor ends with one of them.
   */
  function StripBy(s: string, sp: char -> bool): (r: string)
    ensures StripOffset(s, sp) + |r| <= |s| && r == s[StripOffset(s, sp)..StripOffset(s, sp) + |r|]
    ensures forall i :: 0 <= i < StripOffset(s, sp) ==> sp(s[i])
    ensures forall i :: StripOffset(s, sp) + |r| <= i < |s| ==> sp(s[i])
    ensures |r| > 0 ==> !sp(r[0]) && !sp(r[|r| - 1])
  {
    var left := StripLeft(s, sp);
    var r := StripRight(left, sp);
    StripLeftShape(s, sp);
    StripRightShape(left, sp);
    var k := |s| - |left|;
    assert r == s[k..k + |r|];
    assert forall i :: k + |r| <= i < |s| ==> s[i] == left[i - k];
    r
  }

  /**
   * `s.strip()`: the stretch of `s` left once whitespace is dropped from both ends; it
   * neither starts nor ends with whitespace.
   */
  function Strip(s: string): (r: string)
    ensures StripOffset(s, IsSpace) + |r| <= |s| && r == s[StripOffset(s, IsSpace)..StripOffset(s, IsSpace) + |r|]
    ensures forall i :: 0 <= i < StripOffset(s, IsSpace) ==> IsSpace(s[i])
    ensures forall i :: StripOffset(s, IsSpace) + |r| <= i < |s| ==> IsSpace(s[i])
    ensures |r| > 0 ==> !IsSpace(r[0]) && !IsSpace(r[|r| - 1])
  {
    StripBy(s, IsSpace)
  }

  /** The stripped text is empty exactly when the input is made of whitespace alone. */
  lemma StripEmptyIff(s: string)
    ensures Strip(s) == [] <==> forall i :: 0 <= i < |s| ==> IsSpace(s[i])
  {
    var r := Strip(s);
    if r != [] {
      assert s[StripOffset(s, IsSpace)] == r[0];
    }
  }

  /** Stripping text that has no character of the set `sp` at either end changes nothing. */
  lemma StripKeepsTrimmed(s: string, sp: char -> bool)
    requires |s| > 0 ==> !sp(s[0]) && !sp(s[|s| - 1])
    ensures StripBy(s, sp) == s
  {
  }

  // ---------------------------------------------------------------- decimal integers

  /**
   * The zero of the run of ten decimal digits (Unicode 15.0, general category Nd) that holds
   * code point `x`, if any. The 68 runs are searched by halving; ASCII `0` is the first run and
   * the full-width digits from U+FF10 the thirty-seventh.
   */
  function DigitZeroOf(x: int): (r: Option<int>)
    ensures r.Some? ==> r.value <= x < r.value + 10
  {
    if x < 0xAA50 then
      if x < 0x1040 then
        if x < 0xB66 then
          if x < 0x966 then
            if x < 0x6F0 then
              if x < 0x660 then
                if 0x30 <= x < 0x3A then Some(0x30) else None
              else
                if 0x660 <= x < 0x66A then Some(0x660) else None
            else
              if x < 0x7C0 then
                if 0x6F0 <= x < 0x6FA then Some(0x6F0) else None
              else
                if 0x7C0 <= x < 0x7CA then Some(0x7C0) else None
          else
            if x < 0xA66 then
              if x < 0x9E6 then
                if 0x966 <= x < 0x970 then Some(0x966) else None
              else
                if 0x9E6 <= x < 0x9F0 then Some(0x9E6) else None
            else
              if x < 0xAE6 then
                if 0xA66 <= x < 0xA70 then Some(0xA66) else None
              else
                if 0xAE6 <= x < 0xAF0 then Some(0xAE6) else None
        else
          if x < 0xD66 then
            if x < 0xC66 then
              if x < 0xBE6 then
                if 0xB66 <= x < 0xB70 then Some(0xB66) else None
              else
                if 0xBE6 <= x < 0xBF0 then Some(0xBE6) else None
            else
              if x < 0xCE6 then
                if 0xC66 <= x < 0xC70 then Some(0xC66) else None
              else
                if 0xCE6 <= x < 0xCF0 then Some(0xCE6) else None
          else
            if x < 0xE50 then
              if x < 0xDE6 then
                if 0xD66 <= x < 0xD70 then Some(0xD66) else None
              else
                if 0xDE6 <= x < 0xDF0 then Some(0xDE6) else None
            else
              if x < 0xED0 then
                if 0xE50 <= x < 0xE5A then Some(0xE50) else None
              else
                if x < 0xF20 then
                  if 0xED0 <= x < 0xEDA then Some(0xED0) else None
                else
                  if 0xF20 <= x < 0xF2A then Some(0xF20) else None
      else
        if x < 0x1B50 then
          if x < 0x1946 then
            if x < 0x17E0 then
              if x < 0x1090 then
                if 0x1040 <= x < 0x104A then Some(0x1040) else None
              else
                if 0x1090 <= x < 0x109A then Some(0x1090) else None
            else
              if x < 0x1810 then
                if 0x17E0 <= x < 0x17EA then Some(0x17E0) else None
              else
                if 0x1810 <= x < 0x181A then Some(0x1810) else None
          else
            if x < 0x1A80 then
              if x < 0x19D0 then
                if 0x1946 <= x < 0x1950 then Some(0x1946) else None
              else
                if 0x19D0 <= x < 0x19DA then Some(0x19D0) else None
            else
              if x < 0x1A90 then
                if 0x1A80 <= x < 0x1A8A then Some(0x1A80) else None
              else
                if 0x1A90 <= x < 0x1A9A then Some(0x1A90) else None
        else
          if x < 0xA620 then
            if x < 0x1C40 then
              if x < 0x1BB0 then
                if 0x1B50 <= x < 0x1B5A then Some(0x1B50) else None
              else
                if 0x1BB0 <= x < 0x1BBA then Some(0x1BB0) else None
            else
              if x < 0x1C50 then
                if 0x1C40 <= x < 0x1C4A then Some(0x1C40) else None
              else
                if 0x1C50 <= x < 0x1C5A then Some(0x1C50) else None
          else
            if x < 0xA900 then
              if x < 0xA8D0 then
                if 0xA620 <= x < 0xA62A then Some(0xA620) else None
              else
                if 0xA8D0 <= x < 0xA8DA then Some(0xA8D0) else None
            else
              if x < 0xA9D0 then
                if 0xA900 <= x < 0xA90A then Some(0xA900) else None
              else
                if x < 0xA9F0 then
                  if 0xA9D0 <= x < 0xA9DA then Some(0xA9D0) else None
                else
                  if 0xA9F0 <= x < 0xA9FA then Some(0xA9F0) else None
    else
      if x < 0x11C50 then
        if x < 0x111D0 then
          if x < 0x10D30 then
            if x < 0xFF10 then
              if x < 0xABF0 then
                if 0xAA50 <= x < 0xAA5A then Some(0xAA50) else None
              else
                if 0xABF0 <= x < 0xABFA then Some(0xABF0) else None
            else
              if x < 0x104A0 then
                if 0xFF10 <= x < 0xFF1A then Some(0xFF10) else None
              else
                if 0x104A0 <= x < 0x104AA then Some(0x104A0) else None
          else
            if x < 0x110F0 then
              if x < 0x11066 then
                if 0x10D30 <= x < 0x10D3A then Some(0x10D30) else None
              else
                if 0x11066 <= x < 0x11070 then Some(0x11066) else None
            else
              if x < 0x11136 then
                if 0x110F0 <= x < 0x110FA then Some(0x110F0) else None
              else
                if 0x11136 <= x < 0x11140 then Some(0x11136) else None
        else
          if x < 0x11650 then
            if x < 0x11450 then
              if x < 0x112F0 then
                if 0x111D0 <= x < 0x111DA then Some(0x111D0) else None
              else
                if 0x112F0 <= x < 0x112FA then Some(0x112F0) else None
            else
              if x < 0x114D0 then
                if 0x11450 <= x < 0x1145A then Some(0x11450) else None
              else
                if 0x114D0 <= x < 0x114DA then Some(0x114D0) else None
          else
            if x < 0x11730 then
              if x < 0x116C0 then
                if 0x11650 <= x < 0x1165A then Some(0x11650) else None
              else
                if 0x116C0 <= x < 0x116CA then Some(0x116C0) else None
            else
              if x < 0x118E0 then
                if 0x11730 <= x < 0x1173A then Some(0x11730) else None
              else
                if x < 0x11950 then
                  if 0x118E0 <= x < 0x118EA then Some(0x118E0) else None
                else
                  if 0x11950 <= x < 0x1195A then Some(0x11950) else None
      else
        if x < 0x1D7D8 then
          if x < 0x16A60 then
            if x < 0x11DA0 then
              if x < 0x11D50 then
                if 0x11C50 <= x < 0x11C5A then Some(0x11C50) else None
              else
                if 0x11D50 <= x < 0x11D5A then Some(0x11D50) else None
            else
              if x < 0x11F50 then
                if 0x11DA0 <= x < 0x11DAA then Some(0x11DA0) else None
              else
                if 0x11F50 <= x < 0x11F5A then Some(0x11F50) else None
          else
            if x < 0x16B50 then
              if x < 0x16AC0 then
                if 0x16A60 <= x < 0x16A6A then Some(0x16A60) else None
              else
                if 0x16AC0 <= x < 0x16ACA then Some(0x16AC0) else None
            else
              if x < 0x1D7CE then
                if 0x16B50 <= x < 0x16B5A then Some(0x16B50) else None
              else
                if 0x1D7CE <= x < 0x1D7D8 then Some(0x1D7CE) else None
        else
          if x < 0x1E140 then
            if x < 0x1D7EC then
              if x < 0x1D7E2 then
                if 0x1D7D8 <= x < 0x1D7E2 then Some(0x1D7D8) else None
              else
                if 0x1D7E2 <= x < 0x1D7EC then Some(0x1D7E2) else None
            else
              if x < 0x1D7F6 then
                if 0x1D7EC <= x < 0x1D7F6 then Some(0x1D7EC) else None
              else
                if 0x1D7F6 <= x < 0x1D800 then Some(0x1D7F6) else None
          else
            if x < 0x1E4F0 then
              if x < 0x1E2F0 then
                if 0x1E140 <= x < 0x1E14A then Some(0x1E140) else None
              else
                if 0x1E2F0 <= x < 0x1E2FA then Some(0x1E2F0) else None
            else
              if x < 0x1E950 then
                if 0x1E4F0 <= x < 0x1E4FA then Some(0x1E4F0) else None
              else
                if x < 0x1FBF0 then
                  if 0x1E950 <= x < 0x1E95A then Some(0x1E950) else None
                else
                  if 0x1FBF0 <= x < 0x1FBFA then Some(0x1FBF0) else None
  }

  /** A decimal digit as `int()` and the pattern `\d` take it: any Unicode digit, not only `0` to `9`. */
  predicate IsDigit(c: char)
  {
    DigitZeroOf(c as int).Some?
  }

  function DigitValue(c: char): (d: nat)
    requires IsDigit(c)
    ensures d < 10
  {
    c as int - DigitZeroOf(c as int).value
  }

  function DigitChar(d: nat): (c: char)
    requires d < 10
    ensures IsDigit(c) && DigitValue(c) == d
  {
    ('0' as int + d) as char
  }

  /** Below the second run (Arabic-Indic, from U+0660) the digits are exactly `0` to `9`. */
  lemma AsciiDigit(c: char)
    requires (c as int) < 0x660
    ensures IsDigit(c) <==> '0' <= c <= '9'
    ensures IsDigit(c) ==> DigitValue(c) == c as int - '0' as int
  {
  }

  /** Full-width digits are digits with their usual values. */
  lemma FullWidthDigit(c: char)
    requires 0xFF10 <= c as int < 0xFF1A
    ensures IsDigit(c) && DigitValue(c) == c as int - 0xFF10
  {
  }

  /** No digit is whitespace, so `strip()` leaves the digits of a number alone. */
  lemma DigitNotSpace(c: char)
    requires IsDigit(c)
    ensures !IsSpace(c)
  {
  }

  /**
   * The digits Python's `int()` accepts in base 10: at least one digit of any script, with single
   * underscores allowed between two digits (`"1_000"`).
   */
  predicate WellFormedDigits(s: string)
  {
    |s| > 0 && IsDigit(s[|s| - 1])
    && (|s| == 1
        || WellFormedDigits(s[..|s| - 1])
        || (s[|s| - 2] == '_' && WellFormedDigits(s[..|s| - 2])))
  }

  /** The value of a digit string, underscores skipped. */
  function DigitsValue(s: string): nat
  {
    if |s| == 0 then 0
    else if IsDigit(s[|s| - 1]) then DigitsValue(s[..|s| - 1]) * 10 + DigitValue(s[|s| - 1])
    else DigitsValue(s[..|s| - 1])
  }

  /** `str(n)` for a natural number. */
  function NatToString(n: nat): (r: string)
    ensures |r| > 0 && IsDigit(r[0]) && IsDigit(r[|r| - 1])
    ensures forall i :: 0 <= i < |r| ==> IsDigit(r[i])
  {
    if n < 10 then [DigitChar(n)] else NatToString(n / 10) + [DigitChar(n % 10)]
  }

  /** `str(n)`: a minus sign followed by the magnitude's digits for negative numbers. */
  function IntToString(n: int): (r: string)
    ensures |r| > 0 && IsDigit(r[|r| - 1])
    ensures n >= 0 ==> IsDigit(r[0])
    ensures n < 0 ==> r[0] == '-'
  {
    if n < 0 then "-" + NatToString(-n) else NatToString(n)
  }

  /**
   * `int(s)` in base 10: surrounding whitespace is ignored, then an optional sign, then
   * well-formed digits; anything else is the `ValueError` the caller reports (`None`).
   */
  function ParseInt(s: string): (r: Option<int>)
  {
    var t := StripBy(s, IntSpace);
    if |t| > 0 && (t[0] == '-' || t[0] == '+') then
      if WellFormedDigits(t[1..]) then
        var m: int := DigitsValue(t[1..]);
        Some(if t[0] == '-' then -m else m)
      else None
    else if WellFormedDigits(t) then
      Some(DigitsValue(t))
    else None
  }

  lemma {:induction false} NatToStringValue(n: nat)
    ensures WellFormedDigits(NatToString(n))
    ensures DigitsValue(NatToString(n)) == n
  {
    if n >= 10 {
      NatToStringValue(n / 10);
      var s := NatToString(n);
      assert s[..|s| - 1] == NatToString(n / 10);
    }
  }

  /** `int(str(n)) == n` for every integer: the text a field shows parses back to the number. */
  lemma ParseIntToString(n: int)
    ensures ParseInt(IntToString(n)) == Some(n)
  {
    var s := IntToString(n);
    DigitNotSpace(s[|s| - 1]);
    if n >= 0 {
      DigitNotSpace(s[0]);
    }
    StripKeepsTrimmed(s, IntSpace);
    if n < 0 {
      ParseNegative(n);
    } else {
      ParseNonNegative(n);
    }
  }

  lemma ParseNegative(n: int)
    requires n < 0 && StripBy(IntToString(n), IntSpace) == IntToString(n)
    ensures ParseInt(IntToString(n)) == Some(n)
  {
    NegativeDigits(n);
    ParseMinus(IntToString(n));
  }

  /** `str` of a negative number is a minus sign followed by well-formed digits of its magnitude. */
  lemma NegativeDigits(n: int)
    requires n < 0
    ensures IntToString(n)[0] == '-' && WellFormedDigits(IntToString(n)[1..])
    ensures DigitsValue(IntToString(n)[1..]) == -n
  {
    NatToStringValue(-n);
    AfterMinus(NatToString(-n));
  }

  lemma AfterMinus(d: string)
    ensures ("-" + d)[0] == '-' && ("-" + d)[1..] == d
  {
  }

  /** Stripped text of a minus sign followed by well-formed digits parses to their negated value. */
  lemma ParseMinus(t: string)
    requires StripBy(t, IntSpace) == t && |t| > 0 && t[0] == '-' && WellFormedDigits(t[1..])
    ensures ParseInt(t) == Some(-(DigitsValue(t[1..]) as int))
  {
  }

  lemma ParseNonNegative(n: int)
    requires n >= 0 && StripBy(IntToString(n), IntSpace) == IntToString(n)
    ensures ParseInt(IntToString(n)) == Some(n)
  {
    var s := IntToString(n);
    NatToStringValue(n);
    assert s == NatToString(n);
    assert s[0] != '-' && s[0] != '+';
  }

  lemma {:induction false} StripLeftSkipsSpace(a: string, rest: string, sp: char -> bool)
    requires forall i :: 0 <= i < |a| ==> sp(a[i])
    requires |rest| > 0 ==> !sp(rest[0])
    ensures StripLeft(a + rest, sp) == rest
  {
    if |a| > 0 {
      assert (a + rest)[1..] == a[1..] + rest;
      StripLeftSkipsSpace(a[1..], rest, sp);
    }
  }

  lemma {:induction false} StripRightSkipsSpace(rest: string, b: string, sp: char -> bool)
    requires forall i :: 0 <= i < |b| ==> sp(b[i])
    requires |rest| > 0 ==> !sp(rest[|rest| - 1])
    ensures StripRight(rest + b, sp) == rest
  {
    if |b| > 0 {
      assert (rest + b)[..|rest + b| - 1] == rest + b[..|b| - 1];
      StripRightSkipsSpace(rest, b[..|b| - 1], sp);
    }
  }

  /** Stripping text surrounded by characters of the set `sp` gives back the text. */
  lemma StripSurrounded(a: string, t: string, b: string, sp: char -> bool)
    requires forall i :: 0 <= i < |a| ==> sp(a[i])
    requires forall i :: 0 <= i < |b| ==> sp(b[i])
    requires |t| > 0 && !sp(t[0]) && !sp(t[|t| - 1])
    ensures StripBy(a + t + b, sp) == t
  {
    var u := t + b;
    assert a + t + b == a + u;
    assert u[0] == t[0];
    StripLeftSkipsSpace(a, u, sp);
    StripRightSkipsSpace(t, b, sp);
  }

  /** `int()` ignores the blanks it skips before and after the number. */
  lemma ParseIntIgnoresSurroundingSpace(a: string, t: string, b: string)
    requires forall i :: 0 <= i < |a| ==> IntSpace(a[i])
    requires forall i :: 0 <= i < |b| ==> IntSpace(b[i])
    requires |t| > 0 && !IntSpace(t[0]) && !IntSpace(t[|t| - 1])
    ensures ParseInt(a + t + b) == ParseInt(t)
  {
    StripSurrounded(a, t, b, IntSpace);
    StripKeepsTrimmed(t, IntSpace);
  }

  /**
   * `int()` skips a non-ASCII blank such as the no-break space, but not the separator control
   * U+001C, although `str.isspace()` holds for both.
   */
  lemma ParseIntSpaces()
    ensures IsSpace('\U{a0}') && ParseInt("\U{a0}5") == Some(5)
    ensures IsSpace('\U{1c}') && ParseInt("\U{1c}5") == None
  {
    ParseIntIgnoresSurroundingSpace("\U{a0}", "5", "");
    assert "\U{a0}" + "5" + "" == "\U{a0}5";
    StripKeepsTrimmed("5", IntSpace);
    assert "5"[..0] == "";
    var s := "\U{1c}5";
    StripKeepsTrimmed(s, IntSpace);
    assert !IsDigit(s[0]);
  }

  /** `int()` accepts single underscores between digits. */
  lemma ParseIntAcceptsUnderscore()
    ensures ParseInt("1_024") == Some(1024)
  {
    var s := "1_024";
    StripKeepsTrimmed(s, IntSpace);
    assert s[..4] == "1_02" && "1_02"[..3] == "1_0" && "1_0"[..2] == "1_" && "1_"[..1] == "1";
    assert "1_0"[..1] == "1";
    assert WellFormedDigits("1");
    assert WellFormedDigits("1_0");
    assert WellFormedDigits(s);
    assert DigitsValue("1") == 1 by { assert "1"[..0] == ""; }
    assert DigitsValue("1_") == 1;
    assert DigitsValue("1_0") == 10;
    assert DigitsValue("1_02") == 102;
  }

  /** `int()` reads digits of other scripts too: full-width `１２` and a mix with ASCII `３0`. */
  lemma ParseIntFullWidth()
    ensures ParseInt("\U{FF11}\U{FF12}") == Some(12)
    ensures ParseInt("\U{FF13}0") == Some(30)
  {
    var s := "\U{FF11}\U{FF12}";
    FullWidthDigit(s[0]);
    FullWidthDigit(s[1]);
    StripKeepsTrimmed(s, IntSpace);
    assert s[..1] == "\U{FF11}" && "\U{FF11}"[..0] == "";
    assert DigitsValue("\U{FF11}") == 1;
    var u := "\U{FF13}0";
    FullWidthDigit(u[0]);
    StripKeepsTrimmed(u, IntSpace);
    assert u[..1] == "\U{FF13}" && "\U{FF13}"[..0] == "";
    assert DigitsValue("\U{FF13}") == 3;
  }

  /** `int()` refuses the empty text, a decimal point and a doubled underscore. */
  lemma ParseIntRefuses()
    ensures ParseInt("") == None
    ensures ParseInt("1.5") == None
    ensures ParseInt("1__0") == None
  {
    StripKeepsTrimmed("1.5", IntSpace);
    assert !IsDigit("1.5"[1]);
    var s := "1__0";
    StripKeepsTrimmed(s, IntSpace);
    assert !(IsDigit(s[1]) || (s[1] == '_' && 0 < 1 < |s| - 1 && IsDigit(s[0]) && IsDigit(s[2])));
  }
}
