/** RFC 3339 timestamps (src/time.c): parsing with offsets and fractions, and the UTC
    form that is written. Section 5.6 of RFC 3339. */
module Timestamps {
  import opened Text
  import opened Calendar

  const NUL := 0 as char

  /** The byte at a position of a NUL-terminated text. */
  function At(s: string, i: nat): char { if i < |s| then s[i] else NUL }

  /** parse_digits: the value of exactly n digits. */
  function Digits(s: string, at: nat, n: nat): (r: Option<nat>)
    ensures r.Some? ==> forall i :: at <= i < at + n ==> IsDigit(At(s, i))
  {
    if n == 0 then Some(0)
    else if !Digits(s, at, n - 1).Some? || !IsDigit(At(s, at + n - 1)) then None
    else Some(Digits(s, at, n - 1).value * 10 + DigitValue(At(s, at + n - 1)))
  }

  method ParseDigits(s: string, at: nat, n: nat) returns (r: Option<nat>)
    ensures r == Digits(s, at, n)
  {
    var v := 0;
    for i := 0 to n
      invariant Digits(s, at, i) == Some(v)
    {
      if !IsDigit(At(s, at + i)) {
        DigitsFail(s, at, i + 1, n);
        return None;
      }
      v := v * 10 + DigitValue(At(s, at + i));
    }
    return Some(v);
  }

  lemma {:induction false} DigitsFail(s: string, at: nat, m: nat, n: nat)
    requires m <= n && Digits(s, at, m).None?
    ensures Digits(s, at, n).None?
  {
    if m < n {
      DigitsFail(s, at, m, n - 1);
    }
  }

  datatype Clock = Clock(date: Date, h: int, mi: int, se: int)

  /** "YYYY-MM-DDThh:mm:ss" at the start of the text. */
  function ReadClock(s: string): Option<Clock> {
    match (Digits(s, 0, 4), Digits(s, 5, 2), Digits(s, 8, 2), Digits(s, 11, 2), Digits(s, 14, 2), Digits(s, 17, 2))
    case (Some(y), Some(mo), Some(d), Some(h), Some(mi), Some(se)) =>
      if At(s, 4) == '-' && At(s, 7) == '-' && (At(s, 10) == 'T' || At(s, 10) == 't') && At(s, 13) == ':' && At(s, 16) == ':' then
        Some(Clock(Date(y, mo, d), h, mi, se))
      else None
    case _ => None
  }

  function SkipDigits(s: string, at: nat): (r: nat)
    ensures r >= at
    decreases |s| - at
  {
    if at < |s| && IsDigit(s[at]) then SkipDigits(s, at + 1) else at
  }

  /** Where the optional fraction ends. */
  function Fraction(s: string, at: nat): Option<nat> {
    if At(s, at) != '.' then Some(at)
    else if !IsDigit(At(s, at + 1)) then None
    else Some(SkipDigits(s, at + 2))
  }

  /** Seconds that the offset at the end of the text adds. */
  function Offset(s: string, at: nat): Option<int> {
    if At(s, at) == 'Z' || At(s, at) == 'z' then if at + 1 >= |s| then Some(0) else None
    else if At(s, at) != '+' && At(s, at) != '-' then None
    else match (Digits(s, at + 1, 2), Digits(s, at + 4, 2))
      case (Some(h), Some(m)) =>
        if At(s, at + 3) != ':' || h > 23 || m > 59 || at + 6 < |s| then None
        else
          var off: int := h * 3600 + m * 60;
          Some(if At(s, at) == '+' then -off else off)
      case _ => None
  }

  predicate ClockOk(c: Clock) { Valid(c.date) && c.h <= 23 && c.mi <= 59 && c.se <= 60 }

  function Seconds(c: Clock): int {
    DaysFromCivil(c.date.y, c.date.m, c.date.d) * 86400 + c.h * 3600 + c.mi * 60 + c.se
  }

  /** astools_time_parse_rfc3339 */
  function Parse(s: string): Option<int> {
    match ReadClock(s)
    case None => None
    case Some(c) =>
      match Fraction(s, 19)
      case None => None
      case Some(at) =>
        match Offset(s, at)
        case None => None
        case Some(off) => if ClockOk(c) then Some(Seconds(c) + off) else None
  }

  method ParseTimestamp(s: string) returns (r: Option<int>)
    ensures r == Parse(s)
  {
    hide Digits;
    var y := ParseDigits(s, 0, 4);
    var mo := ParseDigits(s, 5, 2);
    var d := ParseDigits(s, 8, 2);
    var h := ParseDigits(s, 11, 2);
    var mi := ParseDigits(s, 14, 2);
    var se := ParseDigits(s, 17, 2);
    if y.None? || At(s, 4) != '-' || mo.None? || At(s, 7) != '-' || d.None? || (At(s, 10) != 'T' && At(s, 10) != 't') {
      return None;
    }
    if h.None? || At(s, 13) != ':' || mi.None? || At(s, 16) != ':' || se.None? {
      return None;
    }
    var p := 19;
    if At(s, p) == '.' {
      p := p + 1;
      if !IsDigit(At(s, p)) {
        return None;
      }
      p := p + 1;
      ghost var start := p;
      while p < |s| && IsDigit(s[p])
        invariant SkipDigits(s, start) == SkipDigits(s, p)
      {
        p := p + 1;
      }
    }
    var off := ReadOffset(s, p);
    var c := Clock(Date(y.value, mo.value, d.value), h.value, mi.value, se.value);
    if off.None? || !ClockOk(c) {
      return None;
    }
    return Some(Seconds(c) + off.value);
  }

  method ReadOffset(s: string, at: nat) returns (r: Option<int>)
    ensures r == Offset(s, at)
  {
    var sign := At(s, at);
    if sign == 'Z' || sign == 'z' {
      return if at + 1 >= |s| then Some(0) else None;
    }
    if sign != '+' && sign != '-' {
      return None;
    }
    var h := ParseDigits(s, at + 1, 2);
    var m := ParseDigits(s, at + 4, 2);
    if h.None? || At(s, at + 3) != ':' || m.None? || h.value > 23 || m.value > 59 || at + 6 < |s| {
      return None;
    }
    var off: int := h.value * 3600 + m.value * 60;
    return Some(if sign == '+' then -off else off);
  }

  // ---- writing ------------------------------------------------------------------------------

  function Two(n: int): string
    requires 0 <= n < 100
  {
    [DigitChar(n / 10), DigitChar(n % 10)]
  }

  function Four(n: int): string
    requires 0 <= n < 10000
  {
    [DigitChar(n / 1000 % 10), DigitChar(n / 100 % 10), DigitChar(n / 10 % 10), DigitChar(n % 10)]
  }

  /** C remainder: the sign of the dividend. */
  function Rem(a: int, b: int): int
    requires b > 0
  {
    a - Quot(a, b) * b
  }

  /** Day number and second of the day, with the second made non-negative. */
  function SplitDay(t: int): (r: (int, int))
    ensures r.0 * 86400 + r.1 == t && 0 <= r.1 < 86400
  {
    var days, sod := Quot(t, 86400), Rem(t, 86400);
    if sod < 0 then (days - 1, sod + 86400) else (days, sod)
  }

  function ClockOf(t: int): (c: Clock)
    ensures ClockOk(c) && c.h >= 0 && c.mi >= 0 && 0 <= c.se < 60
  {
    var (days, sod) := SplitDay(t);
    DaysOfCivil(days);
    Clock(CivilFromDays(days), sod / 3600, sod / 60 % 60, sod % 60)
  }

  function Written(c: Clock): string
    requires ClockOk(c) && c.h >= 0 && c.mi >= 0 && c.se >= 0 && 0 <= c.date.y < 10000
  {
    Four(c.date.y) + "-" + Two(c.date.m) + "-" + Two(c.date.d) + "T" + Two(c.h) + ":" + Two(c.mi) + ":" + Two(c.se) + "Z"
  }

  /** astools_time_format_rfc3339: empty outside the years 0 to 9999. */
  function Format(t: int): string {
    var c := ClockOf(t);
    if c.date.y < 0 || c.date.y > 9999 then "" else Written(c)
  }

  lemma {:induction false} WrittenSize(c: Clock)
    requires ClockOk(c) && c.h >= 0 && c.mi >= 0 && c.se >= 0 && 0 <= c.date.y < 10000
    ensures |Written(c)| == 20
  {
    hide ClockOk;
  }

  method FormatTimestamp(t: int, buf: array<char>) returns (n: nat)
    requires buf.Length == 32
    modifies buf
    ensures n <= 20 && buf[..n] == Format(t) && buf[n] == NUL
  {
    hide ClockOf, Four, Two;
    var c := ClockOf(t);
    if c.date.y < 0 || c.date.y > 9999 {
      buf[0] := NUL;
      return 0;
    }
    WrittenSize(c);
    var text := Written(c);
    hide Written;
    for i := 0 to 20
      invariant forall k :: 0 <= k < i ==> buf[k] == text[k]
    {
      buf[i] := text[i];
    }
    buf[20] := NUL;
    return 20;
  }

  // ---- the round trip ----------------------------------------------------------------------------

  lemma {:induction false} DigitsTwo(s: string, at: nat, n: int)
    requires 0 <= n < 100 && at + 2 <= |s| && s[at..at + 2] == Two(n)
    ensures Digits(s, at, 2) == Some(n)
  {
    assert s[at] == s[at..at + 2][0] && s[at + 1] == s[at..at + 2][1];
    assert Digits(s, at, 1) == Some(n / 10);
  }

  lemma {:induction false} Decimal(n: int)
    requires 0 <= n < 10000
    ensures n / 1000 % 10 == n / 1000 && n / 1000 * 10 + n / 100 % 10 == n / 100
    ensures n / 100 * 10 + n / 10 % 10 == n / 10 && n / 10 * 10 + n % 10 == n
  {
  }

  lemma {:induction false} DigitsFour(s: string, n: int)
    requires 0 <= n < 10000 && 4 <= |s| && s[..4] == Four(n)
    ensures Digits(s, 0, 4) == Some(n)
  {
    var a, b, c, d := n / 1000 % 10, n / 100 % 10, n / 10 % 10, n % 10;
    assert s[0] == s[..4][0] && s[1] == s[..4][1] && s[2] == s[..4][2] && s[3] == s[..4][3];
    FourDigits(s, a, b, c, d);
    Decimal(n);
  }

  lemma {:induction false} FourDigits(s: string, a: nat, b: nat, c: nat, d: nat)
    requires a <= 9 && b <= 9 && c <= 9 && d <= 9 && |s| >= 4
    requires s[0] == DigitChar(a) && s[1] == DigitChar(b) && s[2] == DigitChar(c) && s[3] == DigitChar(d)
    ensures Digits(s, 0, 4) == Some(((a * 10 + b) * 10 + c) * 10 + d)
  {
    assert Digits(s, 0, 1) == Some(a);
    assert Digits(s, 0, 2) == Some(a * 10 + b);
    assert Digits(s, 0, 3) == Some((a * 10 + b) * 10 + c);
  }

  lemma {:induction false} WrittenReads(c: Clock)
    requires ClockOk(c) && c.h >= 0 && c.mi >= 0 && c.se >= 0 && 0 <= c.date.y < 10000
    ensures ReadClock(Written(c)) == Some(c) && |Written(c)| == 20 && Written(c)[19] == 'Z'
  {
    var s := Written(c);
    var y, m, d, h, mi, se := Four(c.date.y), Two(c.date.m), Two(c.date.d), Two(c.h), Two(c.mi), Two(c.se);
    hide Four, Two, ClockOk;
    FourSize(c.date.y);
    TwoSize(c.date.m);
    TwoSize(c.date.d);
    TwoSize(c.h);
    TwoSize(c.mi);
    TwoSize(c.se);
    assert s[..4] == y && s[5..7] == m && s[8..10] == d && s[11..13] == h && s[14..16] == mi && s[17..19] == se;
    assert s[4] == '-' && s[7] == '-' && s[10] == 'T' && s[13] == ':' && s[16] == ':' && s[19] == 'Z';
    DigitsFour(s, c.date.y);
    DigitsTwo(s, 5, c.date.m);
    DigitsTwo(s, 8, c.date.d);
    DigitsTwo(s, 11, c.h);
    DigitsTwo(s, 14, c.mi);
    DigitsTwo(s, 17, c.se);
  }

  lemma {:induction false} TwoSize(n: int)
    requires 0 <= n < 100
    ensures |Two(n)| == 2
  {
  }

  lemma {:induction false} FourSize(n: int)
    requires 0 <= n < 10000
    ensures |Four(n)| == 4
  {
  }

  /** Parsing the written form of an instant gives the instant back. */
  lemma {:induction false} InstantRoundTrip(t: int)
    requires 0 <= CivilFromDays(t / 86400).y <= 9999
    ensures Parse(Format(t)) == Some(t)
  {
    hide Digits, ReadClock, Written;
    var (days, sod) := SplitDay(t);
    assert days == t / 86400;
    var c := ClockOf(t);
    WrittenReads(c);
    DaysOfCivil(days);
    hide DaysFromCivil, CivilFromDays, ClockOk, SplitDay, Quot, Rem;
    Sexagesimal(sod);
  }

  lemma {:induction false} Sexagesimal(sod: int)
    requires 0 <= sod < 86400
    ensures sod == sod / 3600 * 3600 + sod / 60 % 60 * 60 + sod % 60
  {
  }

  /** An offset moves the instant by its hours and minutes, whatever the rest says. */
  lemma {:induction false} OffsetMoves(s: string, at: nat, h: int, m: int)
    requires Fraction(s, 19) == Some(at) && ReadClock(s).Some? && ClockOk(ReadClock(s).value)
    requires 0 <= h <= 23 && 0 <= m <= 59 && at + 6 == |s| && s[at + 3] == ':'
    requires s[at + 1..at + 3] == Two(h) && s[at + 4..at + 6] == Two(m) && (s[at] == '+' || s[at] == '-')
    ensures Parse(s) == Some(Seconds(ReadClock(s).value) + (if s[at] == '+' then -1 else 1) * (h * 3600 + m * 60))
  {
    hide ReadClock, Fraction, Seconds;
    DigitsTwo(s, at + 1, h);
    DigitsTwo(s, at + 4, m);
  }
}
