/** Which texts are timestamps, and of which instant: section 5.6 of RFC 3339, on characters
    alone (src/time.c). */
module TimestampText {
  import opened Text
  import opened Calendar
  import opened Timestamps

  /** n digits at a place. */
  predicate NumberAt(s: string, at: nat, n: nat) { at + n <= |s| && AllDigits(s[at..at + n]) }

  function ValueAt(s: string, at: nat, n: nat): nat { if NumberAt(s, at, n) then Value(s[at..at + n]) else 0 }

  predicate MarkAt(s: string, at: nat, marks: string) { at < |s| && s[at] in marks }

  /** "YYYY-MM-DDThh:mm:ss" in front. */
  predicate DateTimeText(s: string) {
    && NumberAt(s, 0, 4) && MarkAt(s, 4, "-") && NumberAt(s, 5, 2) && MarkAt(s, 7, "-") && NumberAt(s, 8, 2) && MarkAt(s, 10, "Tt")
    && NumberAt(s, 11, 2) && MarkAt(s, 13, ":") && NumberAt(s, 14, 2) && MarkAt(s, 16, ":") && NumberAt(s, 17, 2)
  }

  /** Nothing, or a point and digits, up to place k; what follows is no digit. */
  predicate FractionText(s: string, k: nat) {
    k == 19 || (20 < k <= |s| && s[19] == '.' && AllDigits(s[20..k]))
  }

  /** A letter for UTC, or a signed offset of hours and minutes, and then the end. */
  predicate ZoneText(s: string, k: nat) {
    || (MarkAt(s, k, "Zz") && |s| == k + 1)
    || (MarkAt(s, k, "+-") && NumberAt(s, k + 1, 2) && MarkAt(s, k + 3, ":") && NumberAt(s, k + 4, 2) && |s| == k + 6
        && ValueAt(s, k + 1, 2) <= 23 && ValueAt(s, k + 4, 2) <= 59)
  }

  /** Seconds that local time is ahead of UTC. */
  function Ahead(s: string, k: nat): int {
    if MarkAt(s, k, "+") then ValueAt(s, k + 1, 2) * 3600 + ValueAt(s, k + 4, 2) * 60
    else if MarkAt(s, k, "-") then -(ValueAt(s, k + 1, 2) * 3600 + ValueAt(s, k + 4, 2) * 60)
    else 0
  }

  /** A day of the calendar and a time of the day, a leap second included. */
  predicate RangesOk(s: string) {
    && Valid(Date(ValueAt(s, 0, 4), ValueAt(s, 5, 2), ValueAt(s, 8, 2)))
    && ValueAt(s, 11, 2) < 24 && ValueAt(s, 14, 2) < 60 && ValueAt(s, 17, 2) <= 60
  }

  function Local(s: string): int {
    86400 * DaysFromCivil(ValueAt(s, 0, 4), ValueAt(s, 5, 2), ValueAt(s, 8, 2))
    + 3600 * ValueAt(s, 11, 2) + 60 * ValueAt(s, 14, 2) + ValueAt(s, 17, 2)
  }

  ghost predicate Stamp(s: string, t: int) {
    DateTimeText(s) && RangesOk(s) && exists k: nat :: FractionText(s, k) && ZoneText(s, k) && t == Local(s) - Ahead(s, k)
  }

  // ---- digits ---------------------------------------------------------------------------------

  lemma {:induction false} DigitsAre(s: string, at: nat, n: nat)
    requires n > 0
    ensures Digits(s, at, n) == if NumberAt(s, at, n) then Some(ValueAt(s, at, n)) else None
  {
    if n > 1 {
      DigitsAre(s, at, n - 1);
    }
    if at + n <= |s| {
      DigitsSnoc(s, at, n);
      assert n == 1 ==> s[at..at] == "";
    }
  }

  lemma {:induction false} DigitsSnoc(s: string, at: nat, n: nat)
    requires n > 0 && at + n <= |s|
    ensures var x, y := s[at..at + n], s[at..at + n - 1];
            && (AllDigits(x) <==> AllDigits(y) && IsDigit(s[at + n - 1]))
            && (AllDigits(x) ==> Value(x) == 10 * Value(y) + DigitValue(s[at + n - 1]))
  {
    var x, y := s[at..at + n], s[at..at + n - 1];
    assert x[..n - 1] == y && x[n - 1] == s[at + n - 1] && x == y + [s[at + n - 1]];
  }

  // ---- the parts ---------------------------------------------------------------------------------

  lemma {:induction false} ClockExactly(s: string)
    ensures ReadClock(s) == if DateTimeText(s) then
                              Some(Clock(Date(ValueAt(s, 0, 4), ValueAt(s, 5, 2), ValueAt(s, 8, 2)),
                                         ValueAt(s, 11, 2), ValueAt(s, 14, 2), ValueAt(s, 17, 2)))
                            else None
  {
    DigitsAre(s, 0, 4);
    DigitsAre(s, 5, 2);
    DigitsAre(s, 8, 2);
    DigitsAre(s, 11, 2);
    DigitsAre(s, 14, 2);
    DigitsAre(s, 17, 2);
    hide Digits, NumberAt, ValueAt;
  }

  lemma {:induction false} DigitsSkipped(s: string, at: nat)
    requires at <= |s|
    ensures var r := SkipDigits(s, at); at <= r <= |s| && AllDigits(s[at..r]) && (r < |s| ==> !IsDigit(s[r]))
    decreases |s| - at
  {
    if at < |s| && IsDigit(s[at]) {
      DigitsSkipped(s, at + 1);
      var r := SkipDigits(s, at);
      assert s[at..r] == [s[at]] + s[at + 1..r];
    }
  }

  lemma {:induction false} SkippedTo(s: string, at: nat, r: nat)
    requires at <= r <= |s| && AllDigits(s[at..r]) && (r < |s| ==> !IsDigit(s[r]))
    ensures SkipDigits(s, at) == r
    decreases r - at
  {
    if at < r {
      assert s[at..r][0] == s[at] && s[at..r][1..] == s[at + 1..r];
      SkippedTo(s, at + 1, r);
    }
  }

  lemma {:induction false} ZoneStarts(s: string, k: nat)
    requires ZoneText(s, k)
    ensures k < |s| && !IsDigit(s[k]) && s[k] != '.'
  {
    hide NumberAt, ValueAt;
  }

  lemma {:induction false} FractionFound(s: string, k: nat)
    requires |s| >= 19 && Fraction(s, 19) == Some(k)
    ensures FractionText(s, k)
  {
    if At(s, 19) == '.' {
      DigitsSkipped(s, 21);
      assert s[20..k] == [s[20]] + s[21..k];
    }
  }

  lemma {:induction false} FractionRead(s: string, k: nat)
    requires FractionText(s, k) && ZoneText(s, k)
    ensures Fraction(s, 19) == Some(k)
  {
    ZoneStarts(s, k);
    hide ZoneText;
    if k != 19 {
      assert s[20..k][0] == s[20] && s[20..k][1..] == s[21..k];
      SkippedTo(s, 21, k);
    }
  }

  lemma {:induction false} OffsetExactly(s: string, k: nat)
    ensures Offset(s, k) == if ZoneText(s, k) then Some(-Ahead(s, k)) else None
  {
    DigitsAre(s, k + 1, 2);
    DigitsAre(s, k + 4, 2);
    NumberWithin(s, k + 4, 2);
    hide Digits, ValueAt, NumberAt;
  }

  lemma {:induction false} NumberWithin(s: string, at: nat, n: nat)
    ensures NumberAt(s, at, n) ==> at + n <= |s|
  {
  }

  // ---- the law -------------------------------------------------------------------------------------------

  lemma {:induction false} ParseParts(s: string)
    requires DateTimeText(s)
    ensures |s| >= 19 && Parse(s) == match Fraction(s, 19)
                                     case None => None
                                     case Some(k) => if ZoneText(s, k) && RangesOk(s) then Some(Local(s) - Ahead(s, k)) else None
  {
    ClockExactly(s);
    NumberWithin(s, 17, 2);
    hide ReadClock, Digits, NumberAt, ValueAt, MarkAt, Offset, Fraction, ZoneText, Ahead, DaysFromCivil, Valid, DateTimeText;
    if Fraction(s, 19).Some? {
      OffsetExactly(s, Fraction(s, 19).value);
    }
  }

  /** A text is read as an instant exactly when it is a timestamp of that instant. */
  lemma {:induction false} ParseExactly(s: string, t: int)
    ensures Parse(s) == Some(t) <==> Stamp(s, t)
  {
    ClockExactly(s);
    hide ReadClock, Digits, DateTimeText, Fraction, FractionText, ZoneText, Ahead, Local, RangesOk;
    if DateTimeText(s) {
      ParseParts(s);
      hide Parse;
      if Fraction(s, 19).Some? {
        FractionFound(s, Fraction(s, 19).value);
      }
      if k: nat :| FractionText(s, k) && ZoneText(s, k) && t == Local(s) - Ahead(s, k) {
        FractionRead(s, k);
      }
    }
  }
}
