/** The civil calendar and RFC 3339 timestamps (src/time.c). Section 5.6 of RFC 3339. */
module Calendar {
  // ---- day numbers ------------------------------------------------------------------------

  /** C division: towards zero. */
  function Quot(a: int, b: int): int
    requires b > 0
  {
    if a >= 0 then a / b else -((-a) / b)
  }

  datatype Date = Date(y: int, m: int, d: int)

  predicate IsLeap(y: int) { (y % 4 == 0 && y % 100 != 0) || y % 400 == 0 }

  function DaysInMonth(y: int, m: int): int
    requires 1 <= m <= 12
  {
    if m == 2 then if IsLeap(y) then 29 else 28
    else if m == 4 || m == 6 || m == 9 || m == 11 then 30
    else 31
  }

  predicate Valid(date: Date) { 1 <= date.m <= 12 && 1 <= date.d <= DaysInMonth(date.y, date.m) }

  /** Months counted from March. */
  function MarchMonth(m: int): int { if m > 2 then m - 3 else m + 9 }

  /** Days before a month of a year that starts in March. */
  function MonthStart(mp: int): int { (153 * mp + 2) / 5 }

  /** Days before a year of an era of 400 years. */
  function YearStart(yoe: int): int { yoe * 365 + yoe / 4 - yoe / 100 }

  /** days_from_civil */
  function DaysFromCivil(y: int, m: int, d: int): int {
    var y' := if m <= 2 then y - 1 else y;
    var era := Quot(if y' >= 0 then y' else y' - 399, 400);
    var yoe := y' - era * 400;
    era * 146097 + YearStart(yoe) + MonthStart(MarchMonth(m)) + d - 1 - 719468
  }

  /** Year of the era that a day of the era falls in. */
  function YearOfEra(doe: int): int { (doe - doe / 1460 + doe / 36524 - doe / 146096) / 365 }

  /** civil_from_days */
  function CivilFromDays(days: int): Date {
    var z := days + 719468;
    var era := Quot(if z >= 0 then z else z - 146096, 146097);
    var doe := z - era * 146097;
    var yoe := YearOfEra(doe);
    var doy := doe - YearStart(yoe);
    var mp := (5 * doy + 2) / 153;
    var m := if mp < 10 then mp + 3 else mp - 9;
    Date(yoe + era * 400 + (if m <= 2 then 1 else 0), m, doy - MonthStart(mp) + 1)
  }

  /** The day after, by the calendar alone. */
  function Tomorrow(date: Date): Date
    requires Valid(date)
  {
    if date.d < DaysInMonth(date.y, date.m) then date.(d := date.d + 1)
    else if date.m < 12 then Date(date.y, date.m + 1, 1)
    else Date(date.y + 1, 1, 1)
  }

  // ---- the two conversions are inverse --------------------------------------------------------

  /** Both eras divide towards minus infinity. */
  lemma {:induction false} EraFloors(y: int, z: int)
    ensures Quot(if y >= 0 then y else y - 399, 400) == y / 400
    ensures Quot(if z >= 0 then z else z - 146096, 146097) == z / 146097
  {
  }

  /** Does the March-based year end with a 29 February? */
  predicate LongYear(yoe: int) { IsLeap(yoe + 1) }

  /** A year of an era by its century and its place in it. */
  lemma {:induction false} YearParts(yoe: int)
    requires 0 <= yoe < 400
    ensures var c, n := yoe / 100, yoe % 100;
            && 0 <= c < 4 && yoe == 100 * c + n
            && YearStart(yoe) == 36524 * c + 365 * n + n / 4
            && (LongYear(yoe) <==> (n % 4 == 3 && n != 99) || yoe == 399)
  {
  }

  lemma {:induction false} YearLength(yoe: int)
    requires 0 <= yoe < 400
    ensures YearStart(yoe + 1) + (if yoe == 399 then 1 else 0) - YearStart(yoe) == if LongYear(yoe) then 366 else 365
  {
    hide YearStart, LongYear;
    YearParts(yoe);
    if yoe < 399 {
      YearParts(yoe + 1);
      var c, n := yoe / 100, yoe % 100;
      if n == 99 {
        assert (yoe + 1) / 100 == c + 1 && (yoe + 1) % 100 == 0;
      } else {
        assert (yoe + 1) / 100 == c && (yoe + 1) % 100 == n + 1;
      }
    } else {
      LastYear();
    }
  }

  lemma {:induction false} LastYear()
    ensures YearStart(400) + 1 - YearStart(399) == 366 && LongYear(399)
  {
  }

  /** The correction terms count the leap days before a day of the era. */
  lemma {:induction false} Corrections(c: int, n: int, doy: int)
    requires 0 <= c < 4 && 0 <= n < 100
    requires 0 <= doy < if (n % 4 == 3 && n != 99) || (c == 3 && n == 99) then 366 else 365
    ensures var doe := 36524 * c + 365 * n + n / 4 + doy;
            && 0 <= doe < 146097
            && 0 <= doe - doe / 1460 + doe / 36524 - doe / 146096 - 365 * (100 * c + n) < 365
  {
    var q, r := n / 4, n % 4;
    var doe, t := 36524 * c + 365 * n + q + doy, 24 * c + q + 365 * r + doy;
    assert doe == 1460 * (25 * c + q) + t && 0 <= t < 2920;
    FourYears(25 * c + q, t);
    Centuries(c, 365 * n + q + doy);
    assert t / 1460 == if t < 1460 then 0 else 1;
  }

  lemma {:induction false} FourYears(k: int, t: int)
    requires 0 <= t
    ensures (1460 * k + t) / 1460 == k + t / 1460
  {
  }

  /** Century leap days, but for the last day of the era. */
  lemma {:induction false} Centuries(c: int, w: int)
    requires 0 <= c < 4 && 0 <= w <= 36524 && (w == 36524 ==> c == 3)
    ensures (36524 * c + w) / 36524 - (36524 * c + w) / 146096 == c
  {
  }

  lemma {:induction false} YearOfEraIs(yoe: int, doy: int)
    requires 0 <= yoe < 400 && 0 <= doy < if LongYear(yoe) then 366 else 365
    ensures YearOfEra(YearStart(yoe) + doy) == yoe
    ensures 0 <= YearStart(yoe) + doy < 146097
  {
    YearParts(yoe);
    Corrections(yoe / 100, yoe % 100, doy);
  }

  /** Every day of an era belongs to one of its years. */
  lemma {:induction false} YearSplit(doe: int)
    requires 0 <= doe < 146097
    ensures var yoe := YearOfEra(doe);
            0 <= yoe < 400 && 0 <= doe - YearStart(yoe) < if LongYear(yoe) then 366 else 365
  {
    var yoe := FindYear(doe, 399);
    YearOfEraIs(yoe, doe - YearStart(yoe));
  }

  /** The last year up to n that starts no later than a day. */
  lemma {:induction false} FindYear(doe: int, n: nat) returns (yoe: nat)
    requires n < 400 && 0 <= doe < if n == 399 then 146097 else YearStart(n + 1)
    ensures yoe <= n && 0 <= doe - YearStart(yoe) < if LongYear(yoe) then 366 else 365
  {
    YearLength(n);
    if doe >= YearStart(n) {
      yoe := n;
    } else {
      yoe := FindYear(doe, n - 1);
    }
  }

  lemma {:induction false} MonthIs(mp: int, d: int)
    requires 0 <= mp < 12 && 1 <= d <= MonthStart(mp + 1) - MonthStart(mp)
    ensures (5 * (MonthStart(mp) + d - 1) + 2) / 153 == mp
  {
  }

  lemma {:induction false} MonthSplit(doy: int)
    requires 0 <= doy < 366
    ensures var mp := (5 * doy + 2) / 153;
            0 <= mp < 12 && 1 <= doy - MonthStart(mp) + 1 <= MonthStart(mp + 1) - MonthStart(mp)
  {
  }

  /** Lengths of the months, counted from March; the last one is February. */
  lemma {:induction false} MonthLength(y: int, m: int)
    requires 1 <= m <= 12
    ensures var mp := MarchMonth(m);
            && 0 <= mp < 12
            && DaysInMonth(y, m) <= MonthStart(mp + 1) - MonthStart(mp)
            && (m != 2 ==> DaysInMonth(y, m) == MonthStart(mp + 1) - MonthStart(mp))
            && (m == 2 ==> MonthStart(mp) + DaysInMonth(y, m) == if IsLeap(y) then 366 else 365)
            && (m != 2 ==> MonthStart(mp + 1) <= 337)
  {
  }

  lemma {:induction false} LeapPeriod(y: int, era: int)
    ensures IsLeap(y + era * 400) == IsLeap(y)
  {
    var z := y + era * 400;
    assert z % 400 == y % 400;
    ByHundreds(z);
    ByHundreds(y);
  }

  /** Leap years are decided by the place in the cycle of 400 years. */
  lemma {:induction false} ByHundreds(y: int)
    ensures y % 4 == y % 400 % 4 && y % 100 == y % 400 % 100
  {
    var q, r := y / 400, y % 400;
    assert y / 4 == 100 * q + r / 4;
    assert y / 100 == 4 * q + r / 100;
  }

  /** The March-based year and day of the year of a date. */
  lemma {:induction false} DateSplit(date: Date)
    requires Valid(date)
    ensures var y' := if date.m <= 2 then date.y - 1 else date.y;
            var yoe := y' % 400;
            var doy := MonthStart(MarchMonth(date.m)) + date.d - 1;
            && 0 <= doy < (if LongYear(yoe) then 366 else 365)
            && DaysFromCivil(date.y, date.m, date.d) == y' / 400 * 146097 + (YearStart(yoe) + doy) - 719468
  {
    var y' := if date.m <= 2 then date.y - 1 else date.y;
    EraFloors(y', 0);
    MonthLength(date.y, date.m);
    if date.m == 2 {
      LeapPeriod(y' % 400 + 1, y' / 400);
    }
  }

  /** A date is the date of its day number. */
  lemma {:induction false} CivilOfDays(date: Date)
    requires Valid(date)
    ensures CivilFromDays(DaysFromCivil(date.y, date.m, date.d)) == date
  {
    hide YearOfEra, YearStart, IsLeap;
    var y' := if date.m <= 2 then date.y - 1 else date.y;
    var yoe, mp := y' % 400, MarchMonth(date.m);
    var doy := MonthStart(mp) + date.d - 1;
    var z := DaysFromCivil(date.y, date.m, date.d) + 719468;
    DateSplit(date);
    YearOfEraIs(yoe, doy);
    EraFloors(0, z);
    assert z / 146097 == y' / 400;
    MonthLength(date.y, date.m);
    MonthIs(mp, date.d);
  }

  /** A day number is the number of its date, and that date exists. */
  lemma {:induction false} DaysOfCivil(days: int)
    ensures var date := CivilFromDays(days); Valid(date) && DaysFromCivil(date.y, date.m, date.d) == days
  {
    hide YearOfEra, YearStart, IsLeap;
    var z, date := days + 719468, CivilFromDays(days);
    EraFloors(0, z);
    var era, doe := z / 146097, z % 146097;
    YearSplit(doe);
    var yoe := YearOfEra(doe);
    var doy := doe - YearStart(yoe);
    MonthSplit(doy);
    var mp := (5 * doy + 2) / 153;
    assert MarchMonth(date.m) == mp;
    MonthLength(date.y, date.m);
    if date.m == 2 {
      LeapPeriod(yoe + 1, era);
    }
    assert Valid(date);
    var y' := if date.m <= 2 then date.y - 1 else date.y;
    assert y' == yoe + era * 400;
    EraFloors(y', 0);
    assert y' / 400 == era && y' % 400 == yoe;
  }

  lemma {:induction false} Epoch()
    ensures DaysFromCivil(1970, 1, 1) == 0
  {
  }

  /** Day numbers count calendar days from 1970-01-01. */
  lemma {:induction false} DaysCount(date: Date)
    requires Valid(date)
    ensures DaysFromCivil(1970, 1, 1) == 0
    ensures var next := Tomorrow(date);
            Valid(next) && DaysFromCivil(next.y, next.m, next.d) == DaysFromCivil(date.y, date.m, date.d) + 1
  {
    Epoch();
    TomorrowValid(date);
    if date.d == DaysInMonth(date.y, date.m) {
      MonthEnds(date.y, date.m);
    } else {
      NextDay(date);
    }
  }

  lemma {:induction false} TomorrowValid(date: Date)
    requires Valid(date)
    ensures Valid(Tomorrow(date))
  {
    hide IsLeap;
  }

  lemma {:induction false} NextDay(date: Date)
    ensures DaysFromCivil(date.y, date.m, date.d + 1) == DaysFromCivil(date.y, date.m, date.d) + 1
  {
    hide Quot, YearStart, MonthStart, MarchMonth;
  }

  /** Where the month after a month starts. */
  lemma {:induction false} MonthEnds(y: int, m: int)
    requires 1 <= m <= 12
    ensures var next := if m < 12 then Date(y, m + 1, 1) else Date(y + 1, 1, 1);
            DaysFromCivil(next.y, next.m, 1) == DaysFromCivil(y, m, DaysInMonth(y, m)) + 1
  {
    var last := Date(y, m, DaysInMonth(y, m));
    var next := if m < 12 then Date(y, m + 1, 1) else Date(y + 1, 1, 1);
    DateSplit(last);
    DateSplit(next);
    MonthLength(y, m);
    hide DaysFromCivil, YearStart, LongYear, IsLeap, MonthStart, DaysInMonth;
    if m == 2 {
      MarchFirst(y);
      FebruaryEnds(y);
    }
  }

  lemma {:induction false} FebruaryEnds(y: int)
    ensures LongYear((y - 1) % 400) <==> IsLeap(y)
  {
    LeapPeriod((y - 1) % 400 + 1, (y - 1) / 400);
  }

  /** The year that starts in March follows the one that ends in February. */
  lemma {:induction false} MarchFirst(y: int)
    ensures y / 400 * 146097 + YearStart(y % 400)
         == (y - 1) / 400 * 146097 + YearStart((y - 1) % 400) + if LongYear((y - 1) % 400) then 366 else 365
  {
    var p := (y - 1) % 400;
    YearLength(p);
    if p == 399 {
      assert y % 400 == 0 && y / 400 == (y - 1) / 400 + 1;
      assert YearStart(400) == 146096 && YearStart(0) == 0;
    } else {
      assert y % 400 == p + 1 && y / 400 == (y - 1) / 400;
    }
  }
}
