/** The log archiver's calendar: days since the Unix epoch to a proleptic Gregorian date, for every day. */
module Calendar {
  import opened Arithmetic

  datatype Date = Date(year: int, month: int, day: int)

  predicate IsLeap(y: int) {
    y % 4 == 0 && (y % 100 != 0 || y % 400 == 0)
  }

  function MonthLength(y: int, m: int): int {
    if m == 2 then (if IsLeap(y) then 29 else 28)
    else if m == 4 || m == 6 || m == 9 || m == 11 then 30
    else 31
  }

  predicate IsDate(t: Date) {
    1 <= t.month <= 12 && 1 <= t.day <= MonthLength(t.year, t.month)
  }

  function NextDay(t: Date): Date {
    if t.day < MonthLength(t.year, t.month) then t.(day := t.day + 1)
    else if t.month < 12 then Date(t.year, t.month + 1, 1)
    else Date(t.year + 1, 1, 1)
  }

  // ---------- The code's arithmetic ----------

  /** Rust's `/` on i64: toward zero. */
  function TruncDiv(a: int, b: int): int
    requires b > 0
  {
    if a >= 0 then a / b else -(-a / b)
  }

  /** The 400-year era of a day counted from 0000-03-01. */
  function Era(z: int): int {
    TruncDiv(if z >= 0 then z else z - 146096, 146097)
  }

  lemma EraIsFloor(z: int)
    ensures 0 <= z - Era(z) * 146097 <= 146096
  {
    if z < 0 {
      var n := 146096 - z;
      assert n == 146097 * (n / 146097) + n % 146097;
    }
  }

  function YearOfEra(doe: int): int {
    (doe - doe / 1460 + doe / 36524 - doe / 146096) / 365
  }

  /** Days of the era before its year `yoe`, years counted from March. */
  function YearStart(yoe: int): int {
    365 * yoe + yoe / 4 - yoe / 100
  }

  /** Days of the March year before its month `mp`. */
  function MonthStart(mp: int): int {
    (153 * mp + 2) / 5
  }

  function MonthOf(doy: int): int {
    (5 * doy + 2) / 153
  }

  /** A March-based month as a calendar month. */
  function Calendarize(mp: int): int {
    if mp < 10 then mp + 3 else mp - 9
  }

  /** `civil_from_days`. */
  function CivilFromDays(days: int): Date {
    var z := days + 719468;
    var era := Era(z);
    var doe := z - era * 146097;
    var yoe := YearOfEra(doe);
    var doy := doe - YearStart(yoe);
    var mp := MonthOf(doy);
    var d := doy - MonthStart(mp) + 1;
    var m := Calendarize(mp);
    var y := yoe + era * 400;
    Date(if m <= 2 then y + 1 else y, m, d)
  }

  /** The inverse formula. */
  function DaysFromCivil(t: Date): int {
    var y := if t.month <= 2 then t.year - 1 else t.year;
    var mp := if t.month > 2 then t.month - 3 else t.month + 9;
    y / 400 * 146097 + YearStart(y % 400) + MonthStart(mp) + t.day - 1 - 719468
  }

  /** `unix_to_ymdhms`: the day and the time of day. */
  function SplitSeconds(secs: int): (Date, int, int, int) {
    var rem := secs % 86400;
    (CivilFromDays(secs / 86400), rem / 3600, rem % 3600 / 60, rem % 60)
  }

  // ---------- Years of an era ----------

  /** Length of the March year `yoe`: it ends in the February of calendar year `yoe + 1`. */
  function YearLength(yoe: int): int {
    if IsLeap(yoe + 1) then 366 else 365
  }

  /** A day of the era as century, four-year group, year of the group and day of the year. */
  lemma SplitEra(doe: int) returns (c: int, q: int, r: int, k: int)
    requires 0 <= doe <= 146096
    ensures 0 <= c <= 3 && 0 <= q <= 24 && 0 <= r <= 3 && 0 <= k <= 365
    ensures k == 365 ==> r == 3 && (q < 24 || c == 3)
    ensures doe == 36524 * c + 1461 * q + 365 * r + k
  {
    c := if doe == 146096 then 3 else doe / 36524;
    var inCentury := doe - 36524 * c;
    q := inCentury / 1461;
    var inGroup := inCentury - 1461 * q;
    r := if inGroup == 1460 then 3 else inGroup / 365;
    k := inGroup - 365 * r;
  }

  /** The year formula undoes the split. */
  lemma YearOfSplit(c: int, q: int, r: int, k: int)
    requires 0 <= c <= 3 && 0 <= q <= 24 && 0 <= r <= 3 && 0 <= k <= 365
    requires k == 365 ==> r == 3 && (q < 24 || c == 3)
    ensures YearOfEra(36524 * c + 1461 * q + 365 * r + k) == 100 * c + 4 * q + r
  {
    var doe := 36524 * c + 1461 * q + 365 * r + k;
    var y := 100 * c + 4 * q + r;
    var a := if 24 * c + q + 365 * r + k >= 1460 then 1 else 0;
    var b := if 1461 * q + 365 * r + k >= 36524 then 1 else 0;
    var e := if doe >= 146096 then 1 else 0;
    assert doe / 1460 == 25 * c + q + a;
    assert doe / 36524 == c + b;
    assert doe / 146096 == e;
    assert doe - doe / 1460 + doe / 36524 - doe / 146096 == 365 * y + (k - a + b - e);
  }

  lemma StartOfSplit(c: int, q: int, r: int)
    requires 0 <= c <= 3 && 0 <= q <= 24 && 0 <= r <= 3
    ensures YearStart(100 * c + 4 * q + r) == 36524 * c + 1461 * q + 365 * r
  {
    var y := 100 * c + 4 * q + r;
    assert y / 4 == 25 * c + q && y / 100 == c;
  }

  /** Within the era, the last day of a year is day 365 exactly in the years of 366 days. */
  lemma LongYearIff(c: int, q: int, r: int)
    requires 0 <= c <= 3 && 0 <= q <= 24 && 0 <= r <= 3
    ensures YearLength(100 * c + 4 * q + r) == 366 <==> r == 3 && (q < 24 || c == 3)
  {
    var y := 100 * c + 4 * q + r + 1;
    assert y % 4 == 0 <==> r == 3;
    assert r == 3 ==> (y % 100 == 0 <==> q == 24);
    assert r == 3 && q == 24 ==> (y % 400 == 0 <==> c == 3);
  }

  /** The year formula finds the year whose days contain `doe`. */
  lemma YearContains(doe: int)
    requires 0 <= doe <= 146096
    ensures 0 <= YearOfEra(doe) < 400
    ensures 0 <= doe - YearStart(YearOfEra(doe)) < YearLength(YearOfEra(doe))
  {
    hide YearOfEra, YearStart, YearLength;
    var c, q, r, k := SplitEra(doe);
    YearOfSplit(c, q, r, k);
    StartOfSplit(c, q, r);
    LongYearIff(c, q, r);
    LengthIs(100 * c + 4 * q + r);
  }

  lemma LengthIs(yoe: int)
    ensures YearLength(yoe) == 365 || YearLength(yoe) == 366
  {
  }

  /** And it is the only such year. */
  lemma YearIsUnique(yoe: int, doy: int)
    requires 0 <= yoe < 400 && 0 <= doy < YearLength(yoe)
    ensures 0 <= YearStart(yoe) + doy <= 146096
    ensures YearOfEra(YearStart(yoe) + doy) == yoe
  {
    hide YearOfEra, YearStart, YearLength;
    var c, q, r := yoe / 100, yoe % 100 / 4, yoe % 4;
    assert yoe % 100 == yoe - 100 * c && yoe == 100 * c + 4 * q + r;
    LongYearIff(c, q, r);
    LengthIs(yoe);
    YearOfSplit(c, q, r, doy);
    StartOfSplit(c, q, r);
  }

  // ---------- Months of a year ----------

  /** Month lengths from the start table, February last with whatever the year has left. */
  lemma MonthContains(doy: int)
    requires 0 <= doy < 366
    ensures 0 <= MonthOf(doy) <= 11
    ensures MonthStart(MonthOf(doy)) <= doy < if MonthOf(doy) == 11 then 366 else MonthStart(MonthOf(doy) + 1)
  {
  }

  lemma MonthIsUnique(mp: int, doy: int)
    requires 0 <= mp <= 11 && MonthStart(mp) <= doy < if mp == 11 then 366 else MonthStart(mp + 1)
    ensures MonthOf(doy) == mp && 0 <= doy < 366
  {
  }

  /** The table of month starts is the calendar's, February last. */
  lemma TableIsCalendar(y: int, mp: int)
    requires 0 <= mp <= 11
    ensures 1 <= Calendarize(mp) <= 12
    ensures mp < 11 ==> MonthStart(mp + 1) - MonthStart(mp) == MonthLength(y, Calendarize(mp))
    ensures mp == 11 ==> MonthStart(mp) == 337 && Calendarize(mp) == 2
  {
  }

  // ---------- Every day ----------

  lemma EraIs(z: int, e: int)
    requires 0 <= z - e * 146097 <= 146096
    ensures Era(z) == e
  {
    EraIsFloor(z);
  }

  lemma LeapWithinEra(y: int)
    ensures IsLeap(y) == IsLeap(y % 400)
  {
    var q, r := y / 400, y % 400;
    QuotientIs(y, 100, 4 * q + r / 100);
    QuotientIs(y, 4, 100 * q + r / 4);
    assert r % 400 == r;
  }

  /** The calendar repeats every 400 years. */
  lemma LeapPeriod(y: int, e: int)
    ensures IsLeap(y + 400 * e) == IsLeap(y)
  {
    assert (y + 400 * e) % 400 == y % 400;
    hide IsLeap;
    LeapWithinEra(y);
    LeapWithinEra(y + 400 * e);
  }

  /** A date as era, year of the era and day of the year. */
  function Position(t: Date): (int, int, int) {
    var y := if t.month <= 2 then t.year - 1 else t.year;
    var mp := if t.month > 2 then t.month - 3 else t.month + 9;
    (y / 400, y % 400, MonthStart(mp) + t.day - 1)
  }

  function DateAt(era: int, yoe: int, doy: int): Date {
    var mp := MonthOf(doy);
    var m := Calendarize(mp);
    Date(if m <= 2 then yoe + era * 400 + 1 else yoe + era * 400, m, doy - MonthStart(mp) + 1)
  }

  /** Positions with a day inside its year are exactly the valid dates. */
  lemma DateAtIsDate(era: int, yoe: int, doy: int)
    requires 0 <= yoe < 400 && 0 <= doy < YearLength(yoe)
    ensures IsDate(DateAt(era, yoe, doy)) && Position(DateAt(era, yoe, doy)) == (era, yoe, doy)
  {
    LengthIs(yoe);
    MonthContains(doy);
    var mp, y := MonthOf(doy), yoe + era * 400;
    assert y / 400 == era && y % 400 == yoe;
    LeapPeriod(yoe + 1, era);
    TableIsCalendar(if Calendarize(mp) <= 2 then y + 1 else y, mp);
    hide IsLeap, MonthStart, MonthOf;
  }

  lemma PositionIsInside(t: Date)
    requires IsDate(t)
    ensures var (era, yoe, doy) := Position(t);
            0 <= yoe < 400 && 0 <= doy < YearLength(yoe) && DateAt(era, yoe, doy) == t
  {
    var (era, yoe, doy) := Position(t);
    var mp := if t.month > 2 then t.month - 3 else t.month + 9;
    var y := if t.month <= 2 then t.year - 1 else t.year;
    assert y == yoe + era * 400;
    LeapPeriod(yoe + 1, era);
    TableIsCalendar(t.year, mp);
    LengthIs(yoe);
    StartsInside(mp);
    hide IsLeap;
    MonthIsUnique(mp, doy);
  }

  lemma StartsInside(mp: int)
    requires 0 <= mp <= 11
    ensures 0 <= MonthStart(mp) <= 337 && (mp < 11 ==> MonthStart(mp + 1) <= 337)
  {
  }

  lemma CivilIsDateAt(days: int)
    ensures var z := days + 719468;
            var doe := z - Era(z) * 146097;
            CivilFromDays(days) == DateAt(Era(z), YearOfEra(doe), doe - YearStart(YearOfEra(doe)))
  {
    hide Era, YearOfEra, YearStart, MonthStart, MonthOf;
  }

  /** The result is a valid date, and the inverse formula returns the day. */
  lemma CivilIsDate(days: int)
    ensures IsDate(CivilFromDays(days)) && DaysFromCivil(CivilFromDays(days)) == days
  {
    hide *;
    var z := days + 719468;
    EraIsFloor(z);
    var doe := z - Era(z) * 146097;
    YearContains(doe);
    CivilIsDateAt(days);
    DateAtIsDate(Era(z), YearOfEra(doe), doe - YearStart(YearOfEra(doe)));
    ByPosition(CivilFromDays(days));
  }

  lemma ByPosition(t: Date)
    ensures var (era, yoe, doy) := Position(t);
            DaysFromCivil(t) == era * 146097 + YearStart(yoe) + doy - 719468
  {
  }

  /** Every valid date is the date of its day. */
  lemma CivilOfDays(t: Date)
    requires IsDate(t)
    ensures CivilFromDays(DaysFromCivil(t)) == t
  {
    hide *;
    PositionIsInside(t);
    ByPosition(t);
    var (era, yoe, doy) := Position(t);
    YearIsUnique(yoe, doy);
    EraIs(DaysFromCivil(t) + 719468, era);
    CivilIsDateAt(DaysFromCivil(t));
  }

  /** The calendar successor is one day later. */
  lemma NextDayIsLater(t: Date)
    requires IsDate(t)
    ensures IsDate(NextDay(t)) && DaysFromCivil(NextDay(t)) == DaysFromCivil(t) + 1
  {
    hide IsLeap, YearStart;
    var mp := if t.month > 2 then t.month - 3 else t.month + 9;
    TableIsCalendar(t.year, mp);
    if t.day == MonthLength(t.year, t.month) && t.month == 2 {
      MarchFollows(t.year - 1);
    }
  }

  /** March 1 comes a year's length after the March 1 before it, across eras too. */
  lemma MarchFollows(y: int)
    ensures (y + 1) / 400 * 146097 + YearStart((y + 1) % 400)
            == y / 400 * 146097 + YearStart(y % 400) + if IsLeap(y + 1) then 366 else 365
  {
    var e, yoe := y / 400, y % 400;
    assert y == 400 * e + yoe;
    LeapPeriod(yoe + 1, e);
    if yoe == 399 {
      assert (y + 1) / 400 == e + 1 && (y + 1) % 400 == 0;
    } else {
      assert (y + 1) / 400 == e && (y + 1) % 400 == yoe + 1;
      YearStep(yoe);
    }
  }

  lemma YearStep(yoe: int)
    requires 0 <= yoe < 399
    ensures YearStart(yoe + 1) == YearStart(yoe) + if IsLeap(yoe + 1) then 366 else 365
  {
    var y := yoe + 1;
    assert y / 4 == yoe / 4 + if y % 4 == 0 then 1 else 0;
    assert y / 100 == yoe / 100 + if y % 100 == 0 then 1 else 0;
    assert y % 100 == 0 ==> y % 4 == 0;
  }

  /** Day by day the dates follow the calendar, before and after the epoch alike. */
  lemma TomorrowIsNextDay(days: int)
    ensures CivilFromDays(days + 1) == NextDay(CivilFromDays(days))
  {
    hide CivilFromDays, DaysFromCivil, IsDate, NextDay;
    var t := CivilFromDays(days);
    CivilIsDate(days);
    NextDayIsLater(t);
    CivilOfDays(NextDay(t));
  }

  /** Day 0 is the Unix epoch, day -1 the last of 1969. */
  lemma EpochDay()
    ensures CivilFromDays(0) == Date(1970, 1, 1) && CivilFromDays(-1) == Date(1969, 12, 31)
  {
    assert DaysFromCivil(Date(1970, 1, 1)) == 0 && DaysFromCivil(Date(1969, 12, 31)) == -1;
    hide CivilFromDays, DaysFromCivil;
    CivilOfDays(Date(1970, 1, 1));
    CivilOfDays(Date(1969, 12, 31));
  }

  /** Within 780 billion days of the epoch the year fits an i32. */
  lemma YearFits(days: int)
    requires -780_000_000_000 <= days <= 780_000_000_000
    ensures -0x8000_0000 <= CivilFromDays(days).year < 0x8000_0000
  {
    var z := days + 719468;
    EraIsFloor(z);
    var doe := z - Era(z) * 146097;
    YearContains(doe);
    hide Era, YearOfEra, YearLength, YearStart, MonthOf, MonthStart;
  }

  /** The time of day is in range and, with the day, gives back the second. */
  lemma SecondsRoundTrip(secs: int)
    ensures var (t, h, mi, s) := SplitSeconds(secs);
            && 0 <= h < 24 && 0 <= mi < 60 && 0 <= s < 60 && IsDate(t)
            && DaysFromCivil(t) * 86400 + h * 3600 + mi * 60 + s == secs
  {
    hide CivilFromDays, DaysFromCivil, IsDate;
    CivilIsDate(secs / 86400);
    ClockRoundTrip(secs % 86400);
    assert secs == secs / 86400 * 86400 + secs % 86400;
  }

  lemma ClockRoundTrip(rem: nat)
    requires rem < 86400
    ensures rem / 3600 < 24 && rem / 3600 * 3600 + rem % 3600 / 60 * 60 + rem % 60 == rem
  {
    var h, r := rem / 3600, rem % 3600;
    assert rem == 3600 * h + r;
    assert r == 60 * (r / 60) + r % 60;
    assert rem == 60 * (60 * h + r / 60) + r % 60;
  }
}
