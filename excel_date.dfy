/**
 * convertExcelDate: a numeric spreadsheet date (days since 1899-12-30, so that serial 25569
 * is 1970-01-01) becomes new Date((serial - 25569) * 86400000).toISOString().split('T')[0],
 * the ISO 8601 calendar date YYYY-MM-DD in UTC. The calendar is the proleptic Gregorian one
 * ECMAScript uses (section 21.4.1 of ECMA-262: DayFromYear, InLeapYear, MonthFromTime,
 * DateFromTime); years outside 0..9999 are written in the expanded form +YYYYYY / -YYYYYY,
 * and a time value beyond 8.64e15 ms makes toISOString throw a RangeError.
 */
module ExcelDate {
  import opened Wrappers
  import opened Text
  import opened Model

  /** The serial number of 1970-01-01. */
  const EXCEL_UNIX_EPOCH: int := 25569
  const MS_PER_DAY: int := 86_400_000
  /** TimeClip's bound on time values, 8.64e15 ms. */
  const MAX_TIME_VALUE: int := 8_640_000_000_000_000

  predicate IsLeapYear(y: int) {
    y % 4 == 0 && (y % 100 != 0 || y % 400 == 0)
  }

  function DaysInYear(y: int): (n: int)
    ensures n == 365 || n == 366
  {
    if IsLeapYear(y) then 366 else 365
  }

  /**
   * The day number of the first day of year `y` (day 0 is 1970-01-01), counted year by year
   * from 1970.
   */
  function DayFromYear(y: int): int
    decreases if y >= 1970 then y - 1970 else 1970 - y
  {
    if y == 1970 then 0
    else if y > 1970 then DayFromYear(y - 1) + DaysInYear(y - 1)
    else DayFromYear(y + 1) - DaysInYear(y)
  }

  lemma DayFromYearStep(y: int)
    ensures DayFromYear(y + 1) == DayFromYear(y) + DaysInYear(y)
  {
  }

  /** ECMAScript's closed form of DayFromYear, with floor division. */
  function DayFromYearFormula(y: int): int {
    365 * (y - 1970) + (y - 1969) / 4 - (y - 1901) / 100 + (y - 1601) / 400
  }

  /** The year-by-year count agrees with ECMAScript's closed form. */
  lemma {:induction false} DayFromYearIsFormula(y: int)
    ensures DayFromYear(y) == DayFromYearFormula(y)
    decreases if y >= 1970 then y - 1970 else 1970 - y
  {
    if y > 1970 {
      DayFromYearIsFormula(y - 1);
      FormulaStep(y - 1);
    } else if y < 1970 {
      DayFromYearIsFormula(y + 1);
      FormulaStep(y);
    }
  }

  lemma {:induction false} FormulaStep(y: int)
    ensures DayFromYearFormula(y + 1) == DayFromYearFormula(y) + DaysInYear(y)
  {
    FloorStep4(y);
    FloorStep100(y);
    FloorStep400(y);
    LeapDays(y);
    var q4, q100, q400 := (y - 1969) / 4, (y - 1901) / 100, (y - 1601) / 400;
    assert DayFromYearFormula(y) == 365 * (y - 1970) + q4 - q100 + q400;
    assert DayFromYearFormula(y + 1) == 365 * (y - 1970) + 365 + (y - 1968) / 4 - (y - 1900) / 100 + (y - 1600) / 400;
  }

  /** The leap rule as three corrections: +1 every 4 years, -1 every 100, +1 every 400. */
  lemma {:induction false} LeapDays(y: int)
    ensures DaysInYear(y) == 365 + (if y % 4 == 0 then 1 else 0) - (if y % 100 == 0 then 1 else 0) + (if y % 400 == 0 then 1 else 0)
  {
    if y % 400 == 0 {
      assert y == 100 * (4 * (y / 400));
      assert y == 4 * (100 * (y / 400));
    } else if y % 100 == 0 {
      assert y == 4 * (25 * (y / 100));
    }
  }

  lemma FloorStep4(y: int)
    ensures (y - 1968) / 4 == (y - 1969) / 4 + (if y % 4 == 0 then 1 else 0)
  {
  }

  lemma FloorStep100(y: int)
    ensures (y - 1900) / 100 == (y - 1901) / 100 + (if y % 100 == 0 then 1 else 0)
  {
  }

  lemma FloorStep400(y: int)
    ensures (y - 1600) / 400 == (y - 1601) / 400 + (if y % 400 == 0 then 1 else 0)
  {
  }

  /** Later years start later. */
  lemma {:induction false} DayFromYearMonotone(a: int, b: int)
    requires a <= b
    ensures DayFromYear(a) <= DayFromYear(b)
    ensures a < b ==> DayFromYear(a) + 365 <= DayFromYear(b)
    decreases b - a
  {
    if a < b {
      DayFromYearStep(b - 1);
      DayFromYearMonotone(a, b - 1);
    }
  }

  function YearUp(y: int, t: int): (r: int)
    requires DayFromYear(y) <= t
    ensures DayFromYear(r) <= t < DayFromYear(r + 1)
    decreases t - DayFromYear(y)
  {
    DayFromYearStep(y);
    if t < DayFromYear(y + 1) then y else YearUp(y + 1, t)
  }

  function YearDown(y: int, t: int): (r: int)
    requires t < DayFromYear(y + 1)
    ensures DayFromYear(r) <= t < DayFromYear(r + 1)
    decreases DayFromYear(y + 1) - t
  {
    DayFromYearStep(y);
    if DayFromYear(y) <= t then y else YearDown(y - 1, t)
  }

  /** YearFromTime: the year that contains day `t`. */
  function YearFromDay(t: int): (y: int)
    ensures DayFromYear(y) <= t < DayFromYear(y + 1)
    ensures 0 <= t - DayFromYear(y) < DaysInYear(y)
  {
    var y := if t >= 0 then YearUp(1970, t) else YearDown(1969, t);
    DayFromYearStep(y);
    y
  }

  /** The year containing a day is unique. */
  lemma YearFromDayUnique(y: int, t: int)
    requires DayFromYear(y) <= t < DayFromYear(y + 1)
    ensures YearFromDay(t) == y
  {
    var y' := YearFromDay(t);
    if y' < y {
      DayFromYearMonotone(y' + 1, y);
    } else if y' > y {
      DayFromYearMonotone(y + 1, y');
    }
  }

  /** The day of the year on which month `m` (0-based; 12 is the year's end) starts. */
  function MonthStart(m: int, leap: bool): (d: int)
    requires 0 <= m <= 12
    ensures 0 <= d <= 366
  {
    [0, 31, 59, 90, 120, 151, 181, 212, 243, 273, 304, 334, 365][m] + (if leap && m >= 2 then 1 else 0)
  }

  lemma MonthStartEnds(leap: bool)
    ensures MonthStart(0, leap) == 0
    ensures MonthStart(12, leap) == if leap then 366 else 365
  {
  }

  lemma MonthStartMonotone(a: int, b: int, leap: bool)
    requires 0 <= a <= b <= 12
    ensures MonthStart(a, leap) <= MonthStart(b, leap)
    ensures a < b ==> MonthStart(a, leap) + 28 <= MonthStart(b, leap)
  {
    assert forall m | 0 <= m < 12 :: MonthStart(m, leap) + 28 <= MonthStart(m + 1, leap);
    var k := a;
    while k < b
      invariant a <= k <= b
      invariant MonthStart(a, leap) <= MonthStart(k, leap)
      invariant a < k ==> MonthStart(a, leap) + 28 <= MonthStart(k, leap)
    {
      k := k + 1;
    }
  }

  /** The month (0-based) containing day-of-year `d`, searching from month `m`. */
  function MonthFrom(m: int, d: int, leap: bool): (r: int)
    requires 0 <= m < 12 && MonthStart(m, leap) <= d < MonthStart(12, leap)
    ensures m <= r < 12 && MonthStart(r, leap) <= d < MonthStart(r + 1, leap)
    decreases 12 - m
  {
    if d < MonthStart(m + 1, leap) then m else MonthFrom(m + 1, d, leap)
  }

  lemma MonthFromUnique(r: int, d: int, leap: bool)
    requires 0 <= r < 12 && MonthStart(r, leap) <= d < MonthStart(r + 1, leap)
    ensures MonthFrom(0, d, leap) == r
  {
    MonthStartMonotone(r + 1, 12, leap);
    var r' := MonthFrom(0, d, leap);
    if r' < r {
      MonthStartMonotone(r' + 1, r, leap);
    } else if r' > r {
      MonthStartMonotone(r + 1, r', leap);
    }
  }

  /** A calendar date; `month` and `day` count from 1. */
  datatype CivilDate = CivilDate(year: int, month: int, day: int)

  function DaysInMonth(year: int, month: int): int
    requires 1 <= month <= 12
  {
    MonthStart(month, IsLeapYear(year)) - MonthStart(month - 1, IsLeapYear(year))
  }

  predicate ValidDate(c: CivilDate) {
    1 <= c.month <= 12 && 1 <= c.day <= DaysInMonth(c.year, c.month)
  }

  /** The calendar date of day `t` (day 0 is 1970-01-01). */
  function CivilFromDays(t: int): (c: CivilDate)
    ensures ValidDate(c)
  {
    DateInYear(YearFromDay(t), DayOfYear(t))
  }

  /** The day of day `t` within its year, counted from 0. */
  function DayOfYear(t: int): (d: int)
    ensures 0 <= d < DaysInYear(YearFromDay(t))
  {
    t - DayFromYear(YearFromDay(t))
  }

  /** The calendar date of day `d` (counted from 0) of year `y`. */
  function DateInYear(y: int, d: int): (c: CivilDate)
    requires 0 <= d < DaysInYear(y)
    ensures ValidDate(c) && c.year == y
  {
    var leap := IsLeapYear(y);
    MonthStartEnds(leap);
    var m := MonthFrom(0, d, leap);
    CivilDate(y, m + 1, d - MonthStart(m, leap) + 1)
  }

  /** The day number of a calendar date. */
  function DaysFromCivil(c: CivilDate): int
    requires ValidDate(c)
  {
    DayFromYear(c.year) + MonthStart(c.month - 1, IsLeapYear(c.year)) + c.day - 1
  }

  /** Every day number is the day number of its calendar date. */
  lemma DaysFromCivilOfCivil(t: int)
    ensures DaysFromCivil(CivilFromDays(t)) == t
  {
  }

  /** Every valid calendar date is the calendar date of its day number. */
  lemma {:induction false} CivilOfDaysFromCivil(c: CivilDate)
    requires ValidDate(c)
    ensures CivilFromDays(DaysFromCivil(c)) == c
  {
    var t := DaysFromCivil(c);
    var d := MonthStart(c.month - 1, IsLeapYear(c.year)) + c.day - 1;
    assert t == DayFromYear(c.year) + d;
    DateInYearOfMonthDay(c, d);
    DayWithinYear(c.year, t, d);
    CivilFromDaysInYear(c.year, t);
    assert DayOfYear(t) == d;
  }

  lemma DayWithinYear(y: int, t: int, d: int)
    requires d == t - DayFromYear(y) && 0 <= d < DaysInYear(y)
    ensures DayFromYear(y) <= t < DayFromYear(y + 1)
  {
    DayFromYearStep(y);
  }

  /** A day of year `y` is dated within that year. */
  lemma CivilFromDaysInYear(y: int, t: int)
    requires DayFromYear(y) <= t < DayFromYear(y + 1)
    ensures YearFromDay(t) == y && DayOfYear(t) == t - DayFromYear(y)
    ensures CivilFromDays(t) == DateInYear(y, DayOfYear(t))
  {
    YearFromDayUnique(y, t);
  }

  /** Day `MonthStart(month - 1) + day - 1` of a year is that month and day. */
  lemma DateInYearOfMonthDay(c: CivilDate, d: int)
    requires ValidDate(c) && d == MonthStart(c.month - 1, IsLeapYear(c.year)) + c.day - 1
    ensures 0 <= d < DaysInYear(c.year) && DateInYear(c.year, d) == c
  {
    var leap := IsLeapYear(c.year);
    MonthStartMonotone(c.month, 12, leap);
    MonthStartEnds(leap);
    MonthFromUnique(c.month - 1, d, leap);
  }

  /** Two valid dates with the same day number are the same date. */
  lemma DaysFromCivilInjective(c1: CivilDate, c2: CivilDate)
    requires ValidDate(c1) && ValidDate(c2) && DaysFromCivil(c1) == DaysFromCivil(c2)
    ensures c1 == c2
  {
    CivilOfDaysFromCivil(c1);
    CivilOfDaysFromCivil(c2);
  }

  /** The year as toISOString writes it: four digits within 0..9999, else a sign and six digits. */
  function YearText(y: int): string {
    if 0 <= y <= 9999 then PadNat(y, 4)
    else if y < 0 then "-" + PadNat(-y, 6)
    else "+" + PadNat(y, 6)
  }

  /** The date part of toISOString. */
  function IsoDate(c: CivilDate): string {
    YearText(c.year) + "-" + PadNat(if c.month < 0 then 0 else c.month, 2) + "-" + PadNat(if c.day < 0 then 0 else c.day, 2)
  }

  /** toISOString on a time value TimeClip turned into NaN. */
  datatype DateError = InvalidTimeValue

  predicate TimeValueOutOfRange(serial: int) {
    var ms := (serial - EXCEL_UNIX_EPOCH) * MS_PER_DAY;
    ms > MAX_TIME_VALUE || ms < -MAX_TIME_VALUE
  }

  /** The time value is valid exactly for serials within 10^8 days of 1970-01-01. */
  lemma TimeValueRange(serial: int)
    ensures TimeValueOutOfRange(serial) <==> serial - EXCEL_UNIX_EPOCH > 100_000_000 || serial - EXCEL_UNIX_EPOCH < -100_000_000
  {
  }

  /** convertExcelDate: text is returned unchanged; a number becomes its ISO date or throws. */
  function ConvertExcelDate(excel: Cell): (r: Result<string, DateError>)
    ensures excel.Text? ==> r == Success(excel.text)
    ensures excel.Number? ==> (r.Failure? <==> TimeValueOutOfRange(excel.number))
  {
    match excel
    case Text(s) => Success(s)
    case Number(serial) =>
      if TimeValueOutOfRange(serial) then Failure(InvalidTimeValue)
      else Success(IsoDate(SerialDate(serial)))
  }

  /** The calendar date of a serial: serial - 25569 days after 1970-01-01. */
  function SerialDate(serial: int): (c: CivilDate)
    ensures ValidDate(c) && DaysFromCivil(c) == serial - EXCEL_UNIX_EPOCH
  {
    CivilFromDays(serial - EXCEL_UNIX_EPOCH)
  }

  /** Serial 25569 is the first day of 1970. */
  lemma UnixEpochSerial()
    ensures ConvertExcelDate(Number(EXCEL_UNIX_EPOCH)) == Success("1970-01-01")
  {
    assert !TimeValueOutOfRange(EXCEL_UNIX_EPOCH);
    assert CivilFromDays(0) == CivilDate(1970, 1, 1) by {
      assert DayFromYear(1970) == 0 && DayFromYear(1971) == 365;
      YearFromDayUnique(1970, 0);
      MonthFromUnique(0, 0, false);
    }
    EpochText();
  }

  lemma EpochText()
    ensures IsoDate(CivilDate(1970, 1, 1)) == "1970-01-01"
  {
    YearText1970();
    PadOne();
  }

  lemma YearText1970()
    ensures YearText(1970) == "1970"
  {
    NatToString1970();
    assert Pow10(4) == 10000;
  }

  lemma NatToString1970()
    ensures NatToString(1970) == "1970"
  {
    assert NatToString(1) == ['1'];
    assert NatToString(19) == NatToString(1) + [DigitChar(9)] == ['1', '9'];
    assert NatToString(197) == NatToString(19) + [DigitChar(7)] == ['1', '9', '7'];
    assert NatToString(1970) == NatToString(197) + [DigitChar(0)] == ['1', '9', '7', '0'];
  }

  lemma PadOne()
    ensures PadNat(1, 2) == "01"
  {
    assert Pow10(2) == 100;
    assert NatToString(1) == "1";
    assert Zeros(1) == "0";
  }

  /** Dates whose year needs at most six digits. */
  predicate SixDigitYear(c: CivilDate) {
    -1_000_000 < c.year < 1_000_000
  }

  /** Within TimeClip's range the year has at most six digits. */
  lemma {:induction false} ValidSerialYear(serial: int)
    requires !TimeValueOutOfRange(serial)
    ensures SixDigitYear(SerialDate(serial))
  {
    var t := serial - EXCEL_UNIX_EPOCH;
    var y := YearFromDay(t);
    if y >= 1_000_000 {
      DayFromYearIsFormula(y);
    } else if y <= -1_000_000 {
      DayFromYearIsFormula(y + 1);
    }
  }

  /** Within 0..9999 the date is YYYY-MM-DD, and its digit groups read back as year, month and day. */
  lemma IsoDateShape(c: CivilDate)
    requires ValidDate(c) && 0 <= c.year <= 9999
    ensures var s := IsoDate(c);
            |s| == 10 && s[4] == '-' && s[7] == '-' &&
            IsDigits(s[..4]) && IsDigits(s[5..7]) && IsDigits(s[8..]) &&
            DigitsValue(s[..4]) == c.year && DigitsValue(s[5..7]) == c.month && DigitsValue(s[8..]) == c.day
  {
    IsoDateParts(c);
    YearTextShape(c.year);
    JoinParts(YearText(c.year), PadNat(c.month, 2), PadNat(c.day, 2));
  }

  /** The pieces of a - b - c. */
  lemma JoinParts(a: string, b: string, c: string)
    ensures var s := a + "-" + b + "-" + c;
            |s| == |a| + |b| + |c| + 2 &&
            s[..|a|] == a && s[|a|] == '-' && s[|a| + 1..|a| + 1 + |b|] == b &&
            s[|a| + 1 + |b|] == '-' && s[|a| + 2 + |b|..] == c
  {
  }

  /** The year part, with its length, and the year read back from it. */
  lemma YearTextShape(y: int)
    requires -1_000_000 < y < 1_000_000
    ensures var s := YearText(y);
            (0 <= y <= 9999 ==> |s| == 4 && IsDigits(s) && DigitsValue(s) == y) &&
            (y < 0 ==> |s| == 7 && s[0] == '-' && IsDigits(s[1..]) && DigitsValue(s[1..]) == -y) &&
            (y > 9999 ==> |s| == 7 && s[0] == '+' && IsDigits(s[1..]) && DigitsValue(s[1..]) == y)
  {
    if 0 <= y <= 9999 {
      PadNatValue(y, 4);
    } else if y < 0 {
      PadNatValue(-y, 6);
      assert YearText(y)[1..] == PadNat(-y, 6);
    } else {
      PadNatValue(y, 6);
      assert YearText(y)[1..] == PadNat(y, 6);
    }
  }

  lemma YearTextInjective(y1: int, y2: int)
    requires -1_000_000 < y1 < 1_000_000 && -1_000_000 < y2 < 1_000_000
    requires YearText(y1) == YearText(y2)
    ensures y1 == y2
  {
    YearTextShape(y1);
    YearTextShape(y2);
  }

  lemma DaysInMonthBound(year: int, month: int)
    requires 1 <= month <= 12
    ensures 28 <= DaysInMonth(year, month) <= 31
  {
  }

  /** A valid date is the year, then month and day as two digits each, joined by '-'. */
  lemma IsoDateParts(c: CivilDate)
    requires ValidDate(c)
    ensures IsoDate(c) == YearText(c.year) + "-" + PadNat(c.month, 2) + "-" + PadNat(c.day, 2)
    ensures |PadNat(c.month, 2)| == 2 && DigitsValue(PadNat(c.month, 2)) == c.month
    ensures |PadNat(c.day, 2)| == 2 && DigitsValue(PadNat(c.day, 2)) == c.day
  {
    DaysInMonthBound(c.year, c.month);
    assert Pow10(2) == 100;
    PadNatValue(c.month, 2);
    PadNatValue(c.day, 2);
  }

  /** Different dates (with years of at most six digits) are written differently. */
  lemma IsoDateInjective(c1: CivilDate, c2: CivilDate)
    requires ValidDate(c1) && ValidDate(c2) && SixDigitYear(c1) && SixDigitYear(c2)
    requires IsoDate(c1) == IsoDate(c2)
    ensures c1 == c2
  {
    IsoDateParts(c1);
    IsoDateParts(c2);
    YearTextLength(c1.year);
    YearTextLength(c2.year);
    JoinPartsInjective(YearText(c1.year), PadNat(c1.month, 2), PadNat(c1.day, 2),
                       YearText(c2.year), PadNat(c2.month, 2), PadNat(c2.day, 2));
    YearTextInjective(c1.year, c2.year);
  }

  lemma YearTextLength(y: int)
    requires -1_000_000 < y < 1_000_000
    ensures |YearText(y)| == if 0 <= y <= 9999 then 4 else 7
  {
    YearTextShape(y);
  }

  /** Joins with '-' whose first two parts have equal lengths are equal only part by part. */
  lemma JoinPartsInjective(a1: string, b1: string, c1: string, a2: string, b2: string, c2: string)
    requires |b1| == |b2| && |c1| == |c2|
    requires a1 + "-" + b1 + "-" + c1 == a2 + "-" + b2 + "-" + c2
    ensures a1 == a2 && b1 == b2 && c1 == c2
  {
    JoinParts(a1, b1, c1);
    JoinParts(a2, b2, c2);
  }

  /**
   * A numeric serial within range converts to the ISO date of calendar date `c` exactly when
   * `c` lies serial - 25569 days after 1970-01-01.
   */
  lemma {:induction false} ConvertExcelDateMeaning(serial: int, c: CivilDate)
    requires !TimeValueOutOfRange(serial) && ValidDate(c) && SixDigitYear(c)
    ensures ConvertExcelDate(Number(serial)) == Success(IsoDate(c)) <==> DaysFromCivil(c) == serial - EXCEL_UNIX_EPOCH
  {
    if DaysFromCivil(c) == serial - EXCEL_UNIX_EPOCH {
      ConvertOfDayNumber(serial, c);
    }
    if ConvertExcelDate(Number(serial)) == Success(IsoDate(c)) {
      DayNumberOfConvert(serial, c);
    }
  }

  lemma ConvertNumber(serial: int)
    requires !TimeValueOutOfRange(serial)
    ensures ConvertExcelDate(Number(serial)) == Success(IsoDate(SerialDate(serial)))
  {
  }

  lemma ConvertOfDayNumber(serial: int, c: CivilDate)
    requires !TimeValueOutOfRange(serial) && ValidDate(c) && DaysFromCivil(c) == serial - EXCEL_UNIX_EPOCH
    ensures ConvertExcelDate(Number(serial)) == Success(IsoDate(c))
  {
    ConvertNumber(serial);
    DaysFromCivilInjective(SerialDate(serial), c);
  }

  lemma DayNumberOfConvert(serial: int, c: CivilDate)
    requires !TimeValueOutOfRange(serial) && ValidDate(c) && SixDigitYear(c)
    requires ConvertExcelDate(Number(serial)) == Success(IsoDate(c))
    ensures DaysFromCivil(c) == serial - EXCEL_UNIX_EPOCH
  {
    ConvertNumber(serial);
    ValidSerialYear(serial);
    IsoDateInjective(SerialDate(serial), c);
  }
}
