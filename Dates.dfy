/**
 * java.time.LocalDate in the ISO calendar, as far as the employee rules use it:
 * comparison, plusYears/minusYears, Period.between(..).getYears(), and the
 * ISO-8601 text form yyyy-MM-dd that LocalDate.parse reads and toString writes.
 */
module Dates {
  import opened Wrappers
  import opened Decimal

  datatype Ymd = Ymd(year: int, month: int, day: int)

  /** IsoChronology.isLeapYear (proleptic Gregorian). */
  predicate IsLeapYear(y: int) {
    y % 4 == 0 && (y % 100 != 0 || y % 400 == 0)
  }

  function LengthOfMonth(y: int, m: int): (n: int)
    ensures 28 <= n <= 31
  {
    if m == 2 then (if IsLeapYear(y) then 29 else 28)
    else if m == 4 || m == 6 || m == 9 || m == 11 then 30
    else 31
  }

  predicate IsValidDate(d: Ymd) {
    1 <= d.month <= 12 && 1 <= d.day <= LengthOfMonth(d.year, d.month)
  }

  /** A LocalDate is always a real calendar day. */
  type LocalDate = d: Ymd | IsValidDate(d) witness Ymd(2000, 1, 1)

  /** LocalDate.isBefore: the chronological order, year first, then month, then day. */
  predicate IsBefore(a: LocalDate, b: LocalDate) {
    a.year < b.year || (a.year == b.year && (a.month < b.month || (a.month == b.month && a.day < b.day)))
  }

  /** LocalDate.isAfter. */
  predicate IsAfter(a: LocalDate, b: LocalDate) {
    IsBefore(b, a)
  }

  /** LocalDate.plusYears: same month and day, the day clamped to the end of the month
      (so 29 February becomes 28 February in a common year). */
  function PlusYears(d: LocalDate, n: int): (r: LocalDate)
    ensures r.year == d.year + n && r.month == d.month
    ensures r.day == d.day || (d.month == 2 && d.day == 29 && r.day == 28 && !IsLeapYear(d.year + n))
  {
    if n == 0 then d
    else
      var y := d.year + n;
      var last := LengthOfMonth(y, d.month);
      Ymd(y, d.month, if d.day <= last then d.day else last)
  }

  /** LocalDate.minusYears. */
  function MinusYears(d: LocalDate, n: int): LocalDate {
    PlusYears(d, -n)
  }

  function ProlepticMonth(d: LocalDate): int {
    d.year * 12 + d.month - 1
  }

  /** Java's integer division, which truncates toward zero. */
  function TruncDiv(a: int, b: int): int
    requires b > 0
  {
    if a >= 0 then a / b else -((-a) / b)
  }

  /** Period.between(start, end).getYears(): the whole years from start to end
      (LocalDate.until), negative when end comes first. */
  function PeriodYears(start: LocalDate, end: LocalDate): int {
    var totalMonths := ProlepticMonth(end) - ProlepticMonth(start);
    var days := end.day - start.day;
    var months :=
      if totalMonths > 0 && days < 0 then totalMonths - 1
      else if totalMonths < 0 && days > 0 then totalMonths + 1
      else totalMonths;
    TruncDiv(months, 12)
  }

  /** "At least n whole years" by Period.between is the same as "on or after the
      n-th anniversary" when the anniversary is computed with minusYears from the
      later date: d.isAfter(today.minusYears(n)) rejects exactly those who are
      younger than n years. */
  lemma AgeByMinusYears(birth: LocalDate, today: LocalDate, n: int)
    requires n >= 1
    ensures !IsAfter(birth, MinusYears(today, n)) <==> PeriodYears(birth, today) >= n
  {
    var m := MinusYears(today, n);
    assert m.year == today.year - n && m.month == today.month;
    var tm := ProlepticMonth(today) - ProlepticMonth(birth);
    assert tm == 12 * (today.year - birth.year) + today.month - birth.month;
  }

  /** The anniversary computed with plusYears from the earlier date disagrees with
      Period.between in exactly one case: someone born on 29 February reaches the
      plusYears anniversary on 28 February of a common year, but has one whole
      year fewer by Period.between on that day. */
  lemma AgeByPlusYears(birth: LocalDate, day: LocalDate, n: int)
    requires n >= 1
    ensures PeriodYears(birth, day) >= n <==>
      !IsBefore(day, PlusYears(birth, n)) && !(birth.month == 2 && birth.day == 29 && day == Ymd(birth.year + n, 2, 28))
  {
    var p := PlusYears(birth, n);
    var tm := ProlepticMonth(day) - ProlepticMonth(birth);
    assert tm == 12 * (day.year - birth.year) + day.month - birth.month;
  }

  /** The text LocalDate.parse accepts with ISO_LOCAL_DATE, for four-digit years:
      yyyy-MM-dd naming a real calendar day. */
  function ParseIsoDate(s: string): (r: Option<LocalDate>)
    ensures r.Some? ==> 0 <= r.value.year <= 9999
  {
    if |s| == 10 && s[4] == '-' && s[7] == '-'
       && AllDigits(s[0..4]) && AllDigits(s[5..7]) && AllDigits(s[8..10]) then
      var d := Ymd(DigitsValue(s[0..4]), DigitsValue(s[5..7]), DigitsValue(s[8..10]));
      if IsValidDate(d) && d.year <= 9999 then Some(d) else None
    else None
  }

  /** LocalDate.toString for a year written with four digits. */
  function FormatIsoDate(d: LocalDate): (s: string)
    requires 0 <= d.year <= 9999
    ensures |s| == 10
  {
    Padded(d.year, 4) + "-" + Padded(d.month, 2) + "-" + Padded(d.day, 2)
  }

  /** What toString writes, parse reads back. */
  lemma FormatThenParse(d: LocalDate)
    requires 0 <= d.year <= 9999
    ensures ParseIsoDate(FormatIsoDate(d)) == Some(d)
  {
    var s := FormatIsoDate(d);
    assert s[0..4] == Padded(d.year, 4);
    assert s[5..7] == Padded(d.month, 2);
    assert s[8..10] == Padded(d.day, 2);
    assert Pow10(4) == 10000 && Pow10(2) == 100;
    PaddedValue(d.year, 4);
    PaddedValue(d.month, 2);
    PaddedValue(d.day, 2);
  }
}
