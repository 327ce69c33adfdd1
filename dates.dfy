/**
 * Calendar days as `pd.to_datetime(column, format='%Y-%m-%d', errors='coerce')` reads them: an
 * ISO date text of a real Gregorian day inside the range of a pandas `Timestamp` becomes that
 * day, anything else becomes NaT. Days are compared through the integer yyyymmdd.
 */
module Dates {
  import opened Wrappers
  import opened Strings

  predicate IsLeapYear(y: int)
  {
    y % 4 == 0 && (y % 100 != 0 || y % 400 == 0)
  }

  function DaysInMonth(y: int, m: int): (n: int)
    requires 1 <= m <= 12
    ensures 28 <= n <= 31
    ensures n == 29 <==> m == 2 && IsLeapYear(y)
  {
    if m == 2 then (if IsLeapYear(y) then 29 else 28)
    else if m == 4 || m == 6 || m == 9 || m == 11 then 30
    else 31
  }

  /** A day of the Gregorian calendar. */
  predicate ValidDate(y: nat, m: nat, d: nat)
  {
    y < 10000 && 1 <= m <= 12 && 1 <= d <= DaysInMonth(y, m)
  }

  /** The integer a day is stored and compared as: yyyymmdd. */
  function DayCode(y: nat, m: nat, d: nat): nat
  {
    y * 10000 + m * 100 + d
  }

  /** The first and the last whole day a pandas `Timestamp` can hold (1677-09-22 and 2262-04-11). */
  const FirstDay: nat := 16770922
  const LastDay: nat := 22620411

  /** Comparing day codes is comparing the days in calendar order. */
  lemma DayCodeOrder(y1: nat, m1: nat, d1: nat, y2: nat, m2: nat, d2: nat)
    requires ValidDate(y1, m1, d1) && ValidDate(y2, m2, d2)
    ensures DayCode(y1, m1, d1) < DayCode(y2, m2, d2) <==>
      y1 < y2 || (y1 == y2 && (m1 < m2 || (m1 == m2 && d1 < d2)))
    ensures DayCode(y1, m1, d1) == DayCode(y2, m2, d2) <==> y1 == y2 && m1 == m2 && d1 == d2
  {
    var r1 := m1 * 100 + d1;
    var r2 := m2 * 100 + d2;
    assert r1 < 10000 && r2 < 10000;
    if y1 < y2 {
      assert y1 * 10000 + 10000 <= y2 * 10000;
    } else if y2 < y1 {
      assert y2 * 10000 + 10000 <= y1 * 10000;
    }
  }

  lemma Pow10Small()
    ensures Pow10(2) == 100 && Pow10(4) == 10000
  {
    assert Pow10(4) == 10 * Pow10(3) && Pow10(3) == 10 * Pow10(2) && Pow10(2) == 10 * Pow10(1) && Pow10(1) == 10 * Pow10(0);
  }

  /** The ISO text `strftime('%Y-%m-%d')` writes for a day. */
  function IsoText(y: nat, m: nat, d: nat): (s: string)
    requires y < 10000 && m < 100 && d < 100
    ensures |s| == 10 && s[4] == '-' && s[7] == '-'
  {
    Pow10Small();
    PadDigits(y, 4) + "-" + PadDigits(m, 2) + "-" + PadDigits(d, 2)
  }

  /** The text as `%Y-%m-%d`: four digits, '-', two digits, '-', two digits. */
  predicate IsoShape(s: string)
  {
    |s| == 10 && s[4] == '-' && s[7] == '-'
    && AllDigits(s[0..4]) && AllDigits(s[5..7]) && AllDigits(s[8..10])
  }

  /** The day an ISO date text names, when it is a real day a `Timestamp` can hold. */
  function ParseIsoDate(s: string): (r: Option<nat>)
    ensures r.Some? ==> FirstDay <= r.value <= LastDay
  {
    if !IsoShape(s) then None
    else
      var (y, m, d) := (DigitsValue(s[0..4]), DigitsValue(s[5..7]), DigitsValue(s[8..10]));
      if ValidDate(y, m, d) && FirstDay <= DayCode(y, m, d) <= LastDay then Some(DayCode(y, m, d))
      else None
  }

  /** The year, month and day of a day code. */
  lemma DayCodeParts(y: nat, m: nat, d: nat)
    requires ValidDate(y, m, d)
    ensures DayCode(y, m, d) / 10000 == y && DayCode(y, m, d) / 100 % 100 == m && DayCode(y, m, d) % 100 == d
  {
    var c := DayCode(y, m, d);
    assert c == 100 * (y * 100 + m) + d;
    assert c / 100 == y * 100 + m;
  }

  /** A text of the ISO shape is its parts glued with '-'. */
  lemma IsoShapeParts(s: string)
    requires IsoShape(s)
    ensures s == s[0..4] + "-" + s[5..7] + "-" + s[8..10]
  {
  }

  /** What parses is a real day, and printing that day gives the text back. */
  lemma ParsedDatePrintsBack(s: string)
    requires ParseIsoDate(s).Some?
    ensures var c := ParseIsoDate(s).value;
      ValidDate(c / 10000, c / 100 % 100, c % 100) && IsoText(c / 10000, c / 100 % 100, c % 100) == s
  {
    var (y, m, d) := (DigitsValue(s[0..4]), DigitsValue(s[5..7]), DigitsValue(s[8..10]));
    DayCodeParts(y, m, d);
    PadDigitsOfValue(s[0..4]);
    PadDigitsOfValue(s[5..7]);
    PadDigitsOfValue(s[8..10]);
    IsoShapeParts(s);
  }

  /** Printing a day and parsing the text gives the day back. */
  lemma PrintedDateParses(y: nat, m: nat, d: nat)
    requires ValidDate(y, m, d) && FirstDay <= DayCode(y, m, d) <= LastDay
    ensures ParseIsoDate(IsoText(y, m, d)) == Some(DayCode(y, m, d))
  {
    Pow10Small();
    var s := IsoText(y, m, d);
    assert s[0..4] == PadDigits(y, 4) && s[5..7] == PadDigits(m, 2) && s[8..10] == PadDigits(d, 2);
  }
}
