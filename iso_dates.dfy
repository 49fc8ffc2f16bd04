/** A restricted date recogniser standing in for `try_parse_date`: it
    accepts `YYYY-MM-DD` and `YYYY-MM-DD HH:MM`, checks the calendar, and reads
    the naive time in a default time zone given by its offset from UTC in
    minutes (the process default time zone; UTC in the test settings). */
module IsoDates {
  import opened Wrappers
  import opened PyBuiltins
  import opened Instants

  predicate IsLeapYear(y: int) {
    y % 4 == 0 && (y % 100 != 0 || y % 400 == 0)
  }

  function DaysInMonth(y: int, m: int): (n: int)
    requires 1 <= m <= 12
    ensures 28 <= n <= 31
    ensures m == 2 ==> (n == 29 <==> IsLeapYear(y))
  {
    if m == 2 then (if IsLeapYear(y) then 29 else 28)
    else if m == 4 || m == 6 || m == 9 || m == 11 then 30
    else 31
  }

  /** The day number of 1 March of year `y` + 1, counted from 1 March of
      year 0 (1 BC): with the year starting in March, the leap day is the
      last day of a year, and a 400-year era has 146097 days. */
  function MarchYearStart(y: nat): int {
    var era, yoe := y / 400, y % 400;
    era * 146097 + yoe * 365 + yoe / 4 - yoe / 100
  }

  /** Days from 1 March to the first day of month `m` (March is month 0). */
  function MonthOffset(m: int): int
    requires 1 <= m <= 12
  {
    (153 * ((m + 9) % 12) + 2) / 5
  }

  /** The offsets month by month: each is the previous one plus the length
      of the previous month, March to January (February comes last). */
  lemma MonthOffsets()
    ensures MonthOffset(3) == 0 && MonthOffset(4) == 31 && MonthOffset(5) == 61 && MonthOffset(6) == 92
    ensures MonthOffset(7) == 122 && MonthOffset(8) == 153 && MonthOffset(9) == 184 && MonthOffset(10) == 214
    ensures MonthOffset(11) == 245 && MonthOffset(12) == 275 && MonthOffset(1) == 306 && MonthOffset(2) == 337
  {
  }

  /** The number of days from 1970-01-01 to year `y`, month `m`, day `d` of
      the proleptic Gregorian calendar (the calendar of Python's `date`). */
  function DaysFromCivil(y: int, m: int, d: int): (days: int)
    requires y >= 1 && 1 <= m <= 12
    ensures y == 1970 && m == 1 && d == 1 ==> days == 0
  {
    MarchYearStart(if m <= 2 then y - 1 else y) + MonthOffset(m) + d - 1 - 719468
  }

  /** A fixed point to check the day numbering against: 2014-07-12 is day
      16263 after 1970-01-01. */
  lemma DaysFromCivilOfJuly12th2014()
    ensures DaysFromCivil(2014, 7, 12) == 16263
  {
    assert MarchYearStart(2014) == 735598;
    assert MonthOffset(7) == 122;
  }

  /** Within a 400-year era, one more year adds 365 days and one more when
      the year number reached is a multiple of 4 but not of 100. */
  lemma EraYearStep(r: nat)
    requires r < 399
    ensures (r + 1) / 4 - r / 4 == (if (r + 1) % 4 == 0 then 1 else 0)
    ensures (r + 1) / 100 - r / 100 == (if (r + 1) % 100 == 0 then 1 else 0)
  {
  }

  /** A year counted from March has 366 days exactly when the February that
      ends it is a leap February. */
  lemma MarchYearLength(y: nat)
    ensures MarchYearStart(y + 1) == MarchYearStart(y) + (if IsLeapYear(y + 1) then 366 else 365)
  {
    var q, r := y / 400, y % 400;
    assert y == q * 400 + r;
    if r == 399 {
      assert y + 1 == (q + 1) * 400;
      assert (y + 1) / 400 == q + 1 && (y + 1) % 400 == 0;
      assert (y + 1) % 4 == 0 && (y + 1) % 100 == 0;
    } else {
      assert y + 1 == q * 400 + (r + 1);
      assert (y + 1) / 400 == q && (y + 1) % 400 == r + 1;
      assert (y + 1) % 4 == (r + 1) % 4 && (y + 1) % 100 == (r + 1) % 100;
      EraYearStep(r);
    }
  }

  /** The day after the last day of a month is the first day of the next
      month, or of the next year after December: the day numbering has no
      gaps and no overlaps across month ends. */
  lemma MonthEndIsFollowedByFirstOfNextMonth(y: int, m: int)
    requires y >= 1 && 1 <= m <= 12
    ensures m < 12 ==> DaysFromCivil(y, m + 1, 1) == DaysFromCivil(y, m, DaysInMonth(y, m)) + 1
    ensures m == 12 ==> DaysFromCivil(y + 1, 1, 1) == DaysFromCivil(y, 12, 31) + 1
  {
    MonthOffsets();
    if m == 2 {
      MarchYearLength(y - 1);
    }
  }

  predicate DigitsAt(s: string, i: nat, n: nat) {
    i + n <= |s| && AllDigits(s[i..i + n])
  }

  function Field(s: string, i: nat, n: nat): nat
    requires DigitsAt(s, i, n)
  {
    DigitsValue(s[i..i + n])
  }

  /** `YYYY-MM-DD`, optionally followed by ` HH:MM`, as characters. */
  predicate WellFormed(s: string) {
    (|s| == 10 || (|s| == 16 && s[10] == ' ' && DigitsAt(s, 11, 2) && s[13] == ':' && DigitsAt(s, 14, 2))) &&
    DigitsAt(s, 0, 4) && s[4] == '-' && DigitsAt(s, 5, 2) && s[7] == '-' && DigitsAt(s, 8, 2)
  }

  /** The instant `s` names, read in the time zone `offset` minutes east of
      UTC, or None when `s` is not a well-formed, existing date and time. */
  function ParseIsoDate(s: string, offset: int): (r: Option<Instant>)
    ensures r.Some? ==> WellFormed(s)
  {
    if !WellFormed(s) then None
    else
      var year, month, day := Field(s, 0, 4), Field(s, 5, 2), Field(s, 8, 2);
      var hour := if |s| == 16 then Field(s, 11, 2) else 0;
      var minute := if |s| == 16 then Field(s, 14, 2) else 0;
      if 1 <= year && 1 <= month <= 12 && 1 <= day <= DaysInMonth(year, month) && hour < 24 && minute < 60 then
        Some(DaysFromCivil(year, month, day) * MicrosPerDay + (hour * 60 + minute - offset) * MicrosPerMinute)
      else
        None
  }

  /** A date alone means midnight at the start of that day. */
  lemma DateIsMidnight(d: string, offset: int)
    requires |d| == 10
    ensures ParseIsoDate(d, offset) == ParseIsoDate(d + " 00:00", offset)
  {
    var s := d + " 00:00";
    assert s[0..4] == d[0..4] && s[5..7] == d[5..7] && s[8..10] == d[8..10];
    assert s[11..13] == "00" && s[14..16] == "00";
    assert DigitsValue("00") == 0;
  }

  /** Nothing the recogniser accepts is also an integer, so trying integers
      first never hides a date. */
  lemma DatesAreNotIntegers(s: string, offset: int)
    requires ParseIsoDate(s, offset).Some?
    ensures ParseInt(s) == None
  {
    assert IsDigit(s[0]) by { assert s[0..4][0] == s[0]; }
    assert IsDigit(s[|s| - 1]) by {
      if |s| == 16 { assert s[14..16][1] == s[15]; } else { assert s[8..10][1] == s[9]; }
    }
    StripUnchanged(s);
    assert !AllDigits(s) by { assert !IsDigit(s[4]); }
    assert !AllDigits(s[1..]) by { assert s[1..][3] == s[4]; }
  }
}
