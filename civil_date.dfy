/**
 * Calendar dates as JavaScript's `Date` builds them from a year, a zero-based
 * month and a day (`Date.UTC(y, m, d)` and, for the local calendar,
 * `new Date(y, m, d)`): out-of-range months and days roll over into the
 * neighbouring months and years, and a year in 0..99 is taken as 1900..1999.
 * The `YYYY-MM-DD` birth-date text both sign-up paths accept is parsed here,
 * and so is the age in completed years.
 */
module CivilDate {
  import opened Optional
  import opened JsText

  /** The proleptic Gregorian leap-year rule `Date` uses. */
  predicate IsLeapYear(y: int) {
    y % 4 == 0 && (y % 100 != 0 || y % 400 == 0)
  }

  function DaysInMonth(y: int, m0: int): (n: int)
    requires 0 <= m0 < 12
    ensures 28 <= n <= 31
    ensures n == 29 <==> m0 == 1 && IsLeapYear(y)
  {
    if m0 == 1 then (if IsLeapYear(y) then 29 else 28)
    else if m0 == 3 || m0 == 5 || m0 == 8 || m0 == 10 then 30
    else 31
  }

  /** A date with a zero-based month, as `getUTCMonth`/`getMonth` report it. */
  datatype Civil = Civil(year: int, month0: int, day: int)

  /** The date exists in the calendar. */
  predicate Valid(c: Civil) {
    0 <= c.month0 < 12 && 1 <= c.day <= DaysInMonth(c.year, c.month0)
  }

  /** `MakeFullYear`: a year in 0..99 stands for 1900..1999. */
  function FullYear(y: int): (r: int)
    ensures 0 <= y <= 99 ==> r == 1900 + y
    ensures !(0 <= y <= 99) ==> r == y
  {
    if 0 <= y <= 99 then 1900 + y else y
  }

  /** Day overflow: a day before the 1st moves back a month, one past the end of
      the month moves forward, until the day lies inside its month. */
  function Roll(y: int, m0: int, d: int): (c: Civil)
    requires 0 <= m0 < 12
    ensures Valid(c)
    ensures 1 <= d <= DaysInMonth(y, m0) ==> c == Civil(y, m0, d)
    decreases if d < 1 then 1 else 0, if d < 1 then -d else d
  {
    if d < 1 then
      var py := if m0 == 0 then y - 1 else y;
      var pm := if m0 == 0 then 11 else m0 - 1;
      Roll(py, pm, d + DaysInMonth(py, pm))
    else if d > DaysInMonth(y, m0) then
      var ny := if m0 == 11 then y + 1 else y;
      var nm := if m0 == 11 then 0 else m0 + 1;
      Roll(ny, nm, d - DaysInMonth(y, m0))
    else
      Civil(y, m0, d)
  }

  /** The date `Date.UTC(y, m0, d)` (or `new Date(y, m0, d)`) stands for, read back
      through its full-year, month and day getters: the month overflows into the
      year first, then the day into the months. */
  function MakeDate(y: int, m0: int, d: int): (c: Civil)
    ensures Valid(c)
  {
    Roll(FullYear(y) + m0 / 12, m0 % 12, d)
  }

  /** Reading the parts back gives the same year, month and day exactly when they
      name a real date and the year is not one of the two-digit years 0..99. */
  lemma MakeDateReadBack(y: int, m0: int, d: int)
    ensures MakeDate(y, m0, d) == Civil(y, m0, d) <==> Valid(Civil(y, m0, d)) && !(0 <= y <= 99)
  {
    if Valid(Civil(y, m0, d)) {
      assert m0 / 12 == 0 && m0 % 12 == m0;
      if !(0 <= y <= 99) {
        assert MakeDate(y, m0, d) == Civil(y, m0, d);
      } else if d <= DaysInMonth(1900 + y, m0) {
        assert MakeDate(y, m0, d).year == 1900 + y;
      } else {
        // only 29 February of year 0, which 1900 does not have
        assert m0 == 1 && d == 29;
        assert MakeDate(y, m0, d) == Roll(1900 + y, 2, 1);
      }
    }
  }

  // ---------------------------------------------------------------- YYYY-MM-DD text

  /** `/^\d{4}-\d{2}-\d{2}$/`. */
  predicate DateTextShape(s: string) {
    |s| == 10 && s[4] == '-' && s[7] == '-'
    && AllDigits(s[..4]) && AllDigits(s[5..7]) && AllDigits(s[8..])
  }

  /** The three numbers `split('-')` and `Number` give for a shaped text, the month
      made zero-based as the code passes it to `Date`. */
  function TextYear(s: string): nat
    requires DateTextShape(s)
  {
    DecimalValue(s[..4])
  }

  function TextMonth(s: string): nat
    requires DateTextShape(s)
  {
    DecimalValue(s[5..7])
  }

  function TextDay(s: string): nat
    requires DateTextShape(s)
  {
    DecimalValue(s[8..])
  }

  /** The written date, month zero-based. */
  function Written(s: string): Civil
    requires DateTextShape(s)
  {
    Civil(TextYear(s), TextMonth(s) - 1, TextDay(s))
  }

  /** Shape check, `Date` construction, then the comparison of the read-back year,
      month and day with the written ones (`parseBirthDate`, and the first half of
      the sign-up form's `getAgeFromBirthDate`). The `NaN` time check never fires:
      a four-digit year is far inside `Date`'s range. */
  function ParseDate(s: string): (r: Option<Civil>)
    ensures r.Some? <==> DateTextShape(s) && Valid(Written(s)) && TextYear(s) >= 100
    ensures r.Some? ==> r.value == Written(s) && Valid(r.value)
  {
    if !DateTextShape(s) then None
    else
      var c := MakeDate(TextYear(s), TextMonth(s) - 1, TextDay(s));
      MakeDateReadBack(TextYear(s), TextMonth(s) - 1, TextDay(s));
      if c == Written(s) then Some(c) else None
  }

  // ---------------------------------------------------------------- age

  /** The age on `today`: the difference of the years, less one when this year's
      birthday (month, then day) has not come yet. */
  function Age(birth: Civil, today: Civil): int {
    var years := today.year - birth.year;
    if today.month0 < birth.month0 || (today.month0 == birth.month0 && today.day < birth.day) then years - 1
    else years
  }

  /** `a` falls on or before `b`. */
  predicate NotAfter(a: Civil, b: Civil) {
    a.year < b.year
    || (a.year == b.year && (a.month0 < b.month0 || (a.month0 == b.month0 && a.day <= b.day)))
  }

  /** The birthday `k` years after birth, as month and day (a 29 February birthday
      included). */
  function Anniversary(birth: Civil, k: int): Civil {
    Civil(birth.year + k, birth.month0, birth.day)
  }

  /** The age counts completed years: its anniversary has been reached by `today`
      and the next one has not. */
  lemma AgeCountsCompletedYears(birth: Civil, today: Civil)
    ensures NotAfter(Anniversary(birth, Age(birth, today)), today)
    ensures !NotAfter(Anniversary(birth, Age(birth, today) + 1), today)
  {
  }

  /** So the age is the only such number of years. */
  lemma AgeUnique(birth: Civil, today: Civil, k: int)
    requires NotAfter(Anniversary(birth, k), today)
    requires !NotAfter(Anniversary(birth, k + 1), today)
    ensures k == Age(birth, today)
  {
    AgeCountsCompletedYears(birth, today);
    var a := Age(birth, today);
    if k < a {
      AnniversaryMonotone(birth, k + 1, a, today);
    } else if k > a {
      AnniversaryMonotone(birth, a + 1, k, today);
    }
  }

  lemma AnniversaryMonotone(birth: Civil, i: int, j: int, today: Civil)
    requires i <= j
    requires NotAfter(Anniversary(birth, j), today)
    ensures NotAfter(Anniversary(birth, i), today)
  {
  }

  /** The age is negative exactly for a birth date after `today`. */
  lemma AgeNegativeIff(birth: Civil, today: Civil)
    ensures Age(birth, today) < 0 <==> !NotAfter(birth, today)
  {
  }
}
