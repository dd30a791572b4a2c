/**
 * The calendar of `Date.UTC`: day numbers and the proleptic Gregorian dates they
 * stand for (packages/shared/src/rrule.ts).
 */
module Calendar {

  datatype Date = Date(year: int, month: int, day: int)

  predicate Leap(year: int) {
    year % 4 == 0 && (year % 100 != 0 || year % 400 == 0)
  }

  function MonthLength(year: int, month: int): (n: int)
    ensures 28 <= n <= 31
  {
    if month == 2 then (if Leap(year) then 29 else 28)
    else if month in {4, 6, 9, 11} then 30
    else 31
  }

  predicate Valid(d: Date) {
    1 <= d.month <= 12 && 1 <= d.day <= MonthLength(d.year, d.month)
  }

  // ---------------------------------------------------------------------------
  // From a date to its day number
  // ---------------------------------------------------------------------------

  /** Days from 1 January 1970 to 1 January of the year. */
  function DayFromYear(year: int): int {
    365 * (year - 1970) + (year - 1969) / 4 - (year - 1901) / 100 + (year - 1601) / 400
  }

  /** Days from 1 January to the first of the month. */
  function DaysBeforeMonth(year: int, month: int): int
    requires 1 <= month <= 13
  {
    if month == 1 then 0 else DaysBeforeMonth(year, month - 1) + MonthLength(year, month - 1)
  }

  /** The day number of day `day` of a month; a day outside the month counts on into its neighbours. */
  function DayNumber(year: int, month: int, day: int): int
    requires 1 <= month <= 12
  {
    DayFromYear(year) + DaysBeforeMonth(year, month) + day - 1
  }

  function NumberOf(d: Date): int
    requires Valid(d)
  {
    DayNumber(d.year, d.month, d.day)
  }

  // ---------------------------------------------------------------------------
  // From a day number to its date
  // ---------------------------------------------------------------------------

  function DayAfter(d: Date): (r: Date)
    requires Valid(d)
    ensures Valid(r)
  {
    if d.day < MonthLength(d.year, d.month) then Date(d.year, d.month, d.day + 1)
    else if d.month < 12 then Date(d.year, d.month + 1, 1)
    else Date(d.year + 1, 1, 1)
  }

  function DayBefore(d: Date): (r: Date)
    requires Valid(d)
    ensures Valid(r)
  {
    if d.day > 1 then Date(d.year, d.month, d.day - 1)
    else if d.month > 1 then Date(d.year, d.month - 1, MonthLength(d.year, d.month - 1))
    else Date(d.year - 1, 12, 31)
  }

  /** The date of a day number, counted day by day from 1 January 1970. */
  function DateOf(n: int): (d: Date)
    ensures Valid(d)
    decreases if n < 0 then -n else n
  {
    if n == 0 then Date(1970, 1, 1)
    else if n > 0 then DayAfter(DateOf(n - 1))
    else DayBefore(DateOf(n + 1))
  }

  // ---------------------------------------------------------------------------
  // The two agree
  // ---------------------------------------------------------------------------

  lemma DivisionIsUnique(x: int, k: int, q: int, r: int)
    requires k > 0 && 0 <= r < k && x == k * q + r
    ensures x / k == q && x % k == r
  {
    var d := x / k - q;
    assert k * d == r - x % k;
    assert d >= 1 ==> k * d >= k;
    assert d <= -1 ==> k * d <= -k;
  }

  lemma NextQuotient(x: int, k: int)
    requires k > 0
    ensures (x + 1) / k == x / k + (if (x + 1) % k == 0 then 1 else 0)
  {
    var q, r := x / k, x % k;
    if r + 1 == k {
      DivisionIsUnique(x + 1, k, q + 1, 0);
    } else {
      DivisionIsUnique(x + 1, k, q, r + 1);
    }
  }

  /** The years the formula counts from are multiples of what it divides by. */
  lemma SameRemainder(year: int, epoch: int, k: int)
    requires k > 0 && epoch % k == 0
    ensures (year - epoch) % k == year % k
  {
    var q, r := year / k, year % k;
    assert year - epoch == k * (q - epoch / k) + r;
    DivisionIsUnique(year - epoch, k, q - epoch / k, r);
  }

  lemma MultiplesPassed(year: int, epoch: int, k: int)
    requires k > 0 && epoch % k == 0
    ensures (year - epoch) / k == (year - (epoch + 1)) / k + (if year % k == 0 then 1 else 0)
  {
    NextQuotient(year - (epoch + 1), k);
    SameRemainder(year, epoch, k);
  }

  lemma LeapRules(year: int)
    ensures year % 400 == 0 ==> year % 100 == 0
    ensures year % 100 == 0 ==> year % 4 == 0
  {
  }

  lemma YearLength(year: int)
    ensures DayFromYear(year + 1) == DayFromYear(year) + (if Leap(year) then 366 else 365)
  {
    MultiplesPassed(year, 1968, 4);
    MultiplesPassed(year, 1900, 100);
    MultiplesPassed(year, 1600, 400);
    LeapRules(year);
  }

  lemma MonthsMakeYear(year: int)
    ensures DaysBeforeMonth(year, 12) + 31 == if Leap(year) then 366 else 365
  {
    assert DaysBeforeMonth(year, 2) == 31;
    assert DaysBeforeMonth(year, 4) == 31 + MonthLength(year, 2) + 31;
    assert DaysBeforeMonth(year, 6) == DaysBeforeMonth(year, 4) + 61;
    assert DaysBeforeMonth(year, 8) == DaysBeforeMonth(year, 6) + 61;
    assert DaysBeforeMonth(year, 10) == DaysBeforeMonth(year, 8) + 61;
    assert DaysBeforeMonth(year, 12) == DaysBeforeMonth(year, 10) + 61;
  }

  lemma NextDayNumber(d: Date)
    requires Valid(d)
    ensures NumberOf(DayAfter(d)) == NumberOf(d) + 1
  {
    if d.day == MonthLength(d.year, d.month) && d.month == 12 {
      MonthsMakeYear(d.year);
      YearLength(d.year);
    }
  }

  lemma PreviousDayNumber(d: Date)
    requires Valid(d)
    ensures NumberOf(DayBefore(d)) == NumberOf(d) - 1
  {
    if d.day == 1 && d.month == 1 {
      MonthsMakeYear(d.year - 1);
      YearLength(d.year - 1);
    }
  }

  /** The date counted to has the number counted. */
  lemma {:induction false} NumberOfDateOf(n: int)
    ensures NumberOf(DateOf(n)) == n
    decreases if n < 0 then -n else n
  {
    if n > 0 {
      NumberOfDateOf(n - 1);
      NextDayNumber(DateOf(n - 1));
    } else if n < 0 {
      NumberOfDateOf(n + 1);
      PreviousDayNumber(DateOf(n + 1));
    } else {
      assert DayFromYear(1970) == 0;
    }
  }

  ghost predicate Earlier(a: Date, b: Date) {
    a.year < b.year || (a.year == b.year && (a.month < b.month || (a.month == b.month && a.day < b.day)))
  }

  lemma {:induction false} YearsGrow(a: int, b: int)
    requires a < b
    ensures DayFromYear(a) + 365 <= DayFromYear(b)
    ensures Leap(a) ==> DayFromYear(a) + 366 <= DayFromYear(b)
    decreases b - a
  {
    YearLength(b - 1);
    if a < b - 1 {
      YearsGrow(a, b - 1);
    }
  }

  lemma {:induction false} MonthsGrow(year: int, a: int, b: int)
    requires 1 <= a < b <= 13
    ensures DaysBeforeMonth(year, a) + MonthLength(year, a) <= DaysBeforeMonth(year, b)
    decreases b - a
  {
    if a < b - 1 {
      MonthsGrow(year, a, b - 1);
    }
  }

  lemma NumbersGrow(a: Date, b: Date)
    requires Valid(a) && Valid(b) && Earlier(a, b)
    ensures NumberOf(a) < NumberOf(b)
  {
    if a.year < b.year {
      YearsGrow(a.year, b.year);
      MonthsMakeYear(a.year);
      if a.month < 12 {
        MonthsGrow(a.year, a.month, 12);
      }
      if b.month > 1 {
        MonthsGrow(b.year, 1, b.month);
      }
    } else if a.month < b.month {
      MonthsGrow(a.year, a.month, b.month);
    }
  }

  /** Every date is the date of its number, so the two functions are each other's inverse. */
  lemma DateOfNumberOf(d: Date)
    requires Valid(d)
    ensures DateOf(NumberOf(d)) == d
  {
    var e := DateOf(NumberOf(d));
    NumberOfDateOf(NumberOf(d));
    if Earlier(d, e) {
      NumbersGrow(d, e);
    } else if Earlier(e, d) {
      NumbersGrow(e, d);
    }
  }

  /** The last day of a month, found as day 0 of the next, has the month's length for its day. */
  lemma DayZeroOfNextMonth(year: int, month: int)
    requires 1 <= month <= 12
    ensures var number := if month == 12 then DayNumber(year + 1, 1, 0) else DayNumber(year, month + 1, 0);
            DateOf(number) == Date(year, month, MonthLength(year, month))
  {
    var last := Date(year, month, MonthLength(year, month));
    assert (if month == 12 then DayNumber(year + 1, 1, 0) else DayNumber(year, month + 1, 0)) == NumberOf(last) by {
      NextDayNumber(last);
    }
    DateOfNumberOf(last);
  }
}
