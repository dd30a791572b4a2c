/**
 * When maintenance windows open: a recurrence rule evaluated in a time zone
 * (packages/shared/src/rrule.ts; a subset of section 3.3.10 of RFC 5545).
 */
module MaintenanceWindows {
  import opened Prelude
  import opened Calendar
  import opened TimeZones

  datatype Frequency = Daily | Weekly | Monthly

  /** Weekdays are numbered from Monday, 0, to Sunday, 6. */
  datatype ByDay = ByDay(day: int, nth: Option<int>)

  datatype Rule = Rule(
    freq: Frequency,
    byDay: seq<ByDay>,
    byMonthDay: seq<int>,
    byHour: seq<int>,
    byMinute: seq<int>
  )

  /** What a rule that parses guarantees of its hours and minutes. */
  ghost predicate Parsed(rule: Rule) {
    && (forall h :: h in rule.byHour ==> 0 <= h < 24)
    && (forall m :: m in rule.byMinute ==> 0 <= m < 60)
  }

  datatype Window = Window(rule: Rule, durationMinutes: int, blackout: set<Date>)

  // ---------------------------------------------------------------------------
  // Which dates match
  // ---------------------------------------------------------------------------

  function WeekdayOf(year: int, month: int, day: int): (w: int)
    requires 1 <= month <= 12
    ensures 0 <= w < 7
  {
    // 1 January 1970 was a Thursday, 4 counted from Sunday; Monday is made 0.
    ((DayNumber(year, month, day) + 4) % 7 + 6) % 7
  }

  function DaysInMonth(year: int, month: int): int
    requires 1 <= month <= 12
  {
    DateOf(if month == 12 then DayNumber(year + 1, 1, 0) else DayNumber(year, month + 1, 0)).day
  }

  predicate DateMatches(rule: Rule, d: Date)
    requires Calendar.Valid(d)
  {
    var weekday := WeekdayOf(d.year, d.month, d.day);
    match rule.freq
    case Daily => rule.byDay == [] || exists b :: b in rule.byDay && b.day == weekday
    case Weekly => if rule.byDay != [] then exists b :: b in rule.byDay && b.day == weekday else weekday == 0
    case Monthly =>
      var length := DaysInMonth(d.year, d.month);
      if rule.byMonthDay != [] then
        exists n :: n in rule.byMonthDay && (if n > 0 then n == d.day else length + n + 1 == d.day)
      else
        exists b :: b in rule.byDay && b.day == weekday &&
          (b.nth.None? || b.nth.value == (d.day - 1) / 7 + 1 || b.nth.value == -((length - d.day) / 7 + 1))
  }

  // ---------------------------------------------------------------------------
  // Which dates should match
  // ---------------------------------------------------------------------------

  /** The weekday of a day, counted one by one from a Thursday, 1 January 1970. */
  ghost function CountedWeekday(n: int): int
    decreases if n < 0 then -n else n
  {
    if n == 0 then 3
    else if n > 0 then (if CountedWeekday(n - 1) == 6 then 0 else CountedWeekday(n - 1) + 1)
    else if CountedWeekday(n + 1) == 0 then 6 else CountedWeekday(n + 1) - 1
  }

  /** The weekday a date falls on. */
  ghost function Falls(year: int, month: int, day: int): int
    requires 1 <= month <= 12
  {
    CountedWeekday(DayNumber(year, month, day))
  }

  lemma NextOfSeven(k: int)
    ensures (k + 1) % 7 == if k % 7 == 6 then 0 else k % 7 + 1
    ensures k % 7 == if (k + 1) % 7 == 0 then 6 else (k + 1) % 7 - 1
  {
  }

  lemma SameOfSeven(x: int, y: int)
    ensures x % 7 == y % 7 <==> (x - y) % 7 == 0
  {
  }

  lemma {:induction false} CountedIs(n: int)
    ensures CountedWeekday(n) == (n + 3) % 7
    decreases if n < 0 then -n else n
  {
    if n > 0 {
      CountedIs(n - 1);
      NextOfSeven(n + 2);
    } else if n < 0 {
      CountedIs(n + 1);
      NextOfSeven(n + 3);
    }
  }

  /** The weekday computed is the one that counting the days gives. */
  lemma WeekdayIsCounted(year: int, month: int, day: int)
    requires 1 <= month <= 12
    ensures WeekdayOf(year, month, day) == Falls(year, month, day)
  {
    CountedIs(DayNumber(year, month, day));
  }

  lemma OneDayLater(n: int)
    ensures CountedWeekday(n + 1) == (CountedWeekday(n) + 1) % 7
  {
    CountedIs(n);
    CountedIs(n + 1);
  }

  /** Each day falls on the weekday after the day before's. */
  lemma WeekdaysFollow(d: Date)
    requires Calendar.Valid(d)
    ensures var next := DayAfter(d);
            WeekdayOf(next.year, next.month, next.day) == (WeekdayOf(d.year, d.month, d.day) + 1) % 7
  {
    var next := DayAfter(d);
    assert NumberOf(next) == NumberOf(d) + 1 by {
      NextDayNumber(d);
    }
    WeekdayIsCounted(d.year, d.month, d.day);
    WeekdayIsCounted(next.year, next.month, next.day);
    OneDayLater(NumberOf(d));
  }

  /** And 1 January 1970 was a Thursday. */
  lemma EpochIsThursday()
    ensures WeekdayOf(1970, 1, 1) == 3
  {
    assert DayNumber(1970, 1, 1) == 0;
  }

  /** How many of the days `first` to `last` of a month fall on a weekday. */
  ghost function Count(year: int, month: int, first: int, last: int, weekday: int): nat
    requires 1 <= month <= 12
    decreases last - first
  {
    if last < first then 0
    else Count(year, month, first, last - 1, weekday) + (if Falls(year, month, last) == weekday then 1 else 0)
  }

  /** The date is the `nth` of its weekday in its month, counted from the end when `nth` is negative. */
  ghost predicate IsNth(d: Date, nth: int)
    requires Calendar.Valid(d)
  {
    var weekday := Falls(d.year, d.month, d.day);
    if nth > 0 then Count(d.year, d.month, 1, d.day, weekday) == nth
    else Count(d.year, d.month, d.day, MonthLength(d.year, d.month), weekday) == -nth
  }

  /** The date is the `n`th day of its month, counted from the end when `n` is negative. */
  ghost predicate IsMonthDay(d: Date, n: int) {
    if n > 0 then d.day == n else MonthLength(d.year, d.month) - d.day + 1 == -n
  }

  ghost predicate OnWeekday(rule: Rule, d: Date)
    requires Calendar.Valid(d)
  {
    exists b :: b in rule.byDay && b.day == Falls(d.year, d.month, d.day)
  }

  /** The rule recurs on the date. A weekly rule that names no day is for Mondays. */
  ghost predicate Recurs(rule: Rule, d: Date)
    requires Calendar.Valid(d)
  {
    match rule.freq
    case Daily => rule.byDay == [] || OnWeekday(rule, d)
    case Weekly => if rule.byDay == [] then Falls(d.year, d.month, d.day) == 0 else OnWeekday(rule, d)
    case Monthly =>
      if rule.byMonthDay != [] then exists n :: n in rule.byMonthDay && IsMonthDay(d, n)
      else exists b ::
        b in rule.byDay && b.day == Falls(d.year, d.month, d.day) && (b.nth.None? || IsNth(d, b.nth.value))
  }

  /** Two days of a month fall on the same weekday exactly when they are whole weeks apart. */
  lemma SameWeekday(year: int, month: int, a: int, b: int)
    requires 1 <= month <= 12
    ensures Falls(year, month, a) == Falls(year, month, b) <==> (a - b) % 7 == 0
  {
    CountedIs(DayNumber(year, month, a));
    CountedIs(DayNumber(year, month, b));
    SameOfSeven(DayNumber(year, month, a) + 3, DayNumber(year, month, b) + 3);
    var n := DayNumber(year, month, a);
    assert DayNumber(year, month, b) == n - (a - b);
  }

  /** From a day on, its weekday comes once in every week begun. */
  lemma {:induction false} CountFromDay(year: int, month: int, day: int, last: int)
    requires 1 <= month <= 12 && day <= last
    ensures Count(year, month, day, last, Falls(year, month, day)) == (last - day) / 7 + 1
    decreases last - day
  {
    SameWeekday(year, month, last, day);
    if day < last {
      CountFromDay(year, month, day, last - 1);
    }
  }

  /** The same, counted up to the day. */
  lemma {:induction false} CountToDay(year: int, month: int, first: int, last: int, day: int)
    requires 1 <= month <= 12 && first <= last <= day
    ensures Count(year, month, first, last, Falls(year, month, day)) == (day - first) / 7 - (day - last - 1) / 7
    decreases last - first
  {
    SameWeekday(year, month, last, day);
    if first < last {
      CountToDay(year, month, first, last - 1, day);
    }
  }

  lemma NthMatches(d: Date, nth: int)
    requires Calendar.Valid(d)
    ensures IsNth(d, nth) <==> nth == (d.day - 1) / 7 + 1 || nth == -((MonthLength(d.year, d.month) - d.day) / 7 + 1)
  {
    CountToDay(d.year, d.month, 1, d.day, d.day);
    CountFromDay(d.year, d.month, d.day, MonthLength(d.year, d.month));
  }

  /** A date matches exactly when the rule recurs on it. */
  lemma MatchesIffRecurs(rule: Rule, d: Date)
    requires Calendar.Valid(d)
    ensures DateMatches(rule, d) <==> Recurs(rule, d)
  {
    WeekdayIsCounted(d.year, d.month, d.day);
    if rule.freq == Monthly {
      DayZeroOfNextMonth(d.year, d.month);
      forall nth
        ensures IsNth(d, nth)
          <==> nth == (d.day - 1) / 7 + 1 || nth == -((MonthLength(d.year, d.month) - d.day) / 7 + 1)
      {
        NthMatches(d, nth);
      }
      assert forall n ::
        IsMonthDay(d, n) <==> if n > 0 then n == d.day else MonthLength(d.year, d.month) + n + 1 == d.day;
    }
  }

  // ---------------------------------------------------------------------------
  // Openings
  // ---------------------------------------------------------------------------

  /** The window opens at `t` for the hour and minute on the date of a day number. */
  ghost predicate OpensAt(w: Window, zone: Zone, day: int, hour: int, minute: int, t: int) {
    && Recurs(w.rule, DateOf(day)) && DateOf(day) !in w.blackout
    && hour in w.rule.byHour && minute in w.rule.byMinute
    && t == ZonedToInstant(Parts(day, hour, minute), zone)
  }

  /** The window opens at `t` for some time on the date of a day number. */
  ghost predicate OpensOn(w: Window, zone: Zone, day: int, t: int) {
    exists hour, minute :: OpensAt(w, zone, day, hour, minute, t)
  }

  /** The window opens at `t`. */
  ghost predicate Opens(w: Window, zone: Zone, t: int) {
    exists day :: OpensOn(w, zone, day, t)
  }

  ghost predicate OpensOnDays(w: Window, zone: Zone, first: int, end: int, t: int) {
    exists day :: first <= day < end && OpensOn(w, zone, day, t)
  }

  predicate WithinDay(zone: Zone, t: int) {
    -DAY <= zone(t) <= DAY
  }

  /** Within a few days of each other the clock has changed by no more than a day. */
  predicate Close(zone: Zone, s: int, t: int) {
    -4 * DAY <= s - t <= 4 * DAY ==> zone(s) - zone(t) <= DAY
  }

  /** A clock within a day of UTC, in whole minutes, that over any few days is changed by no more than a day in all. */
  ghost predicate Reasonable(zone: Zone) {
    WholeMinutes(zone) && (forall t :: WithinDay(zone, t)) && (forall s, t :: Close(zone, s, t))
  }

  /** Such as one that leaves out a whole day, going from ten hours behind UTC to fourteen ahead. */
  lemma LeavingOutADayIsReasonable(change: int)
    ensures Reasonable(Changing(change, -10 * HOUR, 14 * HOUR))
  {
  }

  /** An opening within the range is on one of the dates that the walk visits. */
  lemma WalkMissesNothing(w: Window, zone: Zone, from: int, until: int, day: int, hour: int, minute: int, t: int)
    requires Parsed(w.rule) && Reasonable(zone)
    requires OpensAt(w, zone, day, hour, minute, t) && from <= t < until
    ensures ZonedParts(from - DAY, zone).day <= day && day * 86_400_000 <= until + 2 * DAY
  {
    var x := InstantHasAnOffset(Parts(day, hour, minute), zone);
    var wall := t + zone(x);
    assert WithinDay(zone, x) && WithinDay(zone, from - DAY) && Close(zone, from - DAY, x);
    var local := from - DAY + zone(from - DAY);
    assert local <= wall < (day + 1) * 86_400_000;
  }

  /** The openings of one date, within the range. */
  method OpeningsOnDay(w: Window, zone: Zone, day: int, from: int, until: int) returns (out: seq<int>)
    requires DateMatches(w.rule, DateOf(day)) && DateOf(day) !in w.blackout
    ensures forall t :: t in out <==> from <= t < until && OpensOn(w, zone, day, t)
  {
    MatchesIffRecurs(w.rule, DateOf(day));
    out := [];
    for h := 0 to |w.rule.byHour|
      invariant forall t :: t in out <==>
        from <= t < until
          && (exists hour, minute :: hour in w.rule.byHour[..h] && OpensAt(w, zone, day, hour, minute, t))
    {
      var hour := w.rule.byHour[h];
      ghost var before := out;
      for m := 0 to |w.rule.byMinute|
        invariant forall t :: t in out <==>
          (t in before
           || (from <= t < until
               && exists minute :: minute in w.rule.byMinute[..m] && OpensAt(w, zone, day, hour, minute, t)))
      {
        var minute := w.rule.byMinute[m];
        var at := ZonedToInstant(Parts(day, hour, minute), zone);
        assert OpensAt(w, zone, day, hour, minute, at);
        if from <= at < until {
          out := out + [at];
        }
        assert w.rule.byMinute[..m + 1] == w.rule.byMinute[..m] + [minute];
      }
      assert w.rule.byMinute[..|w.rule.byMinute|] == w.rule.byMinute;
      assert w.rule.byHour[..h + 1] == w.rule.byHour[..h] + [hour];
    }
    assert w.rule.byHour[..|w.rule.byHour|] == w.rule.byHour;
  }

  predicate NotAfter(a: int, b: int) {
    a <= b
  }

  /** The elements once each, in the order they first come. */
  function Once(s: seq<int>): (r: seq<int>)
    ensures forall x :: x in r <==> x in s
    ensures Distinct(r)
  {
    if s == [] then []
    else
      var rest, last := Once(s[..|s| - 1]), s[|s| - 1];
      if last in rest then rest else rest + [last]
  }

  function Ascending(s: seq<int>): (r: seq<int>)
    ensures forall x :: x in r <==> x in s
    ensures forall i, j :: 0 <= i < j < |r| ==> r[i] < r[j]
  {
    StableSortElements(Once(s), NotAfter);
    StableSortSorts(Once(s), NotAfter);
    StableSortDistinct(Once(s), NotAfter);
    StableSort(Once(s), NotAfter)
  }

  /** Every opening from `from` on and before `until`, once each and in order. */
  method Openings(w: Window, zone: Zone, from: int, until: int) returns (out: seq<int>)
    requires Parsed(w.rule) && Reasonable(zone)
    ensures forall t :: t in out <==> from <= t < until && Opens(w, zone, t)
    ensures forall i, j :: 0 <= i < j < |out| ==> out[i] < out[j]
  {
    var found := [];
    var start := ZonedParts(from - DAY, zone).day;
    var cursor := start * 86_400_000;
    var end := until + 2 * DAY;
    ghost var day := start;
    while cursor <= end
      invariant cursor == day * 86_400_000 && start <= day
      invariant forall t :: t in found <==> from <= t < until && OpensOnDays(w, zone, start, day, t)
      decreases end - cursor
    {
      var date := DateOf(cursor / 86_400_000);
      assert cursor / 86_400_000 == day;
      ghost var before := found;
      if date !in w.blackout && DateMatches(w.rule, date) {
        var these := OpeningsOnDay(w, zone, cursor / 86_400_000, from, until);
        found := found + these;
      }
      NextDay(w, zone, start, day, from, until, before, found);
      cursor := cursor + DAY;
      day := day + 1;
    }
    forall t | from <= t < until && Opens(w, zone, t) ensures OpensOnDays(w, zone, start, day, t) {
      var d :| OpensOn(w, zone, d, t);
      var h, m :| OpensAt(w, zone, d, h, m, t);
      WalkMissesNothing(w, zone, from, until, d, h, m, t);
    }
    out := Ascending(found);
  }

  lemma NextDay(w: Window, zone: Zone, start: int, day: int, from: int, until: int, before: seq<int>, found: seq<int>)
    requires start <= day
    requires forall t :: t in before <==> from <= t < until && OpensOnDays(w, zone, start, day, t)
    requires if DateOf(day) !in w.blackout && DateMatches(w.rule, DateOf(day))
             then forall t :: t in found <==> t in before || (from <= t < until && OpensOn(w, zone, day, t))
             else found == before
    ensures forall t :: t in found <==> from <= t < until && OpensOnDays(w, zone, start, day + 1, t)
  {
    forall t
      ensures OpensOnDays(w, zone, start, day + 1, t)
        <==> OpensOnDays(w, zone, start, day, t) || OpensOn(w, zone, day, t)
    {
      OneDayMore(w, zone, start, day, t);
    }
    if DateOf(day) in w.blackout || !DateMatches(w.rule, DateOf(day)) {
      NothingOpens(w, zone, day);
    }
  }

  lemma OneDayMore(w: Window, zone: Zone, start: int, day: int, t: int)
    requires start <= day
    ensures OpensOnDays(w, zone, start, day + 1, t) <==> OpensOnDays(w, zone, start, day, t) || OpensOn(w, zone, day, t)
  {
  }

  lemma NothingOpens(w: Window, zone: Zone, day: int)
    requires DateOf(day) in w.blackout || !DateMatches(w.rule, DateOf(day))
    ensures forall t :: !OpensOn(w, zone, day, t)
  {
    MatchesIffRecurs(w.rule, DateOf(day));
  }

  // ---------------------------------------------------------------------------
  // What the clock shows at an opening
  // ---------------------------------------------------------------------------

  /** Offsets within twelve hours, and at most one change within as much of the wall-clock time. */
  ghost predicate SteadyAround(zone: Zone, wall: int) {
    exists change, a, b :: OneChange(zone, wall, HALF_DAY, change, a, b)
  }

  ghost predicate Steady(zone: Zone) {
    forall wall :: SteadyAround(zone, wall)
  }

  /** The first instant whose clock shows the time; of a time that is skipped, the same reading at the offset before. */
  ghost predicate Happens(zone: Zone, wall: int, t: int) {
    if exists u :: Shows(zone, u, wall) then Shows(zone, t, wall) && forall u :: Shows(zone, u, wall) ==> t <= u
    else exists change, a, b :: OneChange(zone, wall, HALF_DAY, change, a, b) && t == wall - a
  }

  lemma SkippedReading(zone: Zone, wall: int, change: int, a: int, b: int)
    requires OneChange(zone, wall, HALF_DAY, change, a, b) && forall u :: !Shows(zone, u, wall)
    ensures Expected(wall, change, a, b) == wall - a
  {
    ExpectedIsTheMeaning(zone, wall, HALF_DAY, change, a, b);
  }

  /** The old offset is the one half a day before, whatever change one looks at. */
  lemma OneOldOffset(zone: Zone, wall: int, change: int, a: int, b: int)
    requires OneChange(zone, wall, HALF_DAY, change, a, b) && forall u :: !Shows(zone, u, wall)
    ensures a == zone(wall - HALF_DAY)
  {
    SkippedReading(zone, wall, change, a, b);
    if change <= wall - HALF_DAY {
      assert zone(wall - b) == b;
      assert Shows(zone, wall - b, wall);
    }
  }

  lemma HappensIffExpected(zone: Zone, wall: int, change: int, a: int, b: int, t: int)
    requires OneChange(zone, wall, HALF_DAY, change, a, b)
    ensures Happens(zone, wall, t) <==> t == Expected(wall, change, a, b)
  {
    ExpectedIsTheMeaning(zone, wall, HALF_DAY, change, a, b);
    if !exists u :: Shows(zone, u, wall) {
      OneOldOffset(zone, wall, change, a, b);
      if change', a', b' :| OneChange(zone, wall, HALF_DAY, change', a', b') && t == wall - a' {
        OneOldOffset(zone, wall, change', a', b');
      }
    }
  }

  lemma ConvertedHappens(zone: Zone, at: Parts, t: int)
    requires WellFormed(at) && Steady(zone)
    ensures t == ZonedToInstant(at, zone) <==> Happens(zone, AsUtc(at), t)
  {
    assert SteadyAround(zone, AsUtc(at));
    var change, a, b :| OneChange(zone, AsUtc(at), HALF_DAY, change, a, b);
    ConversionIsRightWithinTwelveHours(at, zone, change, a, b);
    HappensIffExpected(zone, AsUtc(at), change, a, b, t);
  }

  /** The date is one of the rule and not blacked out, the rule lists the time, and that is when it happens. */
  ghost predicate Due(w: Window, zone: Zone, day: int, hour: int, minute: int, t: int) {
    && Recurs(w.rule, DateOf(day)) && DateOf(day) !in w.blackout
    && hour in w.rule.byHour && minute in w.rule.byMinute
    && Happens(zone, AsUtc(Parts(day, hour, minute)), t)
  }

  /** A window opens exactly at the instants at which, by the clock of its zone, one of its times happens. */
  lemma OpensIffDue(w: Window, zone: Zone, t: int)
    requires Parsed(w.rule) && Steady(zone)
    ensures Opens(w, zone, t) <==> exists day, hour, minute :: Due(w, zone, day, hour, minute, t)
  {
    forall day, hour, minute ensures OpensAt(w, zone, day, hour, minute, t) <==> Due(w, zone, day, hour, minute, t) {
      if hour in w.rule.byHour && minute in w.rule.byMinute {
        ConvertedHappens(zone, Parts(day, hour, minute), t);
      }
    }
    if day, hour, minute :| Due(w, zone, day, hour, minute, t) {
      assert OpensAt(w, zone, day, hour, minute, t) && OpensOn(w, zone, day, t);
    }
    if day :| OpensOn(w, zone, day, t) {
      var hour, minute :| OpensAt(w, zone, day, hour, minute, t);
      assert Due(w, zone, day, hour, minute, t);
    }
  }

  // ---------------------------------------------------------------------------
  // The state of a window
  // ---------------------------------------------------------------------------

  datatype State = State(open: bool, openedAt: Option<int>, closesAt: Option<int>, nextOpening: Option<int>)

  ghost function OpeningTimes(w: Window, zone: Zone): int -> bool {
    t => Opens(w, zone, t)
  }

  /** Some opening is no longer ago than the window lasts. */
  ghost predicate IsOpen(opens: int -> bool, now: int, duration: int) {
    exists o :: opens(o) && o <= now < o + duration
  }

  /** The last opening up to `now`. */
  ghost predicate IsLastOpening(opens: int -> bool, now: int, o: int) {
    opens(o) && o <= now && forall p :: opens(p) && p <= now ==> p <= o
  }

  /** The first opening after `now` and before `until`, if there is one. */
  ghost predicate IsNextOpening(opens: int -> bool, now: int, until: int, next: Option<int>) {
    match next
    case None => forall o :: now < o < until ==> !opens(o)
    case Some(n) => now < n < until && opens(n) && forall o :: now < o && opens(o) ==> n <= o
  }

  /** What a window's state is to be, by the times at which it opens. */
  ghost predicate IsState(opens: int -> bool, now: int, duration: int, state: State) {
    && (state.open <==> IsOpen(opens, now, duration))
    && (if state.open
        then state.openedAt.Some? && IsLastOpening(opens, now, state.openedAt.value)
             && state.closesAt == Some(state.openedAt.value + duration)
        else state.openedAt == None && state.closesAt == None)
    && IsNextOpening(opens, now, now + 400 * DAY, state.nextOpening)
  }

  lemma LastOfRecent(opens: int -> bool, now: int, duration: int, recent: seq<int>)
    requires forall t :: t in recent <==> now - duration <= t < now + 1 && opens(t)
    requires forall i, j :: 0 <= i < j < |recent| ==> recent[i] < recent[j]
    ensures recent != [] ==> IsLastOpening(opens, now, recent[|recent| - 1])
    ensures IsOpen(opens, now, duration) <==> recent != [] && now < recent[|recent| - 1] + duration
  {
    if recent != [] {
      var last := recent[|recent| - 1];
      assert last in recent;
      forall p | opens(p) && p <= now ensures p <= last {
        if now - duration <= p {
          assert p in recent;
        }
      }
    }
    forall o | opens(o) && o <= now < o + duration ensures o in recent {}
  }

  lemma FirstOfComing(opens: int -> bool, now: int, until: int, coming: seq<int>)
    requires forall t :: t in coming <==> now + 1 <= t < until && opens(t)
    requires forall i, j :: 0 <= i < j < |coming| ==> coming[i] < coming[j]
    ensures IsNextOpening(opens, now, until, if coming == [] then None else Some(coming[0]))
  {
    if coming != [] {
      assert coming[0] in coming;
      forall o | now < o && opens(o) ensures coming[0] <= o {
        if o < until {
          assert o in coming;
        }
      }
    }
  }

  /** What is reported when the last opening and the next are known. */
  function Reported(openedAt: Option<int>, now: int, duration: int, next: Option<int>): State {
    if openedAt.Some? && now < openedAt.value + duration
    then State(true, openedAt, Some(openedAt.value + duration), next)
    else State(false, None, None, next)
  }

  lemma ReportedIs(opens: int -> bool, now: int, duration: int, openedAt: Option<int>, next: Option<int>)
    requires openedAt.Some? ==> IsLastOpening(opens, now, openedAt.value)
    requires IsOpen(opens, now, duration) <==> openedAt.Some? && now < openedAt.value + duration
    requires IsNextOpening(opens, now, now + 400 * DAY, next)
    ensures IsState(opens, now, duration, Reported(openedAt, now, duration, next))
  {
  }

  /**
   * A window is open exactly when it opened no longer ago than it lasts; it is
   * said to have opened at the last such time, and the next opening is the first
   * in the coming 400 days.
   */
  method WindowState(w: Window, zone: Zone, now: int) returns (state: State)
    requires Parsed(w.rule) && Reasonable(zone)
    ensures IsState(OpeningTimes(w, zone), now, w.durationMinutes * 60_000, state)
  {
    var duration := w.durationMinutes * 60_000;
    var openedAt := LastOpening(w, zone, now, duration);
    var next := NextOpening(w, zone, now, now + 400 * DAY);
    state := Reported(openedAt, now, duration, next);
    ReportedIs(OpeningTimes(w, zone), now, duration, openedAt, next);
  }

  method LastOpening(w: Window, zone: Zone, now: int, duration: int) returns (openedAt: Option<int>)
    requires Parsed(w.rule) && Reasonable(zone)
    ensures openedAt.Some? ==> IsLastOpening(OpeningTimes(w, zone), now, openedAt.value)
    ensures IsOpen(OpeningTimes(w, zone), now, duration) <==> openedAt.Some? && now < openedAt.value + duration
  {
    var recent := Openings(w, zone, now - duration, now + 1);
    LastOfRecent(OpeningTimes(w, zone), now, duration, recent);
    openedAt := if recent != [] then Some(recent[|recent| - 1]) else None;
  }

  method NextOpening(w: Window, zone: Zone, now: int, until: int) returns (next: Option<int>)
    requires Parsed(w.rule) && Reasonable(zone)
    ensures IsNextOpening(OpeningTimes(w, zone), now, until, next)
  {
    var coming := Openings(w, zone, now + 1, until);
    FirstOfComing(OpeningTimes(w, zone), now, until, coming);
    next := if coming != [] then Some(coming[0]) else None;
  }
}
