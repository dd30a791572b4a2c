/**
 * Wall-clock times and instants in a time zone (packages/shared/src/rrule.ts).
 *
 * Instants and wall-clock times are milliseconds; a zone is how far its clock is
 * ahead of UTC at each instant. A local date is given by its day number: module
 * Calendar shows that numbers and dates correspond one to one.
 */
module TimeZones {
  import opened Calendar

  // A minute is 60_000 ms, an hour 3_600_000 ms, a day 86_400_000 ms. Products and
  // quotients are written with the numbers, which keeps them linear for the verifier.
  const HOUR := 3_600_000
  const HALF_DAY := 43_200_000
  const DAY := 86_400_000

  type Zone = int -> int

  datatype Parts = Parts(day: int, hour: int, minute: int)

  /** The wall-clock fields of an instant. */
  function ZonedParts(instant: int, zone: Zone): (p: Parts)
    ensures WellFormed(p)
  {
    var local := instant + zone(instant);
    Parts(local / 86_400_000, (local % 86_400_000) / 3_600_000, (local % 3_600_000) / 60_000)
  }

  /** `Date.UTC` of the fields: the wall-clock time as if it were UTC. */
  function AsUtc(p: Parts): int {
    p.day * 86_400_000 + p.hour * 3_600_000 + p.minute * 60_000
  }

  function OffsetAt(instant: int, zone: Zone): int {
    AsUtc(ZonedParts(instant, zone)) - (instant / 60_000) * 60_000
  }

  /** The instant a local wall-clock time happens. */
  function ZonedToInstant(at: Parts, zone: Zone): int {
    var wall := AsUtc(at);
    var before := wall - OffsetAt(wall - HALF_DAY, zone);
    var after := wall - OffsetAt(wall + HALF_DAY, zone);
    FirstReal(before, after, IsReal(at, zone, before), IsReal(at, zone, after))
  }

  /** The clock shows the time at that instant. */
  predicate IsReal(at: Parts, zone: Zone, instant: int) {
    ZonedParts(instant, zone) == at
  }

  /** The least candidate that is real; the first when neither is. */
  function FirstReal(before: int, after: int, beforeReal: bool, afterReal: bool): int {
    if beforeReal then (if afterReal && after < before then after else before)
    else if afterReal then after
    else before
  }

  // ---------------------------------------------------------------------------
  // What the fields and the offset are
  // ---------------------------------------------------------------------------

  predicate WholeMinute(zone: Zone, t: int) {
    zone(t) % 60_000 == 0
  }

  ghost predicate WholeMinutes(zone: Zone) {
    forall t :: WholeMinute(zone, t)
  }

  predicate WellFormed(p: Parts) {
    0 <= p.hour < 24 && 0 <= p.minute < 60
  }

  lemma SplitHour(x: int)
    ensures (x % 86_400_000) % 3_600_000 == x % 3_600_000
  {
    var q, r := x / 86_400_000, x % 86_400_000;
    DivisionIsUnique(x, 3_600_000, 24 * q + r / 3_600_000, r % 3_600_000);
  }

  lemma SplitMinute(x: int)
    ensures (x % 3_600_000) % 60_000 == x % 60_000
  {
    var q, r := x / 3_600_000, x % 3_600_000;
    DivisionIsUnique(x, 60_000, 60 * q + r / 60_000, r % 60_000);
  }

  lemma AddWholeMinutes(x: int, k: int)
    requires k % 60_000 == 0
    ensures (x + k) % 60_000 == x % 60_000
  {
    DivisionIsUnique(x + k, 60_000, x / 60_000 + k / 60_000, x % 60_000);
  }

  /** The fields of an instant are its wall-clock time, cut to the minute. */
  lemma PartsAreWallClock(instant: int, zone: Zone)
    ensures var local := instant + zone(instant);
            AsUtc(ZonedParts(instant, zone)) == local - local % 60_000
  {
    var local := instant + zone(instant);
    SplitHour(local);
    SplitMinute(local);
  }

  lemma FieldsOfWall(p: Parts, q: Parts)
    requires WellFormed(p) && WellFormed(q) && AsUtc(p) == AsUtc(q)
    ensures p == q
  {
    var inDay, inHour := p.hour * 3_600_000 + p.minute * 60_000, p.minute * 60_000;
    DivisionIsUnique(AsUtc(p), 86_400_000, p.day, inDay);
    DivisionIsUnique(AsUtc(q), 86_400_000, q.day, q.hour * 3_600_000 + q.minute * 60_000);
    DivisionIsUnique(inDay, 3_600_000, p.hour, inHour);
    DivisionIsUnique(inDay, 3_600_000, q.hour, q.minute * 60_000);
  }

  /** A whole minute shows a wall-clock time exactly when its clock reads that time. */
  lemma ShowsIff(t: int, at: Parts, zone: Zone)
    requires WholeMinutes(zone) && WellFormed(at) && t % 60_000 == 0
    ensures ZonedParts(t, zone) == at <==> t + zone(t) == AsUtc(at)
  {
    PartsAreWallClock(t, zone);
    assert WholeMinute(zone, t);
    AddWholeMinutes(t, zone(t));
    if t + zone(t) == AsUtc(at) {
      FieldsOfWall(ZonedParts(t, zone), at);
    }
  }

  /** The offset read from the fields is the zone's. */
  lemma OffsetIsZone(instant: int, zone: Zone)
    requires WholeMinutes(zone)
    ensures OffsetAt(instant, zone) == zone(instant)
  {
    PartsAreWallClock(instant, zone);
    assert WholeMinute(zone, instant);
    AddWholeMinutes(instant, zone(instant));
  }

  lemma WallIsWholeMinutes(at: Parts)
    ensures AsUtc(at) % 60_000 == 0
  {
    DivisionIsUnique(AsUtc(at), 60_000, 1440 * at.day + 60 * at.hour + at.minute, 0);
  }

  // ---------------------------------------------------------------------------
  // Around one clock change
  // ---------------------------------------------------------------------------

  /** Within `reach` of the wall-clock time the offset is `a` before `change` and `b` from then on. */
  ghost predicate OneChange(zone: Zone, wall: int, reach: int, change: int, a: int, b: int) {
    && WholeMinutes(zone) && HALF_DAY <= reach
    && -reach <= a <= reach && -reach <= b <= reach
    && (forall t :: -reach <= zone(t) <= reach)
    && (forall t :: wall - reach <= t < change && t <= wall + reach ==> zone(t) == a)
    && (forall t :: change <= t <= wall + reach && wall - reach <= t ==> zone(t) == b)
  }

  /** When the wall-clock time happens: the first instant that shows it, or, when the clock
      skips it, the instant that would show it had the clock not been changed. */
  function Expected(wall: int, change: int, a: int, b: int): int {
    if wall - a < change then wall - a
    else if change <= wall - b then wall - b
    else wall - a
  }

  ghost predicate Shows(zone: Zone, t: int, wall: int) {
    t + zone(t) == wall
  }

  /** `Expected` is the first instant showing the time, the only one, or, when the clock
      skips it, the same reading at the old offset, which lies after the gap. */
  lemma ExpectedIsTheMeaning(zone: Zone, wall: int, reach: int, change: int, a: int, b: int)
    requires OneChange(zone, wall, reach, change, a, b)
    ensures var t := Expected(wall, change, a, b);
            if exists u :: Shows(zone, u, wall) then
              Shows(zone, t, wall) && forall u :: Shows(zone, u, wall) ==> t <= u
            else
              a < b && change <= t && t == wall - a && t + zone(t) == wall + (b - a)
  {
    forall u | Shows(zone, u, wall) ensures (u == wall - a && u < change) || (u == wall - b && change <= u) {
      assert -reach <= zone(u) <= reach;
    }
    if wall - a < change {
      assert Shows(zone, wall - a, wall);
    } else if change <= wall - b {
      assert Shows(zone, wall - b, wall);
    }
  }

  /** The change is so far from the wall-clock time that both readings of the offset miss it, and it matters. */
  predicate MissesChange(wall: int, change: int, a: int, b: int) {
    a != b &&
    if change <= wall - HALF_DAY then wall - a < change || wall - b < change
    else wall + HALF_DAY < change && change <= wall - a && change <= wall - b
  }

  /** The candidate that the offset at `x` gives shows the time exactly when that is its own offset. */
  lemma CandidateShows(at: Parts, zone: Zone, wall: int, x: int)
    requires WellFormed(at) && WholeMinutes(zone) && wall == AsUtc(at)
    ensures ZonedParts(wall - zone(x), zone) == at <==> zone(wall - zone(x)) == zone(x)
  {
    WallIsWholeMinutes(at);
    assert WholeMinute(zone, x);
    AddWholeMinutes(wall - zone(x), zone(x));
    ShowsIff(wall - zone(x), at, zone);
  }

  /** The conversion without calendar dates. */
  function Resolve(wall: int, zone: Zone): int {
    var early, late := zone(wall - HALF_DAY), zone(wall + HALF_DAY);
    FirstReal(wall - early, wall - late, zone(wall - early) == early, zone(wall - late) == late)
  }

  lemma ConversionResolves(at: Parts, zone: Zone, wall: int)
    requires WellFormed(at) && WholeMinutes(zone) && wall == AsUtc(at)
    ensures ZonedToInstant(at, zone) == Resolve(wall, zone)
  {
    CandidatesAre(at, zone, wall, wall - HALF_DAY);
    CandidatesAre(at, zone, wall, wall + HALF_DAY);
  }

  lemma CandidatesAre(at: Parts, zone: Zone, wall: int, x: int)
    requires WellFormed(at) && WholeMinutes(zone) && wall == AsUtc(at)
    ensures OffsetAt(x, zone) == zone(x)
    ensures IsReal(at, zone, wall - OffsetAt(x, zone)) == (zone(wall - zone(x)) == zone(x))
  {
    OffsetIsZone(x, zone);
    CandidateShows(at, zone, wall, x);
  }

  /** Whatever the zone does, the instant is the wall-clock time less an offset the zone has. */
  lemma InstantHasAnOffset(at: Parts, zone: Zone) returns (x: int)
    requires WellFormed(at) && WholeMinutes(zone)
    ensures ZonedToInstant(at, zone) == AsUtc(at) - zone(x)
    ensures x == AsUtc(at) - HALF_DAY || x == AsUtc(at) + HALF_DAY
  {
    ConversionResolves(at, zone, AsUtc(at));
    x := AsUtc(at) - HALF_DAY;
    if ZonedToInstant(at, zone) != AsUtc(at) - zone(x) {
      x := AsUtc(at) + HALF_DAY;
    }
  }

  /**
   * The conversion finds when a wall-clock time happens exactly when the change
   * is not one its two readings, half a day either side, both miss.
   */
  lemma ConversionIsRightIff(at: Parts, zone: Zone, reach: int, change: int, a: int, b: int)
    requires WellFormed(at) && OneChange(zone, AsUtc(at), reach, change, a, b)
    ensures ZonedToInstant(at, zone) == Expected(AsUtc(at), change, a, b) <==> !MissesChange(AsUtc(at), change, a, b)
  {
    ConversionResolves(at, zone, AsUtc(at));
  }

  /** With no offset beyond twelve hours the conversion is always right. */
  lemma ConversionIsRightWithinTwelveHours(at: Parts, zone: Zone, change: int, a: int, b: int)
    requires WellFormed(at) && OneChange(zone, AsUtc(at), HALF_DAY, change, a, b)
    ensures ZonedToInstant(at, zone) == Expected(AsUtc(at), change, a, b)
  {
    ConversionIsRightIff(at, zone, HALF_DAY, change, a, b);
  }

  /** A zone that is `a` ahead before an instant and `b` from then on. */
  function Changing(change: int, a: int, b: int): Zone {
    t => if t < change then a else b
  }

  /** Auckland goes from twelve to thirteen hours ahead at 02:00; 02:30 that night is taken for
      an instant before the change, the one that shows 01:30. */
  lemma AucklandSpringIsMissed(d: int)
    ensures var at := Parts(d, 2, 30);
            var change := d * 86_400_000 - 10 * HOUR;
            var zone := Changing(change, 12 * HOUR, 13 * HOUR);
            && OneChange(zone, AsUtc(at), 13 * HOUR, change, 12 * HOUR, 13 * HOUR)
            && ZonedToInstant(at, zone) < change < Expected(AsUtc(at), change, 12 * HOUR, 13 * HOUR)
            && ZonedParts(ZonedToInstant(at, zone), zone) == Parts(d, 1, 30)
  {
    var at, half := Parts(d, 2, 30), Parts(d, 1, 30);
    var change := d * 86_400_000 - 10 * HOUR;
    var zone := Changing(change, 12 * HOUR, 13 * HOUR);
    forall t ensures zone(t) % 60_000 == 0 {
      assert zone(t) == 43_200_000 || zone(t) == 46_800_000;
    }
    ConversionResolves(at, zone, AsUtc(at));
    CandidateShows(half, zone, AsUtc(half), change - 1);
  }

  /**
   * A skipped time is as far after the gap as its reading is after the gap's start: the first minute after only for the
   * first one skipped.
   */
  lemma SkippedTimeIsNotTheFirstMinute(at: Parts, zone: Zone, change: int, a: int, b: int)
    requires WellFormed(at) && OneChange(zone, AsUtc(at), HALF_DAY, change, a, b)
    requires change <= AsUtc(at) - a && AsUtc(at) - b < change
    ensures ZonedToInstant(at, zone) - change == AsUtc(at) - (change + a)
    ensures ZonedToInstant(at, zone) == change <==> AsUtc(at) == change + a
  {
    ConversionIsRightWithinTwelveHours(at, zone, change, a, b);
  }
}
