/**
 * The slice of Go's `time` package the core uses: an instant together with
 * the fixed offset of the location it is read in, its local calendar date
 * and clock, `Add`, the midnight test `Hour() == 0 && Minute() == 0 &&
 * Second() == 0`, and `time.Date(y, m, d + 1, 0, 0, 0, 0, loc)`.
 */
module Time {
  import opened Wrappers
  import Civil

  const SecondsPerDay := 86400
  const SecondsPerHour := 3600

  /**
   * An instant: `utc` seconds since 1970-01-01T00:00:00Z, read in a location
   * whose offset is `offset` seconds east of UTC. Nanoseconds are not kept.
   */
  datatype Timestamp = Timestamp(utc: int, offset: int)

  /**
   * The time-zone database (`time.LoadLocation` followed by the zone's current
   * offset): `None` when the name does not resolve, otherwise the offset in
   * seconds east of UTC that the zone has now.
   */
  type ZoneDb = string -> Option<int>

  /** Seconds since 1970-01-01T00:00:00 on the local wall clock. */
  function LocalSeconds(t: Timestamp): int {
    t.utc + t.offset
  }

  /** Day count of the local calendar date. */
  function LocalDay(t: Timestamp): int {
    LocalSeconds(t) / SecondsPerDay
  }

  /** Seconds elapsed on the local clock since the local midnight. */
  function SecondOfDay(t: Timestamp): (s: int)
    ensures 0 <= s < SecondsPerDay
    ensures LocalSeconds(t) == LocalDay(t) * SecondsPerDay + s
  {
    LocalSeconds(t) % SecondsPerDay
  }

  function Date(t: Timestamp): Civil.Date {
    Civil.CivilFromDays(LocalDay(t))
  }

  function Hour(t: Timestamp): (h: int)
    ensures 0 <= h < 24
  {
    SecondOfDay(t) / SecondsPerHour
  }

  function Minute(t: Timestamp): (m: int)
    ensures 0 <= m < 60
  {
    SecondOfDay(t) % SecondsPerHour / 60
  }

  function Second(t: Timestamp): (s: int)
    ensures 0 <= s < 60
  {
    SecondOfDay(t) % 60
  }

  /** The clock reads 00:00:00 in the timestamp's own location. */
  predicate IsMidnight(t: Timestamp) {
    Hour(t) == 0 && Minute(t) == 0 && Second(t) == 0
  }

  /** The midnight test is exactly "the local seconds are a whole number of days". */
  lemma IsMidnightIffWholeDay(t: Timestamp)
    ensures IsMidnight(t) <==> LocalSeconds(t) % SecondsPerDay == 0
    ensures SecondOfDay(t) == Hour(t) * SecondsPerHour + Minute(t) * 60 + Second(t)
  {
  }

  /** `t.Add(d)` for a duration of whole seconds: same location, later instant. */
  function AddSeconds(t: Timestamp, d: int): (r: Timestamp)
    ensures r.offset == t.offset && r.utc - t.utc == d
  {
    Timestamp(t.utc + d, t.offset)
  }

  /** `time.Date(t.Year(), t.Month(), t.Day() + 1, 0, 0, 0, 0, t.Location())` for a fixed-offset location. */
  function NextLocalMidnight(t: Timestamp): Timestamp {
    var d := Date(t);
    var days := Civil.DaysFromCivil(Civil.Date(d.year, d.month, d.day + 1));
    Timestamp(days * SecondsPerDay - t.offset, t.offset)
  }

  /**
   * The next local midnight is the first midnight strictly after `t`: it is
   * midnight in `t`'s location, comes after `t` by at most a day, and from a
   * midnight it is exactly one day later.
   */
  lemma NextLocalMidnightSpec(t: Timestamp)
    ensures var r := NextLocalMidnight(t);
      && r.offset == t.offset && IsMidnight(r)
      && t.utc < r.utc <= t.utc + SecondsPerDay
      && LocalDay(r) == LocalDay(t) + 1
      && (IsMidnight(t) ==> r.utc == t.utc + SecondsPerDay)
  {
    var k := LocalDay(t);
    var r := NextLocalMidnight(t);
    NextLocalMidnightSeconds(t);
    WholeDays(k + 1);
    assert LocalDay(r) == k + 1;
    assert SecondOfDay(r) == 0;
    assert LocalSeconds(t) == k * SecondsPerDay + SecondOfDay(t);
    IsMidnightIffWholeDay(t);
  }

  /** The next local midnight reads, on the local clock, the start of the day after `t`'s. */
  lemma NextLocalMidnightSeconds(t: Timestamp)
    ensures LocalSeconds(NextLocalMidnight(t)) == (LocalDay(t) + 1) * SecondsPerDay
  {
    Civil.DaysFromCivilNextDay(Date(t));
    Civil.DaysFromCivilRoundTrip(LocalDay(t));
  }

  lemma WholeDays(k: int)
    ensures (k * SecondsPerDay) / SecondsPerDay == k && (k * SecondsPerDay) % SecondsPerDay == 0
  {
    var q, m := (k * SecondsPerDay) / SecondsPerDay, (k * SecondsPerDay) % SecondsPerDay;
    assert q * SecondsPerDay + m == k * SecondsPerDay;
    assert (k - q) * SecondsPerDay == m;
  }
}
