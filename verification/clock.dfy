/** Instants as whole seconds since 1970-01-01 00:00 (UTC, naive), and the
    two fields of a Python `timedelta` the services read. A `timedelta` is
    normalised to `days * 86400 + seconds` with `0 <= seconds < 86400`;
    microseconds are not modelled. */
module Clock {

  const SecondsPerDay := 86400
  const SecondsPerHour := 3600

  /** `timedelta.days` of a delta given in seconds. */
  function DeltaDays(delta: int): (d: int)
    ensures d * SecondsPerDay <= delta < (d + 1) * SecondsPerDay
  {
    delta / SecondsPerDay
  }

  /** `timedelta.seconds`: the part of the delta below one day, never
      negative, whole days dropped. */
  function DeltaSeconds(delta: int): (s: int)
    ensures 0 <= s < SecondsPerDay
    ensures (delta - s) % SecondsPerDay == 0
  {
    delta % SecondsPerDay
  }

  /** The two fields put back together give the delta. */
  lemma DeltaRecombines(delta: int)
    ensures DeltaDays(delta) * SecondsPerDay + DeltaSeconds(delta) == delta
  {
  }

  /** The normalisation is unique: any `(q, r)` with `0 <= r < 86400` that
      adds up to the delta is `(days, seconds)`. */
  lemma DeltaNormalisationUnique(delta: int, q: int, r: int)
    requires 0 <= r < SecondsPerDay && q * SecondsPerDay + r == delta
    ensures q == DeltaDays(delta) && r == DeltaSeconds(delta)
  {
    DeltaRecombines(delta);
  }

  /** Python's `abs`. */
  function Abs(x: int): (r: nat)
    ensures r == x || r == -x
  {
    if x < 0 then -x else x
  }

  /** The proleptic Gregorian day number of a date, 0001-01-01 being day 1:
      `date.toordinal()`. */
  function Ordinal(year: int, month: int, day: int): int
    requires 1 <= month <= 12
  {
    var y := year - 1;
    365 * y + y / 4 - y / 100 + y / 400 + DaysBeforeMonth(year, month) + day
  }

  predicate IsLeap(year: int) {
    year % 4 == 0 && (year % 100 != 0 || year % 400 == 0)
  }

  function DaysInMonth(year: int, month: int): (n: int)
    requires 1 <= month <= 12
    ensures 28 <= n <= 31
  {
    if month == 2 then (if IsLeap(year) then 29 else 28)
    else if month == 4 || month == 6 || month == 9 || month == 11 then 30
    else 31
  }

  function DaysBeforeMonth(year: int, month: int): int
    requires 1 <= month <= 12
    decreases month
  {
    if month == 1 then 0 else DaysBeforeMonth(year, month - 1) + DaysInMonth(year, month - 1)
  }

  /** Midnight at the start of a date, in seconds since the epoch. */
  function Midnight(year: int, month: int, day: int): int
    requires 1 <= month <= 12
  {
    (Ordinal(year, month, day) - Ordinal(1970, 1, 1)) * SecondsPerDay
  }

  /** `datetime(year=2000, month=12, day=31)`: what the store reports when a
      service has never recorded a run. */
  const Sentinel: int := 978220800

  lemma SentinelIsLastDayOf2000()
    ensures Sentinel == Midnight(2000, 12, 31)
  {
    assert DaysBeforeMonth(2000, 12) == 335;
  }
}
