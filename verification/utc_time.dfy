/**
 `LocalDateTime.ofInstant(Instant.ofEpochMilli(t), ZoneId.of("UTC"))`, reduced to
 the three fields the source reads: day of week, hour and minute. Epoch
 milliseconds become epoch seconds by floor division, seconds become a day count
 and a second of the day by floor division and modulus (Dafny's `/` and `%` agree
 with Java's `floorDiv`/`floorMod` for a positive divisor), and day 0,
 1970-01-01, was a Thursday.
 */
module UtcTime {

  const MillisPerSecond: int := 1000
  const SecondsPerMinute: int := 60
  const SecondsPerHour: int := 3600
  const SecondsPerDay: int := 86400
  const MinutesPerHour: int := 60
  const HoursPerDay: int := 24
  const DaysPerWeek: int := 7
  const MillisPerMinute: int := 60000
  const MinutesPerDay: int := 1440
  const MinutesPerWeek: int := 10080
  const MillisPerWeek: int := 604800000
  /** The ordinal of Thursday, the weekday of epoch day 0. */
  const EpochDayOfWeek: int := 3

  /** `java.time.DayOfWeek`, in its declaration order (ordinal 0 is Monday). */
  datatype DayOfWeek = MONDAY | TUESDAY | WEDNESDAY | THURSDAY | FRIDAY | SATURDAY | SUNDAY

  /** `DayOfWeek.ordinal()`. */
  function Ordinal(d: DayOfWeek): (n: int)
    ensures 0 <= n < 7
  {
    match d
    case MONDAY => 0
    case TUESDAY => 1
    case WEDNESDAY => 2
    case THURSDAY => 3
    case FRIDAY => 4
    case SATURDAY => 5
    case SUNDAY => 6
  }

  /** `DayOfWeek.of(n + 1)`: the day with ordinal `n`. */
  function DayOfWeekOf(n: int): (d: DayOfWeek)
    requires 0 <= n < 7
    ensures Ordinal(d) == n
  {
    if n == 0 then MONDAY
    else if n == 1 then TUESDAY
    else if n == 2 then WEDNESDAY
    else if n == 3 then THURSDAY
    else if n == 4 then FRIDAY
    else if n == 5 then SATURDAY
    else SUNDAY
  }

  /** `Instant.ofEpochMilli(ms).getEpochSecond()`: `floorDiv(ms, 1000)`. */
  function EpochSecond(ms: int): int
  {
    ms / MillisPerSecond
  }

  /** `LocalDate.toEpochDay()` of the UTC date: `floorDiv(second, 86400)`. */
  function EpochDay(ms: int): int
  {
    EpochSecond(ms) / SecondsPerDay
  }

  /** The second within the UTC day: `floorMod(second, 86400)`. */
  function SecondOfDay(ms: int): int
  {
    EpochSecond(ms) % SecondsPerDay
  }

  /**
   `LocalDate.getDayOfWeek()`: `DayOfWeek.of(floorMod(epochDay + 3, 7) + 1)`; its
   ordinal is the number of whole days into the week, counted from Monday.
   */
  function DayOfWeekAt(ms: int): (d: DayOfWeek)
    ensures Ordinal(d) == MinuteOfWeek(ms) / MinutesPerDay
  {
    FieldsFromMinutes(ms);
    MinuteOfWeekFields(ms / MillisPerMinute);
    DayOfWeekOf((EpochDay(ms) + EpochDayOfWeek) % DaysPerWeek)
  }

  /** `LocalDateTime.getHour()` in UTC: the whole hours into the day of the week's minute. */
  function HourAt(ms: int): (h: int)
    ensures 0 <= h < HoursPerDay
    ensures h == MinuteOfWeek(ms) % MinutesPerDay / MinutesPerHour
  {
    FieldsFromMinutes(ms);
    MinuteOfWeekFields(ms / MillisPerMinute);
    SecondOfDay(ms) / SecondsPerHour
  }

  /** `LocalDateTime.getMinute()` in UTC: the minute of the week's minute within its hour. */
  function MinuteAt(ms: int): (m: int)
    ensures 0 <= m < MinutesPerHour
    ensures m == MinuteOfWeek(ms) % MinutesPerHour
  {
    FieldsFromMinutes(ms);
    MinuteOfDayFields(ms / MillisPerMinute);
    MinuteOfWeekFields(ms / MillisPerMinute);
    SecondOfDay(ms) / SecondsPerMinute % MinutesPerHour
  }

  /** A weekly time slot: day of week, hour and minute. */
  datatype Slot = Slot(day: DayOfWeek, hour: int, minute: int)
  {
    predicate Valid()
    {
      0 <= hour < HoursPerDay && 0 <= minute < MinutesPerHour
    }
  }

  /**
   The UTC day of week, hour and minute of an epoch-millisecond instant: a
   valid slot, the one its minute of the week names.
   */
  function SlotAt(ms: int): (s: Slot)
    ensures s.Valid()
    ensures s == SlotOfMinute(MinuteOfWeek(ms))
  {
    Slot(DayOfWeekAt(ms), HourAt(ms), MinuteAt(ms))
  }

  /**
   An independent account of the same fields: the number of whole minutes
   since the most recent Monday 00:00 UTC. The epoch began on a Thursday, three
   days into its week.
   */
  function MinuteOfWeek(ms: int): (w: int)
    ensures 0 <= w < MinutesPerWeek
  {
    (ms / MillisPerMinute + EpochDayOfWeek * MinutesPerDay) % MinutesPerWeek
  }

  /** The slot named by a minute of the week. */
  function SlotOfMinute(w: int): (s: Slot)
    requires 0 <= w < MinutesPerWeek
    ensures s.Valid()
  {
    Slot(DayOfWeekOf(w / MinutesPerDay), w % MinutesPerDay / MinutesPerHour, w % MinutesPerHour)
  }

  /** The minute of the week a valid slot names. */
  function MinuteOfSlot(s: Slot): (w: int)
    requires s.Valid()
    ensures 0 <= w < MinutesPerWeek
  {
    Ordinal(s.day) * MinutesPerDay + s.hour * MinutesPerHour + s.minute
  }

  /** Whole seconds then whole minutes give the whole minutes. */
  lemma SecondsToMinutes(ms: int)
    ensures ms / MillisPerSecond / SecondsPerMinute == ms / MillisPerMinute
  {
  }

  /** The day and the minute of the day, read from seconds or from minutes. */
  lemma SecondsToDayAndMinute(sec: int)
    ensures sec / SecondsPerDay == sec / SecondsPerMinute / MinutesPerDay
    ensures sec % SecondsPerDay / SecondsPerMinute == sec / SecondsPerMinute % MinutesPerDay
  {
  }

  /** The minute of the hour, read from the minute of the day. */
  lemma MinuteOfDayFields(m: int)
    ensures m % MinutesPerDay % MinutesPerHour == m % MinutesPerHour
  {
  }

  /** Day of week and minute of the day, read from the minute of the week. */
  lemma MinuteOfWeekFields(m: int)
    ensures (m + EpochDayOfWeek * MinutesPerDay) % MinutesPerWeek / MinutesPerDay == (m / MinutesPerDay + EpochDayOfWeek) % DaysPerWeek
    ensures (m + EpochDayOfWeek * MinutesPerDay) % MinutesPerWeek % MinutesPerDay == m % MinutesPerDay
  {
    var day, minute := m / MinutesPerDay, m % MinutesPerDay;
    var shifted := day + EpochDayOfWeek;
    var week, weekday := shifted / DaysPerWeek, shifted % DaysPerWeek;
    assert m + EpochDayOfWeek * MinutesPerDay == week * MinutesPerWeek + (weekday * MinutesPerDay + minute);
    assert 0 <= weekday * MinutesPerDay + minute < MinutesPerWeek;
    assert (m + EpochDayOfWeek * MinutesPerDay) % MinutesPerWeek == weekday * MinutesPerDay + minute;
  }

  /** The UTC date and time of day, in terms of whole minutes since the epoch. */
  lemma FieldsFromMinutes(ms: int)
    ensures EpochDay(ms) == ms / MillisPerMinute / MinutesPerDay
    ensures SecondOfDay(ms) / SecondsPerMinute == ms / MillisPerMinute % MinutesPerDay
  {
    SecondsToMinutes(ms);
    SecondsToDayAndMinute(ms / MillisPerSecond);
  }

  /** A slot and its minute of the week determine each other. */
  lemma SlotMinuteRoundTrip(s: Slot, w: int)
    requires s.Valid() && 0 <= w < MinutesPerWeek
    ensures SlotOfMinute(MinuteOfSlot(s)) == s
    ensures MinuteOfSlot(SlotOfMinute(w)) == w
  {
  }

  /**
   Two instants share their UTC day of week, hour and minute exactly when they
   fall in the same minute of the week.
   */
  lemma SameSlotIffSameMinuteOfWeek(a: int, b: int)
    ensures SlotAt(a) == SlotAt(b) <==> MinuteOfWeek(a) == MinuteOfWeek(b)
  {
    SlotMinuteRoundTrip(SlotAt(a), MinuteOfWeek(a));
    SlotMinuteRoundTrip(SlotAt(b), MinuteOfWeek(b));
  }

  /** Shifting an instant by any whole number of weeks keeps its slot. */
  lemma SlotRepeatsWeekly(ms: int, n: int)
    ensures SlotAt(ms + n * MillisPerWeek) == SlotAt(ms)
  {
    var q := ms / MillisPerMinute;
    var k := n * MinutesPerWeek;
    assert ms == q * MillisPerMinute + ms % MillisPerMinute;
    assert ms + n * MillisPerWeek == (q + k) * MillisPerMinute + ms % MillisPerMinute;
    assert (ms + n * MillisPerWeek) / MillisPerMinute == q + k;
    var x := q + EpochDayOfWeek * MinutesPerDay;
    assert x + k == (x / MinutesPerWeek + n) * MinutesPerWeek + x % MinutesPerWeek;
    assert (x + k) % MinutesPerWeek == x % MinutesPerWeek;
    SameSlotIffSameMinuteOfWeek(ms + n * MillisPerWeek, ms);
  }

  /** The epoch itself is Thursday 00:00 UTC. */
  lemma EpochIsThursdayMidnight()
    ensures SlotAt(0) == Slot(THURSDAY, 0, 0)
  {
  }
}
