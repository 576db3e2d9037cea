/**
 * The notice boards' "dated today or later" test with the time zone put back.
 * `new Date("YYYY-MM-DD")` reads a date-only key as UTC midnight, while
 * `setHours(0, 0, 0, 0)` moves today to local midnight. Instants are counted
 * in minutes from midnight UTC of day number 0, and `offset` is what
 * `getTimezoneOffset()` returns: minutes behind UTC, positive west of Greenwich.
 */
module TimeZone {
  import opened Strings
  import opened Dates
  import NoticeBoard

  const MinutesPerDay := 1440

  /** The instant `new Date(key)` denotes: midnight UTC of the key's day. */
  function KeyInstant(key: Day): (t: int)
    requires ValidDay(key)
    ensures t % MinutesPerDay == 0 && t / MinutesPerDay == DayNumber(key)
  {
    DayNumber(key) * MinutesPerDay
  }

  /** The instant of today's local midnight, for a zone `offset` minutes behind UTC. */
  function LocalMidnight(today: Day, offset: int): (t: int)
    requires ValidDay(today)
    ensures t - offset == KeyInstant(today)
  {
    DayNumber(today) * MinutesPerDay + offset
  }

  /** The boards' test as written: `bookingDate >= today`. */
  predicate SourceDateTest(key: Day, today: Day, offset: int)
    requires ValidDay(key) && ValidDay(today)
  {
    KeyInstant(key) >= LocalMidnight(today, offset)
  }

  /** West of UTC the test rejects today's own key, so today's bookings are not listed. */
  lemma TodayDroppedWestOfUtc(today: Day, offset: int)
    requires ValidDay(today) && offset > 0
    ensures !SourceDateTest(today, today, offset)
  {
  }

  /** At UTC or east of it (by less than a day) the test as written is the calendar order. */
  lemma SourceDateTestEastOfUtc(key: Day, today: Day, offset: int)
    requires ValidDay(key) && ValidDay(today)
    requires -MinutesPerDay < offset <= 0
    ensures SourceDateTest(key, today, offset) <==> DayNumber(key) >= DayNumber(today)
  {
  }

  /** The intended test: the key's day is not before today's, both read as local days. */
  predicate LocalDateTest(key: Day, today: Day)
    requires ValidDay(key) && ValidDay(today)
  {
    !Before(key, today)
  }

  /** The intended test keeps exactly the days numbered today or later, today included. */
  lemma LocalDateTestMeaning(key: Day, today: Day)
    requires ValidDay(key) && ValidDay(today)
    ensures LocalDateTest(key, today) <==> DayNumber(key) >= DayNumber(today)
    ensures LocalDateTest(today, today)
  {
    DayNumberOrder(key, today);
  }

  /**
   * The intended test is the string comparison of the keys that the notice
   * boards are modelled with, and it agrees with the source in every zone
   * from UTC eastwards.
   */
  lemma LocalDateTestIsKeyOrder(key: Day, today: Day, offset: int)
    requires ValidDay(key) && ValidDay(today)
    requires 1000 <= key.year <= 9999 && 1000 <= today.year <= 9999
    requires -MinutesPerDay < offset <= 0
    ensures LocalDateTest(key, today) <==> NoticeBoard.OnOrAfter(FormatDay(key), FormatDay(today))
    ensures LocalDateTest(key, today) <==> SourceDateTest(key, today, offset)
  {
    FormatDateOrder(key, today);
    LocalDateTestMeaning(key, today);
    SourceDateTestEastOfUtc(key, today, offset);
  }
}
