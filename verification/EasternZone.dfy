/**
  The business time zone: US Eastern time under section 110 of the Energy Policy Act of
  2005, UTC-5 in winter and UTC-4 from the second Sunday of March at 07:00 UTC to the
  first Sunday of November at 06:00 UTC.  It is proved to be a zone the two probes cover.
 */
module EasternZone {
  import opened Wrappers
  import opened Calendar
  import opened BusinessTimezone
  import opened WallClockMeaning
  import opened WallClockOrder

  const STANDARD := -300
  const DAYLIGHT := -240
  const HOUR := 3600

  function SundayFrom(d: int): int {
    d + (7 - WeekDay(d)) % 7
  }

  /** The second Sunday of March. */
  function SpringDay(y: int): int {
    SundayFrom(MakeDay(y, 2, 8))
  }

  /** The first Sunday of November. */
  function FallDay(y: int): int {
    SundayFrom(MakeDay(y, 10, 1))
  }

  function SpringForward(y: int): int {
    DAY * SpringDay(y) + 7 * HOUR
  }

  function FallBack(y: int): int {
    DAY * FallDay(y) + 6 * HOUR
  }

  function EasternOffset(second: int): int {
    var y := YearOfDay(second / DAY);
    if SpringForward(y) <= second < FallBack(y) then DAYLIGHT else STANDARD
  }

  const EASTERN: Zone := EasternOffset

  // ---- where the transitions fall ----

  lemma NextSunday(d: int)
    ensures d <= SundayFrom(d) <= d + 6 && WeekDay(SundayFrom(d)) == 0
  {
  }

  lemma TransitionDays(y: int)
    ensures DayFromYear(y) + 66 <= SpringDay(y) <= DayFromYear(y) + 73
    ensures DayFromYear(y) + 304 <= FallDay(y) <= DayFromYear(y) + 311
    ensures DayFromYear(y) + 365 <= DayFromYear(y + 1)
    ensures WeekDay(SpringDay(y)) == 0 && WeekDay(FallDay(y)) == 0
  {
    hide DayFromYear, Leap, WeekDay, SundayFrom;
    YearsIncrease(y, y + 1);
    MakeDayInYear(y, 2, 8);
    MakeDayInYear(y, 10, 1);
    NextSunday(MakeDay(y, 2, 8));
    NextSunday(MakeDay(y, 10, 1));
  }

  /** The transition days are the second Sunday of March and the first Sunday of November. */
  lemma TransitionsAreTheSundays(y: int)
    ensures exists day :: 8 <= day <= 14 && Valid(Civil(y, 3, day)) && SpringDay(y) == DayOf(Civil(y, 3, day))
    ensures exists day :: 1 <= day <= 7 && Valid(Civil(y, 11, day)) && FallDay(y) == DayOf(Civil(y, 11, day))
    ensures WeekDay(SpringDay(y)) == 0 && WeekDay(FallDay(y)) == 0
  {
    hide DayFromYear, DaysBefore, Leap, WeekDay, SundayFrom, DaysInMonth;
    MonthLengths(y, 3);
    MonthLengths(y, 11);
    NextSunday(MakeDay(y, 2, 8));
    NextSunday(MakeDay(y, 10, 1));
    var march, november := SpringDay(y) - MakeDay(y, 2, 8) + 8, FallDay(y) - MakeDay(y, 10, 1) + 1;
    MakeDayInYear(y, 2, 8);
    MakeDayInYear(y, 2, march);
    MakeDayInYear(y, 10, 1);
    MakeDayInYear(y, 10, november);
    assert SpringDay(y) == DayOf(Civil(y, 3, march));
    assert FallDay(y) == DayOf(Civil(y, 11, november));
  }

  lemma OffsetInYear(second: int, y: int)
    requires DAY * DayFromYear(y) <= second < DAY * DayFromYear(y + 1)
    ensures EasternOffset(second) == if SpringForward(y) <= second < FallBack(y) then DAYLIGHT else STANDARD
  {
    hide DayFromYear, SpringForward, FallBack;
    YearIsUnique(second / DAY, y);
  }

  /** Up to the next New Year's dawn the year's own transitions decide. */
  lemma OffsetIntoNewYear(second: int, y: int)
    requires DAY * DayFromYear(y) <= second < DAY * (DayFromYear(y + 1) + 60)
    ensures EasternOffset(second) == if SpringForward(y) <= second < FallBack(y) then DAYLIGHT else STANDARD
  {
    hide DayFromYear, SpringDay, FallDay;
    TransitionDays(y);
    if second < DAY * DayFromYear(y + 1) {
      OffsetInYear(second, y);
    } else {
      TransitionDays(y + 1);
      OffsetInYear(second, y + 1);
    }
  }

  lemma EasternInRange()
    ensures InRange(EASTERN)
  {
  }

  // ---- Eastern time is in the zone class ----

  /** The two UTC probes of every calendar day from the year 100 on show all its offsets. */
  lemma EasternIsCovered(day: int)
    requires day >= DayFromYear(100)
    ensures ProbesCover(EASTERN, day)
  {
    hide DayFromYear, SpringDay, FallDay, LocalYear, EasternOffset;
    var y := YearOfDay(day);
    if day == DayFromYear(100) {
      TransitionDays(100);
      YearIsUnique(day, 100);
    }
    forall s | (s + 60 * EASTERN(s)) / DAY == day
      ensures Reports(EASTERN, DAY * day, EASTERN(s)) || Reports(EASTERN, DAY * day + DAY - 1, EASTERN(s))
    {
      OffsetOfDay(day, y, s);
      ReadableProbes(day);
    }
  }

  lemma OffsetOfDay(day: int, y: int, s: int)
    requires DayFromYear(y) <= day < DayFromYear(y + 1)
    requires (s + 60 * EASTERN(s)) / DAY == day
    ensures EASTERN(s) == EASTERN(DAY * day) || EASTERN(s) == EASTERN(DAY * day + DAY - 1)
    ensures day == DayFromYear(y) ==> EASTERN(s) == EASTERN(DAY * day + DAY - 1)
  {
    hide DayFromYear, SpringDay, FallDay;
    TransitionDays(y);
    assert DAY * day + 4 * HOUR <= s < DAY * day + 29 * HOUR;
    OffsetIntoNewYear(s, y);
    OffsetIntoNewYear(DAY * day, y);
    OffsetIntoNewYear(DAY * day + DAY - 1, y);
  }

  /** Only the first morning of the year 100 has a probe that Date.UTC misreads. */
  lemma ReadableProbes(day: int)
    requires day >= DayFromYear(100)
    ensures day > DayFromYear(100) ==> LocalYear(DAY * day + 60 * EASTERN(DAY * day)) >= 100
    ensures LocalYear(DAY * day + DAY - 1 + 60 * EASTERN(DAY * day + DAY - 1)) >= 100
  {
    hide DayFromYear, EasternOffset, CivilOf;
    EasternRange(DAY * day);
    EasternRange(DAY * day + DAY - 1);
    YearBound((DAY * day + 60 * EASTERN(DAY * day)) / DAY, 100);
    YearBound((DAY * day + DAY - 1 + 60 * EASTERN(DAY * day + DAY - 1)) / DAY, 100);
  }

  lemma EasternRange(s: int)
    ensures EASTERN(s) == STANDARD || EASTERN(s) == DAYLIGHT
  {
  }

  /** No two clock changes fall within two days of each other. */
  lemma EasternChangesRarely()
    ensures ChangesRarely(EASTERN)
  {
    hide DayFromYear, SpringDay, FallDay, EasternOffset;
    forall a, b, c | a <= b <= c <= a + 2 * DAY
      ensures EASTERN(b) == EASTERN(a) || EASTERN(b) == EASTERN(c)
    {
      var y := YearOfDay(a / DAY);
      TransitionDays(y);
      assert DAY * DayFromYear(y) <= a < DAY * DayFromYear(y + 1);
      OffsetIntoNewYear(a, y);
      OffsetIntoNewYear(b, y);
      OffsetIntoNewYear(c, y);
    }
  }

  // ---- parsing Eastern digits, in closed form ----

  /** Digits of the skipped hour: 02:00 to 02:59:59 on the second Sunday of March. */
  predicate Skipped(w: WallClockParts)
    requires RealWallClock(w)
  {
    DAY * SpringDay(w.year) + 2 * HOUR <= NaiveSeconds(w) < DAY * SpringDay(w.year) + 3 * HOUR
  }

  /** Digits first shown under daylight time, the first pass of the repeated hour included. */
  predicate InDaylight(w: WallClockParts)
    requires RealWallClock(w)
  {
    DAY * SpringDay(w.year) + 3 * HOUR <= NaiveSeconds(w) < DAY * FallDay(w.year) + 2 * HOUR
  }

  lemma EasternIsRight(w: WallClockParts)
    requires RealWallClock(w) && DigitRanges(w) && w.year >= 100
    ensures CorrectAt(EASTERN, w)
  {
    hide DayFromYear, LocalYear, EasternOffset, CorrectAt, ProbesCover;
    WithinYear(Civil(w.year, w.month, w.day));
    YearsIncrease(100, w.year);
    EasternInRange();
    EasternIsCovered(DayOf(Civil(w.year, w.month, w.day)));
    CoveredDayIsCorrect(EASTERN, w);
  }

  /** Whether a UTC-4 or a UTC-5 reading of the digits is in force. */
  lemma ReadingsInForce(w: WallClockParts)
    requires RealWallClock(w) && w.year >= 100
    ensures EASTERN(NaiveSeconds(w) + 4 * HOUR) == DAYLIGHT <==> InDaylight(w)
    ensures EASTERN(NaiveSeconds(w) + 5 * HOUR) == STANDARD ==> InDaylight(w) || !Skipped(w)
    ensures !InDaylight(w) && !Skipped(w) ==> EASTERN(NaiveSeconds(w) + 5 * HOUR) == STANDARD
    ensures Skipped(w) ==> EASTERN(NaiveSeconds(w) + 5 * HOUR) == DAYLIGHT
  {
    hide DayFromYear, SpringDay, FallDay, EasternOffset, DayOf;
    var y := w.year;
    WithinYear(Civil(y, w.month, w.day));
    TransitionDays(y);
    OffsetIntoNewYear(NaiveSeconds(w) + 4 * HOUR, y);
    OffsetIntoNewYear(NaiveSeconds(w) + 5 * HOUR, y);
  }

  /** Eastern digits read as UTC-4 in daylight time, as UTC-5 otherwise, and not at all when skipped. */
  lemma EasternReading(w: WallClockParts)
    requires RealWallClock(w) && DigitRanges(w) && w.year >= 100
    ensures Interpret(w, EASTERN) ==
            if Skipped(w) then None
            else Some(1000 * (NaiveSeconds(w) + if InDaylight(w) then 4 * HOUR else 5 * HOUR))
  {
    hide DayFromYear, LocalYear, EasternOffset, RealWallClock, Interpret, NaiveSeconds, PartsOfLocal;
    EasternIsRight(w);
    ReadingsInForce(w);
    DigitsOfNaive(w);
    var n := NaiveSeconds(w);
    forall k | k == 4 || k == 5
      ensures EASTERN(n + k * HOUR) == -60 * k ==> Renders(EASTERN, 1000 * (n + k * HOUR), w)
    {
      assert 1000 * (n + k * HOUR) / 1000 == n + k * HOUR;
    }
    if Interpret(w, EASTERN).Some? {
      var t := Interpret(w, EASTERN).value;
      FirstInstantIsWhole(EASTERN, w, t);
      EasternRange(t / 1000);
    }
  }

  /** Later digits are read as later instants, whatever the season. */
  lemma EasternKeepsOrder(w1: WallClockParts, w2: WallClockParts)
    requires RealWallClock(w1) && DigitRanges(w1) && w1.year >= 100 && !Skipped(w1)
    requires RealWallClock(w2) && DigitRanges(w2) && w2.year >= 100 && !Skipped(w2)
    requires Earlier(w1, w2)
    ensures Interpret(w1, EASTERN).Some? && Interpret(w2, EASTERN).Some?
    ensures Interpret(w1, EASTERN).value < Interpret(w2, EASTERN).value
  {
    hide *;
    EasternIsRight(w1);
    EasternIsRight(w2);
    EasternReading(w1);
    EasternReading(w2);
    EasternInRange();
    EasternChangesRarely();
    ParsingKeepsOrder(EASTERN, w1, w2);
  }

  /** The second pass of the repeated hour: the hour after clocks fall back. */
  predicate RepeatedHour(s: int) {
    var y := YearOfDay(s / DAY);
    FallBack(y) <= s < FallBack(y) + HOUR
  }

  /** Rendering a whole second and parsing it gives the second back, or one hour less in the second pass. */
  lemma EasternRoundTrip(s: int)
    requires DigitRanges(WallClockPartsInZone(1000 * s, EASTERN))
    requires LocalYear(s + 60 * EASTERN(s)) >= 100
    ensures Interpret(WallClockPartsInZone(1000 * s, EASTERN), EASTERN) ==
            Some(1000 * if RepeatedHour(s) then s - HOUR else s)
  {
    hide CivilOf, RealWallClock, NaiveSeconds, PartsOfLocal, LocalYear, Interpret, EasternOffset;
    hide RepeatedHour, Skipped, InDaylight, DigitRanges;
    assert 1000 * s / 1000 == s;
    var w := WallClockPartsInZone(1000 * s, EASTERN);
    YearOfParts(s + 60 * EASTERN(s));
    NaiveOfDigits(s + 60 * EASTERN(s));
    EasternReading(w);
    RepeatedExactly(s, w);
  }

  lemma RepeatedExactly(s: int, w: WallClockParts)
    requires RealWallClock(w) && w.year >= 100 && NaiveSeconds(w) == s + 60 * EASTERN(s)
    ensures !Skipped(w)
    ensures NaiveSeconds(w) + (if InDaylight(w) then 4 * HOUR else 5 * HOUR) == if RepeatedHour(s) then s - HOUR else s
  {
    hide DayFromYear, SpringDay, FallDay, DayOf;
    var y := w.year;
    WithinYear(Civil(y, w.month, w.day));
    TransitionDays(y);
    EasternRange(s);
    OffsetIntoNewYear(s, y);
    if s >= DAY * DayFromYear(y + 1) {
      TransitionDays(y + 1);
      YearIsUnique(s / DAY, y + 1);
    } else {
      YearIsUnique(s / DAY, y);
    }
  }
}
