/**
  Zones that change their clocks at most once in any two days: the order of wall-clock
  digits is the order of the instants they are read as, and rendering then parsing gives
  the instant back except in the second pass of a repeated hour.
 */
module WallClockOrder {
  import opened Wrappers
  import opened Calendar
  import opened BusinessTimezone
  import opened WallClockMeaning

  /** The probe reads offset o, and its own local year is not one Date.UTC misreads. */
  ghost predicate Reports(zone: Zone, probe: int, o: int) {
    zone(probe) == o && LocalYear(probe + 60 * zone(probe)) >= 100
  }

  /** Every offset in force during the local day shows at one of that day's UTC probes. */
  ghost predicate ProbesCover(zone: Zone, day: int) {
    forall s :: (s + 60 * zone(s)) / DAY == day ==>
      Reports(zone, DAY * day, zone(s)) || Reports(zone, DAY * day + DAY - 1, zone(s))
  }

  /** On a covered day parsing is right for all digits of the day. */
  lemma CoveredDayIsCorrect(zone: Zone, w: WallClockParts)
    requires InRange(zone) && DigitRanges(w) && w.year >= 100 && RealWallClock(w)
    requires ProbesCover(zone, DayOf(Civil(w.year, w.month, w.day)))
    ensures CorrectAt(zone, w)
  {
    hide CorrectAt, DayOf, CivilOf, RealWallClock, Renders;
    CorrectExactlyWhenOffered(zone, w);
    forall t | Least(zone, t, w) ensures Offered(zone, w, zone(t / 1000)) {
      CoveredOffsetIsOffered(zone, w, t);
    }
  }

  lemma CoveredOffsetIsOffered(zone: Zone, w: WallClockParts, t: int)
    requires InRange(zone) && w.year >= 100 && RealWallClock(w)
    requires ProbesCover(zone, DayOf(Civil(w.year, w.month, w.day)))
    requires Renders(zone, t, w)
    ensures Offered(zone, w, zone(t / 1000))
  {
    hide CivilOf, LocalYear, OffsetMinutesAt, DayOf, Valid, Renders, NaiveSeconds, UtcSeconds, StartProbe, EndProbe;
    RenderingIsCandidate(zone, w, t);
    UtcOfReal(w);
    DayOfNaive(w);
    ProbesOfReal(w);
    var day := DayOf(Civil(w.year, w.month, w.day));
    assert (t / 1000 + 60 * zone(t / 1000)) / DAY == day;
    if Reports(zone, DAY * day, zone(t / 1000)) {
      OffsetIsExact(zone, DAY * day);
    } else {
      OffsetIsExact(zone, DAY * day + DAY - 1);
    }
  }

  lemma DayOfNaive(w: WallClockParts)
    requires RealWallClock(w)
    ensures NaiveSeconds(w) / DAY == DayOf(Civil(w.year, w.month, w.day))
  {
    hide DayOf, Valid;
    SplitTime(DayOf(Civil(w.year, w.month, w.day)), w.hour, w.minute, w.second);
  }

  lemma ProbesOfReal(w: WallClockParts)
    requires RealWallClock(w) && w.year >= 100
    ensures StartProbe(w) == DAY * DayOf(Civil(w.year, w.month, w.day))
    ensures EndProbe(w) == DAY * DayOf(Civil(w.year, w.month, w.day)) + DAY - 1
  {
  }

  // ---- order ----

  /** Digits in calendar order. */
  predicate Earlier(a: WallClockParts, b: WallClockParts) {
    BeforeInTime(Civil(a.year, a.month, a.day), a.hour, a.minute, a.second,
                 Civil(b.year, b.month, b.day), b.hour, b.minute, b.second)
  }

  /** The order of real digits is the order of their clock readings. */
  lemma EarlierIsLess(a: WallClockParts, b: WallClockParts)
    requires RealWallClock(a) && RealWallClock(b)
    ensures Earlier(a, b) <==> NaiveSeconds(a) < NaiveSeconds(b)
  {
    hide DayOf, Valid, Before;
    OrderOfDays(Civil(a.year, a.month, a.day), Civil(b.year, b.month, b.day));
  }

  /** Between any two instants at most two days apart the offset changes at most once. */
  ghost predicate ChangesRarely(zone: Zone) {
    forall a, b, c :: a <= b <= c <= a + 2 * DAY ==> zone(b) == zone(a) || zone(b) == zone(c)
  }

  lemma FirstInstantIsWhole(zone: Zone, w: WallClockParts, t: int)
    requires w.year >= 100 && Least(zone, t, w)
    ensures RealWallClock(w)
    ensures t == 1000 * (t / 1000)
    ensures t / 1000 + 60 * zone(t / 1000) == NaiveSeconds(w)
    ensures forall s :: s + 60 * zone(s) == NaiveSeconds(w) ==> t / 1000 <= s
  {
    hide CivilOf, RealWallClock, PartsOfLocal, LocalYear, NaiveSeconds;
    RenderingIsCandidate(zone, w, t);
    UtcOfReal(w);
    DigitsOfNaive(w);
    forall s | s + 60 * zone(s) == NaiveSeconds(w) ensures t / 1000 <= s {
      assert 1000 * s / 1000 == s;
      assert Renders(zone, 1000 * s, w);
    }
  }

  /** Later digits are first shown at a later instant. */
  lemma FirstInstantsInOrder(zone: Zone, w1: WallClockParts, w2: WallClockParts, t1: int, t2: int)
    requires InRange(zone) && ChangesRarely(zone) && w1.year >= 100 && w2.year >= 100
    requires Least(zone, t1, w1) && Least(zone, t2, w2) && Earlier(w1, w2)
    ensures t1 < t2
  {
    hide Least, Earlier, NaiveSeconds, RealWallClock;
    FirstInstantIsWhole(zone, w1, t1);
    FirstInstantIsWhole(zone, w2, t2);
    EarlierIsLess(w1, w2);
    var s1, s2 := t1 / 1000, t2 / 1000;
    // Were s2 first, the digits of w1 read with the offset of w2 would fall before both.
    var c := NaiveSeconds(w1) - 60 * zone(s2);
    assert c <= s2 <= s1 <= c + 2 * DAY ==> zone(s2) == zone(c) || zone(s2) == zone(s1);
  }

  /** Where parsing is right, it keeps the order of the digits. */
  lemma ParsingKeepsOrder(zone: Zone, w1: WallClockParts, w2: WallClockParts)
    requires InRange(zone) && ChangesRarely(zone)
    requires w1.year >= 100 && w2.year >= 100 && Earlier(w1, w2)
    requires CorrectAt(zone, w1) && CorrectAt(zone, w2)
    requires Interpret(w1, zone).Some? && Interpret(w2, zone).Some?
    ensures Interpret(w1, zone).value < Interpret(w2, zone).value
  {
    hide Least, Earlier, Interpret;
    FirstInstantsInOrder(zone, w1, w2, Interpret(w1, zone).value, Interpret(w2, zone).value);
  }

  // ---- rendering, then parsing ----

  /** Clocks fell back at second x and have not yet caught up by second s. */
  ghost predicate SecondPass(zone: Zone, s: int, x: int) {
    x <= s < x + 60 * (zone(x - 1) - zone(x))
  }

  lemma {:induction false} FindChange(zone: Zone, r: int, s: int) returns (x: int)
    requires ChangesRarely(zone) && r < s <= r + 2 * DAY && zone(r) != zone(s)
    ensures r < x <= s && zone(x - 1) == zone(r) && zone(x) == zone(s)
    decreases s - r
  {
    assert zone(s - 1) == zone(r) || zone(s - 1) == zone(s);
    if zone(s - 1) == zone(r) {
      x := s;
    } else {
      x := FindChange(zone, r, s - 1);
    }
  }

  /** The first second with the same clock reading: s itself, or one fold before it. */
  lemma FirstReading(zone: Zone, s: int, r: int)
    requires InRange(zone) && ChangesRarely(zone)
    requires r <= s && r + 60 * zone(r) == s + 60 * zone(s)
    requires forall u :: u + 60 * zone(u) == s + 60 * zone(s) ==> r <= u
    ensures (forall x :: !SecondPass(zone, s, x)) ==> r == s
    ensures forall x :: SecondPass(zone, s, x) ==> r == s - 60 * (zone(x - 1) - zone(x))
  {
    if r < s {
      var x := FindChange(zone, r, s);
      assert SecondPass(zone, s, x);
    }
    forall x | SecondPass(zone, s, x) ensures r == s - 60 * (zone(x - 1) - zone(x)) {
      assert zone(x) == zone(x - 1) || zone(x) == zone(s);
      var t := s - 60 * (zone(x - 1) - zone(x));
      assert t <= x - 1 <= x <= t + 2 * DAY;
      assert zone(x - 1) == zone(t) || zone(x - 1) == zone(x);
      assert r <= t;
      assert r <= t <= s <= r + 2 * DAY ==> zone(t) == zone(r) || zone(t) == zone(s);
    }
  }

  /** Parsing a rendered whole second gives it back, or the instant exactly one fold earlier. */
  lemma ReparseRendered(zone: Zone, s: int)
    requires InRange(zone) && ChangesRarely(zone) && LocalYear(s + 60 * zone(s)) >= 100
    requires CorrectAt(zone, WallClockPartsInZone(1000 * s, zone))
    ensures var r := Interpret(WallClockPartsInZone(1000 * s, zone), zone);
            && ((forall x :: !SecondPass(zone, s, x)) ==> r == Some(1000 * s))
            && (forall x :: SecondPass(zone, s, x) ==> r == Some(1000 * (s - 60 * (zone(x - 1) - zone(x)))))
  {
    hide CivilOf, RealWallClock, NaiveSeconds, PartsOfLocal, SecondPass, Interpret, LocalYear;
    assert 1000 * s / 1000 == s;
    var w := WallClockPartsInZone(1000 * s, zone);
    YearOfParts(s + 60 * zone(s));
    NaiveOfDigits(s + 60 * zone(s));
    assert Renders(zone, 1000 * s, w);
    var t := Interpret(w, zone).value;
    FirstInstantIsWhole(zone, w, t);
    FirstReading(zone, s, t / 1000);
  }
}
