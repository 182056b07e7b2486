/**
  What parsing wall-clock digits means, for every zone: the instant found, when one is
  found, and what goes wrong when a day's offsets do not all show up at its two probes.
 */
module WallClockMeaning {
  import opened Wrappers
  import opened Calendar
  import opened BusinessTimezone

  /** An offset one of the probes reports and whose candidate renders back to the digits. */
  ghost predicate Fits(zone: Zone, target: WallClockParts, offset: int) {
    Offered(zone, target, offset) && WallClockPartsInZone(Candidate(target, offset), zone) == target
  }

  ghost predicate RoundTrips(zone: Zone, target: WallClockParts, offset: int) {
    WallClockPartsInZone(Candidate(target, offset), zone) == target
  }

  lemma {:induction false} MatchingMembers(zone: Zone, target: WallClockParts, offsets: seq<int>)
    ensures forall o :: o in offsets && RoundTrips(zone, target, o) ==>
              Candidate(target, o) in Matching(target, zone, offsets)
    ensures forall t :: t in Matching(target, zone, offsets) ==>
              exists o :: o in offsets && RoundTrips(zone, target, o) && Candidate(target, o) == t
    decreases |offsets|
  {
    hide Candidate, WallClockPartsInZone;
    if offsets != [] {
      var last := offsets[|offsets| - 1];
      MatchingMembers(zone, target, offsets[..|offsets| - 1]);
      assert offsets == offsets[..|offsets| - 1] + [last];
      assert RoundTrips(zone, target, last) <==> WallClockPartsInZone(Candidate(target, last), zone) == target;
    }
  }

  lemma {:induction false} MinIsLeast(s: seq<int>)
    requires s != []
    ensures Min(s) in s && forall x :: x in s ==> Min(s) <= x
    decreases |s|
  {
    if |s| > 1 {
      MinIsLeast(s[..|s| - 1]);
      assert s == s[..|s| - 1] + [s[|s| - 1]];
    }
  }

  /** The loop over candidate offsets keeps the earliest fitting candidate. */
  lemma InterpretIsLeastFit(zone: Zone, target: WallClockParts)
    ensures Interpret(target, zone) == None ==> forall o :: !Fits(zone, target, o)
    ensures Interpret(target, zone).Some? ==>
              && (exists o :: Fits(zone, target, o) && Candidate(target, o) == Interpret(target, zone).value)
              && (forall o :: Fits(zone, target, o) ==> Interpret(target, zone).value <= Candidate(target, o))
  {
    hide Candidate, WallClockPartsInZone, OffsetMinutesAt, Matching, Min;
    var offsets := CandidateOffsets(target, zone);
    assert forall o :: o in offsets <==> Offered(zone, target, o);
    MatchingMembers(zone, target, offsets);
    var matches := Matching(target, zone, offsets);
    assert forall o :: Fits(zone, target, o) <==> o in offsets && RoundTrips(zone, target, o);
    if matches != [] {
      MinIsLeast(matches);
    }
  }

  // ---- candidates of one day ----

  lemma MakeDayStays(year: int, month: int, date: int)
    requires -1 <= month && 0 <= date
    ensures MakeDay(year, month, date) >= DayFromYear(year) - 33
  {
    hide Leap, DayFromYear;
    var y := year + month / 12;
    if month < 0 {
      assert month / 12 == -1 && month % 12 == 11;
      YearLength(year - 1);
    } else {
      assert month / 12 >= 0;
      YearsIncrease(year, y);
    }
  }

  /** Clock readings derived from the digits' own day stay within two days of it. */
  lemma NearbyYear(target: WallClockParts, local: int)
    requires DigitRanges(target)
    requires UtcSeconds(target) - 2 * DAY <= local || StartProbe(target) - DAY <= local
    ensures LocalYear(local) >= FullYear(target.year) - 1
  {
    hide MakeDay, DayFromYear, CivilOf;
    var full := FullYear(target.year);
    MakeDayStays(full, target.month - 1, target.day);
    assert local / DAY >= UtcDay(target) - 2;
    YearGap(full);
    YearBound(local / DAY, full - 1);
  }

  lemma YearGap(y: int)
    ensures DayFromYear(y - 1) + 365 <= DayFromYear(y)
  {
    YearsIncrease(y - 1, y);
  }

  /** On a whole second in or after the year 100 the computed offset is the zone's own. */
  lemma OffsetIsExact(zone: Zone, second: int)
    requires LocalYear(second + 60 * zone(second)) >= 100
    ensures OffsetMinutesAt(1000 * second, zone) == zone(second)
  {
    hide CivilOf, RealWallClock, NaiveSeconds, UtcSeconds, PartsOfLocal;
    var local := second + 60 * zone(second);
    NaiveOfDigits(local);
    UtcOfReal(PartsOfLocal(local)) by {
      assert PartsOfLocal(local).year == LocalYear(local) by { YearOfParts(local); }
    }
    assert 1000 * second / 1000 == second;
    assert ToUtcMs(WallClockPartsInZone(1000 * second, zone)) == 1000 * local;
  }

  lemma YearOfParts(local: int)
    ensures LocalYear(local) >= 1 ==> PartsOfLocal(local).year == LocalYear(local)
    ensures LocalYear(local) < 1 ==> PartsOfLocal(local).year == 1 - LocalYear(local)
  {
  }

  /** Date.UTC reads the year 99 as 1999: this many days later. */
  const CENTURIES := 693960

  lemma YearNinetyNine(local: int)
    requires LocalYear(local) == 99
    ensures UtcSeconds(PartsOfLocal(local)) == local + DAY * CENTURIES
  {
    hide CivilOf, RealWallClock, NaiveSeconds, TimeOfDay, MakeDay;
    var p := PartsOfLocal(local);
    YearOfParts(local);
    NaiveOfDigits(local);
    NaiveInYear(p);
    assert Leap(1999) == Leap(99);
    MakeDayInYear(1999, p.month - 1, p.day);
    assert DayFromYear(1999) == DayFromYear(99) + CENTURIES;
  }

  lemma NaiveInYear(p: WallClockParts)
    requires RealWallClock(p)
    ensures 1 <= p.month <= 12
    ensures NaiveSeconds(p)
            == DAY * (DayFromYear(p.year) + DaysBefore(Leap(p.year), p.month - 1) + p.day - 1) + TimeOfDay(p)
  {
    MakeDayInYear(p.year, p.month - 1, p.day);
  }

  /** Each probe reports the zone's offset, except that a local year 99 is misread. */
  lemma ProbeOffset(zone: Zone, target: WallClockParts, probe: int)
    requires InRange(zone) && DigitRanges(target)
    requires probe == StartProbe(target) || probe == EndProbe(target)
    ensures var o := OffsetMinutesAt(1000 * probe, zone);
            o == zone(probe) || (target.year == 100 && o == zone(probe) + 1440 * CENTURIES)
  {
    hide CivilOf, UtcSeconds, PartsOfLocal, UtcDay, LocalYear;
    var local := probe + 60 * zone(probe);
    NearbyYear(target, local);
    if LocalYear(local) >= 100 {
      OffsetIsExact(zone, probe);
    } else {
      YearNinetyNine(local);
      assert 1000 * probe / 1000 == probe;
      assert ToUtcMs(WallClockPartsInZone(1000 * probe, zone)) == 1000 * (local + DAY * CENTURIES);
    }
  }

  lemma ProbesOfOffered(zone: Zone, target: WallClockParts, o: int)
    requires InRange(zone) && DigitRanges(target) && Offered(zone, target, o)
    ensures -1440 < o < 1440 || (target.year == 100 && o > 1440 * (CENTURIES - 1))
  {
    hide OffsetMinutesAt, StartProbe, EndProbe;
    ProbeOffset(zone, target, StartProbe(target));
    ProbeOffset(zone, target, EndProbe(target));
  }

  lemma CandidateSecond(target: WallClockParts, o: int)
    ensures Candidate(target, o) / 1000 == UtcSeconds(target) - 60 * o
    ensures Candidate(target, o) == 1000 * (UtcSeconds(target) - 60 * o)
  {
    hide UtcSeconds;
    assert Candidate(target, o) == 1000 * (UtcSeconds(target) - 60 * o);
  }

  lemma UtcUpperBound(target: WallClockParts)
    requires DigitRanges(target) && target.year == 100
    ensures UtcSeconds(target) < DAY * DayFromYear(120)
  {
    hide Leap;
    var m := target.month - 1;
    YearsIncrease(100 + m / 12, 109);
    assert DayFromYear(109) + 500 < DayFromYear(120);
  }

  /** A candidate of a misread probe lands before the common era, in a four-digit year. */
  lemma MisreadNeverMatches(target: WallClockParts, local: int)
    requires DigitRanges(target) && target.year == 100
    requires local < UtcSeconds(target) - DAY * CENTURIES + 3 * DAY
    ensures PartsOfLocal(local).year != 100
  {
    hide UtcSeconds, CivilOf, DayFromYear;
    UtcUpperBound(target);
    assert DayFromYear(120) - CENTURIES + 3 < DayFromYear(-1000) by { EarlyYears(); }
    assert local / DAY < DayFromYear(-1000);
    YearBound(local / DAY, -1000);
  }

  lemma EarlyYears()
    ensures DayFromYear(120) - CENTURIES + 3 < DayFromYear(-1000)
  {
  }

  /** A fitting candidate belongs to real digits and carries the offset it was made from. */
  lemma FittingCandidate(zone: Zone, target: WallClockParts, o: int)
    requires InRange(zone) && DigitRanges(target) && Fits(zone, target, o)
    ensures RealWallClock(target) && target.year >= 100
    ensures zone(Candidate(target, o) / 1000) == o
    ensures Renders(zone, Candidate(target, o), target)
  {
    hide UtcSeconds, CivilOf, RealWallClock, NaiveSeconds, PartsOfLocal, LocalYear, Offered, Candidate;
    CandidateSecond(target, o);
    ProbesOfOffered(zone, target, o);
    var c := UtcSeconds(target) - 60 * o;
    var local := c + 60 * zone(c);
    assert PartsOfLocal(local) == target;
    if o > 1440 {
      MisreadNeverMatches(target, local);
    } else {
      NearbyYear(target, local);
      YearOfParts(local);
      NaiveOfDigits(local);
      UtcOfReal(target);
    }
  }

  /** An instant showing real digits is its offset away from them; so is its candidate. */
  lemma RenderingIsCandidate(zone: Zone, w: WallClockParts, t: int)
    requires Renders(zone, t, w) && w.year >= 100
    ensures RealWallClock(w)
    ensures t / 1000 == UtcSeconds(w) - 60 * zone(t / 1000)
    ensures Candidate(w, zone(t / 1000)) == 1000 * (t / 1000)
    ensures Renders(zone, 1000 * (t / 1000), w)
  {
    hide UtcSeconds, CivilOf, RealWallClock, NaiveSeconds, PartsOfLocal, LocalYear, Candidate;
    NaiveOfDigits(LocalSeconds(zone, t));
    UtcOfReal(w);
    CandidateSecond(w, zone(t / 1000));
    assert 1000 * (t / 1000) / 1000 == t / 1000;
  }

  // ---- the meaning of parsing, for every zone ----

  /** An instant that shows the digits under an offset the probes report. */
  ghost predicate OfferedRendering(zone: Zone, w: WallClockParts, t: int) {
    Renders(zone, t, w) && Offered(zone, w, zone(t / 1000))
  }

  /** Month 13, 30 February, hour 24, second 60 or a year below 100 is never accepted. */
  lemma UnrealDigitsRejected(zone: Zone, target: WallClockParts)
    requires InRange(zone) && DigitRanges(target)
    requires !RealWallClock(target) || target.year < 100
    ensures Interpret(target, zone) == None
  {
    hide Candidate, Interpret;
    InterpretIsLeastFit(zone, target);
    if Interpret(target, zone).Some? {
      var o :| Fits(zone, target, o);
      FittingCandidate(zone, target, o);
    }
  }

  lemma FitsAreRenderings(zone: Zone, w: WallClockParts, t: int)
    requires InRange(zone) && DigitRanges(w) && w.year >= 100
    ensures (exists o :: Fits(zone, w, o) && Candidate(w, o) == t) <==>
              OfferedRendering(zone, w, t) && t == 1000 * (t / 1000)
  {
    hide Candidate, Renders, Offered, CivilOf;
    if OfferedRendering(zone, w, t) && t == 1000 * (t / 1000) {
      RenderingIsCandidate(zone, w, t);
      RendersIsRoundTrip(zone, w, t);
      assert Fits(zone, w, zone(t / 1000));
    }
    if o :| Fits(zone, w, o) && Candidate(w, o) == t {
      FittingCandidate(zone, w, o);
      CandidateSecond(w, o);
    }
  }

  lemma RendersIsRoundTrip(zone: Zone, w: WallClockParts, t: int)
    requires Renders(zone, t, w)
    ensures WallClockPartsInZone(t, zone) == w
  {
  }

  /** Parsing finds the earliest instant showing the digits among the probed offsets. */
  lemma InterpretFindsLeastOffered(zone: Zone, w: WallClockParts)
    requires InRange(zone) && DigitRanges(w) && w.year >= 100
    ensures Interpret(w, zone) == None <==> forall t :: !OfferedRendering(zone, w, t)
    ensures forall t :: Interpret(w, zone) == Some(t) <==>
              OfferedRendering(zone, w, t) && forall u :: OfferedRendering(zone, w, u) ==> t <= u
  {
    hide Candidate, Interpret, OfferedRendering, Fits;
    InterpretIsLeastFit(zone, w);
    forall u | OfferedRendering(zone, w, u)
      ensures exists o :: Fits(zone, w, o) && Candidate(w, o) <= u
    {
      WholeSecond(zone, w, u);
      FitsAreRenderings(zone, w, 1000 * (u / 1000));
    }
    if Interpret(w, zone).Some? {
      FitsAreRenderings(zone, w, Interpret(w, zone).value);
    }
  }

  lemma WholeSecond(zone: Zone, w: WallClockParts, t: int)
    requires w.year >= 100 && OfferedRendering(zone, w, t)
    ensures OfferedRendering(zone, w, 1000 * (t / 1000))
    ensures 1000 * (1000 * (t / 1000) / 1000) == 1000 * (t / 1000) <= t
  {
    hide Offered, Renders;
    RenderingIsCandidate(zone, w, t);
    assert 1000 * (t / 1000) / 1000 == t / 1000;
  }

  /** The documented outcome: the first instant showing the digits, or none exists. */
  ghost predicate CorrectAt(zone: Zone, w: WallClockParts) {
    match Interpret(w, zone)
    case Some(t) => Least(zone, t, w)
    case None => forall t :: !Renders(zone, t, w)
  }

  lemma {:induction false} LeastExists(zone: Zone, w: WallClockParts, t: int) returns (least: int)
    requires InRange(zone) && w.year >= 100 && Renders(zone, t, w)
    ensures Least(zone, least, w)
    decreases t - 1000 * (UtcSeconds(w) - DAY)
  {
    hide Renders, UtcSeconds;
    RenderingIsCandidate(zone, w, t);
    if u :| Renders(zone, u, w) && u < t {
      RenderingIsCandidate(zone, w, u);
      least := LeastExists(zone, w, u);
    } else {
      least := t;
    }
  }

  /** Parsing is right at some digits exactly when the probes report the first instant's offset. */
  lemma CorrectExactlyWhenOffered(zone: Zone, w: WallClockParts)
    requires InRange(zone) && DigitRanges(w) && w.year >= 100
    ensures CorrectAt(zone, w) <==> forall t :: Least(zone, t, w) ==> Offered(zone, w, zone(t / 1000))
  {
    hide Offered, Renders, Interpret;
    InterpretFindsLeastOffered(zone, w);
    if forall t :: Least(zone, t, w) ==> Offered(zone, w, zone(t / 1000)) {
      if t :| Renders(zone, t, w) {
        var least := LeastExists(zone, w, t);
        assert OfferedRendering(zone, w, least);
      }
    }
  }
}
