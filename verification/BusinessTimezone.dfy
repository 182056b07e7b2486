/**
  business-timezone.ts: reading wall-clock digits as an instant.  Instants are milliseconds
  since 1970.  A zone gives the UTC offset, in whole minutes, in force during each whole
  second; Intl is replaced by calendar arithmetic on the shifted instant.
 */
module BusinessTimezone {
  import opened Wrappers
  import opened Calendar
  import opened Text

  datatype WallClockParts = WallClockParts(
    year: int, month: int, day: int, hour: int, minute: int, second: int)

  datatype ParseError = NotWallClock | DoesNotExist

  /** UTC offset in minutes, by second since 1970. */
  type Zone = int -> int

  /** Offsets stay under a day, as every zone's do. */
  ghost predicate InRange(zone: Zone) {
    forall s :: -1440 < zone(s) < 1440
  }

  // ---- rendering ----

  /** The clock of the zone, in seconds, at an instant. */
  function LocalSeconds(zone: Zone, instant: int): int {
    instant / 1000 + 60 * zone(instant / 1000)
  }

  /** Intl prints the year of the era, so 1 BC prints 1. */
  function PartsOfLocal(local: int): WallClockParts {
    var date := CivilOf(local / DAY);
    var time := local % DAY;
    WallClockParts(if date.year >= 1 then date.year else 1 - date.year, date.month, date.day,
                   time / 3600, time % 3600 / 60, time % 60)
  }

  function WallClockPartsInZone(instant: int, zone: Zone): WallClockParts {
    PartsOfLocal(LocalSeconds(zone, instant))
  }

  // ---- Date.UTC (section 21.4.3.4 of ECMA-262) ----

  /** Years 0 to 99 mean 1900 to 1999. */
  function FullYear(year: int): int {
    if 0 <= year <= 99 then 1900 + year else year
  }

  function UtcDay(p: WallClockParts): int {
    MakeDay(FullYear(p.year), p.month - 1, p.day)
  }

  function TimeOfDay(p: WallClockParts): int {
    3600 * p.hour + 60 * p.minute + p.second
  }

  function UtcSeconds(p: WallClockParts): int {
    DAY * UtcDay(p) + TimeOfDay(p)
  }

  function ToUtcMs(p: WallClockParts): int {
    1000 * UtcSeconds(p)
  }

  function OffsetMinutesAt(instant: int, zone: Zone): int {
    (ToUtcMs(WallClockPartsInZone(instant, zone)) - instant) / 60000
  }

  // ---- reading the digits ----

  predicate TwoDigitsAt(s: string, i: nat) {
    i + 2 <= |s| && AllDigits(s[i..i + 2])
  }

  /** The pattern YYYY-MM-DDTHH:mm with optional :ss and, after seconds, a fraction. */
  predicate MatchesNaivePattern(s: string) {
    && |s| >= 16
    && AllDigits(s[..4]) && s[4] == '-' && TwoDigitsAt(s, 5) && s[7] == '-' && TwoDigitsAt(s, 8)
    && s[10] == 'T' && TwoDigitsAt(s, 11) && s[13] == ':' && TwoDigitsAt(s, 14)
    && (|s| == 16
        || (s[16] == ':' && TwoDigitsAt(s, 17)
            && (|s| == 19 || (s[19] == '.' && |s| > 20 && AllDigits(s[20..])))))
  }

  function ParseNaiveComponents(input: string): Option<WallClockParts> {
    var s := Trim(input);
    if !MatchesNaivePattern(s) then
      None
    else
      Some(WallClockParts(Number(s[..4]), Number(s[5..7]), Number(s[8..10]), Number(s[11..13]),
                          Number(s[14..16]), if |s| == 16 then 0 else Number(s[17..19])))
  }

  lemma ParsedDigitRanges(input: string)
    ensures var r := ParseNaiveComponents(input); r.Some? ==> DigitRanges(r.value)
  {
    var s := Trim(input);
    if MatchesNaivePattern(s) {
      DigitBound(s[..4]);
      DigitBound(s[5..7]);
      DigitBound(s[8..10]);
      DigitBound(s[11..13]);
      DigitBound(s[14..16]);
      if |s| != 16 {
        DigitBound(s[17..19]);
      }
    }
  }

  /** Everything the pattern lets through. */
  predicate DigitRanges(p: WallClockParts) {
    && 0 <= p.year <= 9999 && 0 <= p.month <= 99 && 0 <= p.day <= 99
    && 0 <= p.hour <= 99 && 0 <= p.minute <= 99 && 0 <= p.second <= 99
  }

  /** A date and time of day that the calendar has. */
  predicate RealWallClock(p: WallClockParts) {
    && Valid(Civil(p.year, p.month, p.day))
    && 0 <= p.hour < 24 && 0 <= p.minute < 60 && 0 <= p.second < 60
  }

  lemma {:induction false} DigitBound(s: string)
    requires AllDigits(s)
    ensures Number(s) < Pow10(|s|)
    ensures |s| == 2 ==> Number(s) <= 99
    ensures |s| == 4 ==> Number(s) <= 9999
    decreases |s|
  {
    if s != [] {
      DigitBound(s[..|s| - 1]);
      assert Pow10(2) == 100 && Pow10(4) == 10000;
    }
  }

  // ---- the interpretation ----

  function StartProbe(target: WallClockParts): int {
    DAY * UtcDay(target)
  }

  function EndProbe(target: WallClockParts): int {
    DAY * UtcDay(target) + DAY - 1
  }

  function CandidateOffsets(target: WallClockParts, zone: Zone): seq<int> {
    var atStart := OffsetMinutesAt(1000 * StartProbe(target), zone);
    var atEnd := OffsetMinutesAt(1000 * EndProbe(target), zone);
    if atStart == atEnd then [atStart] else [atStart, atEnd]
  }

  function Candidate(target: WallClockParts, offset: int): int {
    ToUtcMs(target) - 60000 * offset
  }

  /** The candidate instants that render back to the digits. */
  function Matching(target: WallClockParts, zone: Zone, offsets: seq<int>): seq<int> {
    if offsets == [] then [] else
      var last := Candidate(target, offsets[|offsets| - 1]);
      Matching(target, zone, offsets[..|offsets| - 1])
      + if WallClockPartsInZone(last, zone) == target then [last] else []
  }

  function Min(s: seq<int>): int
    requires s != []
  {
    if |s| == 1 then s[0] else
      var m := Min(s[..|s| - 1]);
      if s[|s| - 1] < m then s[|s| - 1] else m
  }

  function Interpret(target: WallClockParts, zone: Zone): Option<int> {
    var matches := Matching(target, zone, CandidateOffsets(target, zone));
    if matches == [] then None else Some(Min(matches))
  }

  function ParsedWallClock(input: string, zone: Zone): Result<int, ParseError> {
    match ParseNaiveComponents(input)
    case None => Err(NotWallClock)
    case Some(target) =>
      match Interpret(target, zone)
      case None => Err(DoesNotExist)
      case Some(instant) => Ok(instant)
  }

  method ParseBusinessWallClock(input: string, zone: Zone) returns (r: Result<int, ParseError>)
    ensures r == ParsedWallClock(input, zone)
  {
    hide ToUtcMs, CandidateOffsets, WallClockPartsInZone, ParseNaiveComponents, Min;
    var components := ParseNaiveComponents(input);
    if components.None? {
      return Err(NotWallClock);
    }
    var target := components.value;
    var naiveAsUtcMs := ToUtcMs(target);
    var offsets := CandidateOffsets(target, zone);
    var matches: seq<int> := [];
    for i := 0 to |offsets|
      invariant matches == Matching(target, zone, offsets[..i])
    {
      var candidateMs := naiveAsUtcMs - offsets[i] * 60000;
      var roundTrip := WallClockPartsInZone(candidateMs, zone);
      assert offsets[..i + 1][..i] == offsets[..i];
      if roundTrip == target {
        matches := matches + [candidateMs];
      }
    }
    assert offsets[..|offsets|] == offsets;
    if |matches| == 0 {
      return Err(DoesNotExist);
    }
    return Ok(Min(matches));
  }

  // ---- what the digits mean ----

  function LocalYear(local: int): int {
    CivilOf(local / DAY).year
  }

  /** The instant, in the common era, shows these digits in the zone. */
  ghost predicate Renders(zone: Zone, instant: int, w: WallClockParts) {
    LocalYear(LocalSeconds(zone, instant)) >= 1 && WallClockPartsInZone(instant, zone) == w
  }

  /** The first instant that shows these digits. */
  ghost predicate Least(zone: Zone, instant: int, w: WallClockParts) {
    Renders(zone, instant, w) && forall t :: Renders(zone, t, w) ==> instant <= t
  }

  /** One of the two probes of that calendar day reports this offset. */
  predicate Offered(zone: Zone, w: WallClockParts, offset: int) {
    offset == OffsetMinutesAt(1000 * StartProbe(w), zone) || offset == OffsetMinutesAt(1000 * EndProbe(w), zone)
  }

  function NaiveSeconds(w: WallClockParts): int
    requires RealWallClock(w)
  {
    DAY * DayOf(Civil(w.year, w.month, w.day)) + TimeOfDay(w)
  }

  lemma UtcOfReal(w: WallClockParts)
    requires RealWallClock(w) && w.year >= 100
    ensures UtcSeconds(w) == NaiveSeconds(w)
  {
  }

  lemma SplitTime(day: int, hour: int, minute: int, second: int)
    requires 0 <= hour < 24 && 0 <= minute < 60 && 0 <= second < 60
    ensures var local := DAY * day + 3600 * hour + 60 * minute + second;
            && local / DAY == day && local % DAY / 3600 == hour
            && local % DAY % 3600 / 60 == minute && local % DAY % 60 == second
  {
    var time := 3600 * hour + 60 * minute + second;
    assert 0 <= time < DAY;
    assert (DAY * day + time) / DAY == day;
    assert (DAY * day + time) % DAY == time;
    assert time / 3600 == hour && time % 3600 == 60 * minute + second;
  }

  lemma JoinTime(time: int)
    requires 0 <= time < DAY
    ensures 0 <= time / 3600 < 24 && 0 <= time % 3600 / 60 < 60 && 0 <= time % 60 < 60
    ensures 3600 * (time / 3600) + 60 * (time % 3600 / 60) + time % 60 == time
  {
    var r := time % 3600;
    assert time % 60 == r % 60 by {
      assert time == 60 * (60 * (time / 3600)) + r;
    }
  }

  /** Real digits are what their own clock reading renders to. */
  lemma DigitsOfNaive(w: WallClockParts)
    requires RealWallClock(w) && w.year >= 1
    ensures PartsOfLocal(NaiveSeconds(w)) == w
    ensures LocalYear(NaiveSeconds(w)) == w.year
  {
    hide DayOf, CivilOf, Valid;
    SplitTime(DayOf(Civil(w.year, w.month, w.day)), w.hour, w.minute, w.second);
    CivilRoundTrip(Civil(w.year, w.month, w.day));
  }

  /** Rendered digits are real, and give the clock reading back. */
  lemma NaiveOfDigits(local: int)
    requires LocalYear(local) >= 1
    ensures RealWallClock(PartsOfLocal(local))
    ensures NaiveSeconds(PartsOfLocal(local)) == local
  {
    hide DayOf, CivilOf, Valid;
    CivilOfDay(local / DAY);
    JoinTime(local % DAY);
  }

  lemma YearBound(d: int, y: int)
    ensures d >= DayFromYear(y) <==> CivilOf(d).year >= y
  {
    hide DayFromYear, CivilOf;
    CivilOfDay(d);
    var r := YearOfDay(d);
    if r < y {
      YearsIncrease(r + 1, y);
    } else {
      YearsIncrease(y, r);
    }
  }
}
