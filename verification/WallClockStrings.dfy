/**
  The string side of business-timezone.ts: which strings are wall-clock digits, which
  carry their own offset, and that writing digits and reading them is the identity.
 */
module WallClockStrings {
  import opened Wrappers
  import opened Calendar
  import opened Text
  import opened BusinessTimezone
  import opened WallClockMeaning
  import opened WallClockOrder

  // ---- dispatch ----

  predicate IsSign(c: char) {
    c == '+' || c == '-'
  }

  /** The pattern "Z at the end, or a signed HH:MM or HHMM at the end". */
  predicate HasExplicitOffset(input: string) {
    var s := Trim(input);
    var n := |s|;
    || (n >= 1 && s[n - 1] == 'Z')
    || (n >= 5 && IsSign(s[n - 5]) && AllDigits(s[n - 4..]))
    || (n >= 6 && IsSign(s[n - 6]) && AllDigits(s[n - 5..n - 3]) && s[n - 3] == ':' && AllDigits(s[n - 2..]))
  }

  /** `dateOf` stands for the Date constructor on strings that carry their own offset. */
  function ParseBusinessDateTime(
    input: string, zone: Zone, dateOf: string -> Result<int, ParseError>): Result<int, ParseError>
  {
    if HasExplicitOffset(input) then dateOf(input) else ParsedWallClock(input, zone)
  }

  /** A string of wall-clock digits never looks like one with an offset. */
  lemma NaiveHasNoOffset(input: string)
    requires ParseNaiveComponents(input).Some?
    ensures !HasExplicitOffset(input)
  {
    hide IsSpace;
    NaivePatternHasNoOffset(Trim(input));
  }

  lemma NaivePatternHasNoOffset(s: string)
    requires MatchesNaivePattern(s)
    ensures s[|s| - 1] != 'Z' && !IsSign(s[|s| - 5]) && !IsSign(s[|s| - 6])
  {
    var n := |s|;
    assert s[14..16][1] == s[15] && s[14..16][0] == s[14] && s[11..13][0] == s[11] && s[11..13][1] == s[12];
    if n >= 19 {
      assert s[17..19][0] == s[17] && s[17..19][1] == s[18];
    }
    if n > 20 {
      assert forall i :: 20 <= i < n ==> s[i] == s[20..][i - 20];
    }
  }

  // ---- writing digits ----

  /** The form a datetime-local input sends, with seconds. */
  function FormatNaive(w: WallClockParts): string
    requires DigitRanges(w)
  {
    (Pad(w.year, 4) + "-" + Pad(w.month, 2) + "-" + Pad(w.day, 2))
    + "T" + (Pad(w.hour, 2) + ":" + Pad(w.minute, 2) + ":" + Pad(w.second, 2))
  }

  lemma NumberOfTwo(n: nat)
    requires n <= 99
    ensures Number(Pad(n, 2)) == n
  {
    assert Pow10(2) == 100;
    NumberOfPad(n, 2);
  }

  lemma NumberOfFour(n: nat)
    requires n <= 9999
    ensures Number(Pad(n, 4)) == n
  {
    assert Pow10(3) == 1000;
    assert Pow10(4) == 10000;
    NumberOfPad(n, 4);
  }

  lemma FormatShape(w: WallClockParts)
    requires DigitRanges(w)
    ensures var s := FormatNaive(w);
            && |s| == 19 && s[..4] == Pad(w.year, 4) && s[5..7] == Pad(w.month, 2) && s[8..10] == Pad(w.day, 2)
            && s[11..13] == Pad(w.hour, 2) && s[14..16] == Pad(w.minute, 2) && s[17..19] == Pad(w.second, 2)
            && s[4] == '-' && s[7] == '-' && s[10] == 'T' && s[13] == ':' && s[16] == ':'
  {
    hide Pad;
    var date := Pad(w.year, 4) + "-" + Pad(w.month, 2) + "-" + Pad(w.day, 2);
    var time := Pad(w.hour, 2) + ":" + Pad(w.minute, 2) + ":" + Pad(w.second, 2);
    var s := date + "T" + time;
    Field(date, "T", time, 0, 4);
    Field(date, "T", time, 5, 7);
    Field(date, "T", time, 8, 10);
    Field(date + "T", time, [], 0, 2);
    Field(date + "T", time, [], 3, 5);
    Field(date + "T", time, [], 6, 8);
  }

  lemma Field(a: string, b: string, c: string, i: nat, j: nat)
    requires i <= j
    ensures j <= |a| ==> (a + b + c)[i..j] == a[i..j]
    ensures j <= |b| ==> (a + b)[|a| + i..|a| + j] == b[i..j]
  {
  }

  /** Reading written digits gives the digits back, whether or not the calendar has them. */
  lemma ReadOfFormat(w: WallClockParts)
    requires DigitRanges(w)
    ensures ParseNaiveComponents(FormatNaive(w)) == Some(w)
  {
    hide FormatNaive, Pad;
    FormatShape(w);
    var s := FormatNaive(w);
    assert IsDigit(s[..4][0]) && s[..4][0] == s[0] && IsDigit(s[17..19][1]) && s[17..19][1] == s[18];
    TrimTrimmed(s);
    NumberOfFour(w.year);
    NumberOfTwo(w.month);
    NumberOfTwo(w.day);
    NumberOfTwo(w.hour);
    NumberOfTwo(w.minute);
    NumberOfTwo(w.second);
  }

  /** Written digits reach the zone's interpretation; an explicit offset never intervenes. */
  lemma WrittenDigitsAreInterpreted(w: WallClockParts, zone: Zone, dateOf: string -> Result<int, ParseError>)
    requires DigitRanges(w)
    ensures ParseBusinessDateTime(FormatNaive(w), zone, dateOf) ==
            match Interpret(w, zone) case None => Err(DoesNotExist) case Some(t) => Ok(t)
  {
    hide ParseNaiveComponents, FormatNaive, HasExplicitOffset, Interpret;
    ReadOfFormat(w);
    NaiveHasNoOffset(FormatNaive(w));
  }

  /** The texts that say these digits: with seconds, without them when they are zero, or with a fraction. */
  ghost predicate Says(s: string, w: WallClockParts) {
    && DigitRanges(w)
    && (|| s == FormatNaive(w)
        || (w.second == 0 && s == FormatNaive(w)[..16])
        || exists fraction :: fraction != "" && AllDigits(fraction) && s == FormatNaive(w) + "." + fraction)
  }

  /** A string reads as these digits exactly when, trimmed, it says them. */
  lemma ReadsExactly(input: string, w: WallClockParts)
    ensures ParseNaiveComponents(input) == Some(w) <==> Says(Trim(input), w)
  {
    var s := Trim(input);
    hide FormatNaive, Trim, Pad, Number, MatchesNaivePattern;
    if ParseNaiveComponents(input) == Some(w) {
      ParsedDigitRanges(input);
      ParsedText(s, w);
    }
    if Says(s, w) {
      SaidText(s, w);
    }
  }

  /** The digits at the pattern's places. */
  predicate HasFields(s: string, w: WallClockParts)
    requires MatchesNaivePattern(s)
  {
    && w.year == Number(s[..4]) && w.month == Number(s[5..7]) && w.day == Number(s[8..10])
    && w.hour == Number(s[11..13]) && w.minute == Number(s[14..16])
    && w.second == if |s| == 16 then 0 else Number(s[17..19])
  }

  lemma ParsedText(s: string, w: WallClockParts)
    requires MatchesNaivePattern(s) && HasFields(s, w) && DigitRanges(w)
    ensures Says(s, w)
  {
    hide FormatNaive, Pad, Number;
    var text := FormatNaive(w);
    FormatShape(w);
    PadOfNumber(s[..4]);
    PadOfNumber(s[5..7]);
    PadOfNumber(s[8..10]);
    PadOfNumber(s[11..13]);
    PadOfNumber(s[14..16]);
    FieldsInTurn(s, text);
    if |s| > 16 {
      PadOfNumber(s[17..19]);
      assert s[..19] == s[..16] + [s[16]] + s[17..19] == text[..16] + [text[16]] + text[17..19] == text;
      if |s| > 19 {
        assert s == s[..19] + "." + s[20..];
      }
    } else {
      assert s == s[..16];
    }
  }

  lemma FieldsInTurn(s: string, t: string)
    requires |s| >= 16 && |t| >= 16
    requires s[..4] == t[..4] && s[5..7] == t[5..7] && s[8..10] == t[8..10] && s[11..13] == t[11..13]
    requires s[14..16] == t[14..16]
    requires s[4] == t[4] && s[7] == t[7] && s[10] == t[10] && s[13] == t[13]
    ensures s[..16] == t[..16]
  {
    forall u: string | |u| >= 16
      ensures u[..16] == u[..4] + [u[4]] + u[5..7] + [u[7]] + u[8..10] + [u[10]] + u[11..13] + [u[13]] + u[14..16]
    {
    }
  }

  lemma SaidText(s: string, w: WallClockParts)
    requires Says(s, w)
    ensures MatchesNaivePattern(s) && HasFields(s, w)
  {
    hide FormatNaive, Pad, Number;
    var text := FormatNaive(w);
    FormatShape(w);
    SaidPrefix(s, w);
    FieldsOfPrefix(s, text);
    NumberOfFour(w.year);
    NumberOfTwo(w.month);
    NumberOfTwo(w.day);
    NumberOfTwo(w.hour);
    NumberOfTwo(w.minute);
    NumberOfTwo(w.second);
  }

  lemma SaidPrefix(s: string, w: WallClockParts)
    requires Says(s, w) && |FormatNaive(w)| == 19
    ensures |s| >= 16 && s[..16] == FormatNaive(w)[..16]
    ensures |s| == 16 ==> w.second == 0
    ensures |s| > 16 ==> |s| >= 19 && s[..19] == FormatNaive(w)
    ensures |s| > 19 ==> s[19] == '.' && |s| > 20 && AllDigits(s[20..])
  {
    hide FormatNaive;
    if fraction :| fraction != "" && AllDigits(fraction) && s == FormatNaive(w) + "." + fraction {
      assert s[20..] == fraction && s[..19] == FormatNaive(w);
    }
  }

  lemma FieldsOfPrefix(s: string, t: string)
    requires |s| >= 16 && |t| == 19 && s[..16] == t[..16] && (|s| > 16 ==> |s| >= 19 && s[..19] == t)
    ensures s[..4] == t[..4] && s[5..7] == t[5..7] && s[8..10] == t[8..10] && s[11..13] == t[11..13]
    ensures s[14..16] == t[14..16] && s[4] == t[4] && s[7] == t[7] && s[10] == t[10] && s[13] == t[13]
    ensures |s| > 16 ==> s[16] == t[16] && s[17..19] == t[17..19]
  {
    assert forall i :: 0 <= i < 16 ==> s[i] == s[..16][i] == t[i];
    assert |s| > 16 ==> forall i :: 0 <= i < 19 ==> s[i] == s[..19][i] == t[i];
  }

  /** Whatever says these digits reaches the zone's interpretation of them, in any of its forms. */
  lemma SayingIsInterpreted(
    input: string, w: WallClockParts, zone: Zone, dateOf: string -> Result<int, ParseError>)
    requires Says(Trim(input), w)
    ensures ParseBusinessDateTime(input, zone, dateOf) ==
            match Interpret(w, zone) case None => Err(DoesNotExist) case Some(t) => Ok(t)
  {
    hide ParseNaiveComponents, Says, HasExplicitOffset, Interpret;
    ReadsExactly(input, w);
    NaiveHasNoOffset(input);
  }

  /** A string that says no digits and names no offset is refused. */
  lemma OtherTextIsRefused(input: string, zone: Zone, dateOf: string -> Result<int, ParseError>)
    requires !HasExplicitOffset(input) && forall w :: !Says(Trim(input), w)
    ensures ParseBusinessDateTime(input, zone, dateOf) == Err(NotWallClock)
  {
    hide Says, HasExplicitOffset;
    var parsed := ParseNaiveComponents(input);
    if parsed.Some? {
      ReadsExactly(input, parsed.value);
    }
  }

  /** A sign, two digits, an optional colon and two digits. */
  predicate EndsInOffset(s: string, head: string, sign: char, hours: string, minutes: string) {
    && (sign == '+' || sign == '-')
    && |hours| == 2 && AllDigits(hours) && |minutes| == 2 && AllDigits(minutes)
    && (s == head + [sign] + hours + minutes || s == head + [sign] + hours + ":" + minutes)
  }

  ghost predicate NamesOffset(s: string) {
    (exists head :: s == head + "Z") || exists head, sign, hours, minutes :: EndsInOffset(s, head, sign, hours, minutes)
  }

  /** The endings that name an offset, exactly; such a string goes to the Date constructor untouched. */
  lemma OffsetsExactly(input: string, zone: Zone, dateOf: string -> Result<int, ParseError>)
    ensures HasExplicitOffset(input) <==> NamesOffset(Trim(input))
    ensures HasExplicitOffset(input) ==> ParseBusinessDateTime(input, zone, dateOf) == dateOf(input)
  {
    hide Trim, NamesOffset, ParsedWallClock;
    if HasExplicitOffset(input) {
      OffsetIsNamed(input);
    }
    if NamesOffset(Trim(input)) {
      NamedOffsetIsSeen(input);
    }
  }

  lemma OffsetIsNamed(input: string)
    requires HasExplicitOffset(input)
    ensures NamesOffset(Trim(input))
  {
    hide Trim;
    var s := Trim(input);
    var n := |s|;
    if s[n - 1] == 'Z' {
      assert s == s[..n - 1] + "Z";
    } else if n >= 5 && IsSign(s[n - 5]) && AllDigits(s[n - 4..]) {
      assert AllDigits(s[n - 4..n - 2]) && AllDigits(s[n - 2..]) by {
        assert forall i :: n - 4 <= i < n ==> s[i] == s[n - 4..][i - (n - 4)];
      }
      assert s == s[..n - 5] + [s[n - 5]] + s[n - 4..n - 2] + s[n - 2..];
      assert EndsInOffset(s, s[..n - 5], s[n - 5], s[n - 4..n - 2], s[n - 2..]);
    } else {
      assert s == s[..n - 6] + [s[n - 6]] + s[n - 5..n - 3] + ":" + s[n - 2..];
      assert EndsInOffset(s, s[..n - 6], s[n - 6], s[n - 5..n - 3], s[n - 2..]);
    }
  }

  lemma NamedOffsetIsSeen(input: string)
    requires NamesOffset(Trim(input))
    ensures HasExplicitOffset(input)
  {
    hide Trim;
    var s := Trim(input);
    var n := |s|;
    if !exists head :: s == head + "Z" {
      var head, sign, hours, minutes :| EndsInOffset(s, head, sign, hours, minutes);
      if s == head + [sign] + hours + minutes {
        assert s[n - 5] == sign && s[n - 4..] == hours + minutes;
      } else {
        assert s[n - 6] == sign && s[n - 5..n - 3] == hours && s[n - 3] == ':' && s[n - 2..] == minutes;
      }
    }
  }

  // ---- a zone the two probes do not cover ----

  /** UTC+12 that moves to UTC+13 at 02:00 local time on 27 September 2026. */
  function LateZone(second: int): int {
    if second < DAY * MakeDay(2026, 8, 26) + 14 * 3600 then 720 else 780
  }

  const LATE_ZONE: Zone := LateZone

  const MISSED := WallClockParts(2026, 9, 27, 1, 30, 0)

  /**
    One change a day is not enough: east of Greenwich a change can precede both UTC
    probes, and digits the zone does show, here 01:30, are then rejected.
   */
  lemma ExistingDigitsRejected()
    ensures InRange(LATE_ZONE) && ChangesRarely(LATE_ZONE)
    ensures Renders(LATE_ZONE, 1000 * (DAY * MakeDay(2026, 8, 26) + 13 * 3600 + 1800), MISSED)
    ensures Interpret(MISSED, LATE_ZONE) == None
  {
    hide CivilOf, RealWallClock, NaiveSeconds, PartsOfLocal, Interpret, MakeDay, DayOf, LocalYear;
    MissedIsReal();
    DigitsOfNaive(MISSED);
    var change := DAY * MakeDay(2026, 8, 26) + 14 * 3600;
    assert 1000 * (change - 1800) / 1000 == change - 1800;
    FitNeedsLaterOffset();
    InterpretIsLeastFit(LATE_ZONE, MISSED);
  }

  lemma MissedIsReal()
    ensures RealWallClock(MISSED) && UtcDay(MISSED) == MakeDay(2026, 8, 26) + 1
    ensures NaiveSeconds(MISSED) == UtcSeconds(MISSED) == DAY * MakeDay(2026, 8, 26) + DAY + 5400
    ensures MakeDay(2026, 8, 26) >= DayFromYear(101)
  {
    MakeDayInYear(2026, 8, 26);
    MakeDayInYear(2026, 8, 27);
    assert !Leap(2026);
    hide Leap, MakeDay;
  }

  lemma FitNeedsLaterOffset()
    ensures forall o :: !Fits(LATE_ZONE, MISSED, o)
  {
    hide CivilOf, RealWallClock, NaiveSeconds, PartsOfLocal, MakeDay, LocalYear;
    hide UtcSeconds, UtcDay, DayFromYear, ToUtcMs, Candidate;
    MissedIsReal();
    forall o | Fits(LATE_ZONE, MISSED, o) ensures o == 780 && LateZone(Candidate(MISSED, o) / 1000) == o {
      ProbesAreLate();
      FittingCandidate(LATE_ZONE, MISSED, o);
    }
    CandidateSecond(MISSED, 780);
  }

  lemma ProbesAreLate()
    ensures forall o :: Offered(LATE_ZONE, MISSED, o) ==> o == 780
  {
    hide CivilOf, RealWallClock, NaiveSeconds, PartsOfLocal, MakeDay, UtcSeconds, UtcDay, DayFromYear, OffsetMinutesAt;
    MissedIsReal();
    YearBound((StartProbe(MISSED) + 60 * 780) / DAY, 101);
    YearBound((EndProbe(MISSED) + 60 * 780) / DAY, 101);
    OffsetIsExact(LATE_ZONE, StartProbe(MISSED));
    OffsetIsExact(LATE_ZONE, EndProbe(MISSED));
  }
}
