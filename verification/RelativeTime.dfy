/**
  formatRelativeTime.ts: an age in milliseconds shown as one unit and a count, rounded unit
  by unit.
 */
module RelativeTime {

  datatype Shown = JustNow | Minutes(n: int) | Hours(n: int) | Days(n: int) | Months(n: int)

  const MINUTE := 60000
  const HOUR := 3600000
  const DAY := 86400000

  /** Math.round of n / d: to the nearest integer, halves up. */
  function Round(n: int, d: int): int
    requires d > 0
  {
    (2 * n + d) / (2 * d)
  }

  function FormatAge(diffMs: int): Shown {
    var diffMinutes := Round(diffMs, MINUTE);
    if diffMinutes < 1 then JustNow
    else if diffMinutes < 60 then Minutes(diffMinutes)
    else
      var diffHours := Round(diffMinutes, 60);
      if diffHours < 24 then Hours(diffHours)
      else
        var diffDays := Round(diffHours, 24);
        if diffDays < 30 then Days(diffDays) else Months(Round(diffDays, 30))
  }

  function Unit(s: Shown): int {
    match s
    case JustNow => 0
    case Minutes(_) => 1
    case Hours(_) => 2
    case Days(_) => 3
    case Months(_) => 4
  }

  function CountOf(s: Shown): int {
    if s.JustNow? then 0 else s.n
  }

  predicate AtMost(a: Shown, b: Shown) {
    Unit(a) < Unit(b) || (Unit(a) == Unit(b) && CountOf(a) <= CountOf(b))
  }

  lemma RoundIsNearest(n: int, d: int)
    requires d == 24 || d == 30 || d == 60 || d == MINUTE
    ensures -d <= 2 * (n - d * Round(n, d)) < d
  {
  }

  lemma RoundIsMonotone(m: int, n: int, d: int)
    requires m <= n && (d == 24 || d == 30 || d == 60 || d == MINUTE)
    ensures Round(m, d) <= Round(n, d)
  {
  }

  /** An older instant never shows a smaller unit, nor a smaller count of the same unit. */
  lemma OlderNeverShowsLess(young: int, aged: int)
    requires young <= aged
    ensures AtMost(FormatAge(young), FormatAge(aged))
  {
    hide Round;
    var m1, m2 := Round(young, MINUTE), Round(aged, MINUTE);
    RoundIsMonotone(young, aged, MINUTE);
    RoundIsMonotone(m1, m2, 60);
    RoundIsMonotone(Round(m1, 60), Round(m2, 60), 24);
    RoundIsMonotone(Round(Round(m1, 60), 24), Round(Round(m2, 60), 24), 30);
  }

  /** Each count stays below the next unit, and never drops to zero. */
  lemma CountsStayInRange(diffMs: int)
    ensures match FormatAge(diffMs)
            case JustNow => diffMs < MINUTE / 2
            case Minutes(n) => 1 <= n <= 59
            case Hours(n) => 1 <= n <= 23
            case Days(n) => 1 <= n <= 29
            case Months(n) => 1 <= n
  {
    hide Round;
    var m := Round(diffMs, MINUTE);
    RoundIsNearest(diffMs, MINUTE);
    RoundIsNearest(m, 60);
    RoundIsNearest(Round(m, 60), 24);
    RoundIsNearest(Round(Round(m, 60), 24), 30);
  }

  /** What is shown, exactly: where each unit takes over, and which span each count covers. */
  lemma ShownExactly(diffMs: int)
    ensures var s := FormatAge(diffMs);
            && (s.JustNow? <==> diffMs < 30000)
            && (s.Minutes? <==> 30000 <= diffMs < 3570000)
            && (s.Hours? <==> 3570000 <= diffMs < 84570000)
            && (s.Days? <==> 84570000 <= diffMs < 2546970000)
            && (s.Months? <==> 2546970000 <= diffMs)
    ensures match FormatAge(diffMs)
            case JustNow => true
            case Minutes(n) => 60000 * n - 30000 <= diffMs < 60000 * n + 30000
            case Hours(n) => 3600000 * n - 1830000 <= diffMs < 3600000 * n + 1770000
            case Days(n) => 86400000 * n - 45030000 <= diffMs < 86400000 * n + 41370000
            case Months(n) => 2592000000 * n - 1341030000 <= diffMs < 2592000000 * n + 1250970000
  {
    hide Round;
    var m := Round(diffMs, MINUTE);
    var h := Round(m, 60);
    var d := Round(h, 24);
    RoundIsNearest(diffMs, MINUTE);
    RoundIsNearest(m, 60);
    RoundIsNearest(h, 24);
    RoundIsNearest(d, 30);
  }

  function Age(s: Shown): int {
    match s
    case JustNow => 0
    case Minutes(n) => n * MINUTE
    case Hours(n) => n * HOUR
    case Days(n) => n * DAY
    case Months(n) => n * 30 * DAY
  }

  /** Half a unit, plus half of each smaller unit rounded on the way. */
  function Tolerance(s: Shown): int {
    match s
    case JustNow => MINUTE / 2
    case Minutes(_) => MINUTE / 2
    case Hours(_) => HOUR / 2 + MINUTE / 2
    case Days(_) => DAY / 2 + HOUR / 2 + MINUTE / 2
    case Months(_) => 15 * DAY + DAY / 2 + HOUR / 2 + MINUTE / 2
  }

  /** The shown age is within the tolerance of the real one, for every instant in the past. */
  lemma ErrorIsBounded(diffMs: int)
    requires diffMs >= 0
    ensures -Tolerance(FormatAge(diffMs)) <= diffMs - Age(FormatAge(diffMs)) <= Tolerance(FormatAge(diffMs))
  {
    hide Round;
    var m := Round(diffMs, MINUTE);
    var h := Round(m, 60);
    var d := Round(h, 24);
    RoundIsNearest(diffMs, MINUTE);
    RoundIsNearest(m, 60);
    RoundIsNearest(h, 24);
    RoundIsNearest(d, 30);
  }

  /** The tolerance for days is reached: n days can be shown 12 h 30 min 30 s too early. */
  lemma DayToleranceIsReached(n: int)
    requires 2 <= n <= 29
    ensures FormatAge(n * DAY - (DAY / 2 + HOUR / 2 + MINUTE / 2)) == Days(n)
  {
    var diffMs := n * DAY - 45030000;
    assert Round(diffMs, MINUTE) == 1440 * n - 750;
    assert Round(1440 * n - 750, 60) == 24 * n - 12;
    assert Round(24 * n - 12, 24) == n;
  }
}
