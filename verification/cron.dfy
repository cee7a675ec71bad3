/// Cron schedules: when a set of fields fires, and the search for the next run.
module Cron {
  import opened Prelude
  import opened Calendar
  import Arith

  const MINUTE := 60_000
  const HOUR := 3_600_000
  const DAY := 86_400_000
  const WINDOW := 366 * 5 * 24 * HOUR

  datatype Fields = Fields(minute: seq<int>, hour: seq<int>, dom: seq<int>, month: seq<int>, dow: seq<int>,
                           domIsStar: bool, dowIsStar: bool)

  // ----- when the fields fire -----

  predicate DayMatches(f: Fields, date: Date, weekDay: int) {
    var domHit, dowHit := date.day in f.dom, weekDay in f.dow;
    if f.domIsStar && f.dowIsStar then true
    else if f.domIsStar then dowHit
    else if f.dowIsStar then domHit
    else domHit || dowHit
  }

  predicate DayFires(f: Fields, day: int) {
    DateOf(day).month in f.month && DayMatches(f, DateOf(day), WeekDay(day))
  }

  /** `clock` is a time of day in milliseconds. */
  predicate ClockFires(f: Fields, clock: int) {
    clock % HOUR / MINUTE in f.minute && clock / HOUR in f.hour
  }

  /** The instant `t`, in milliseconds since 1970, lies in a minute the fields name. */
  predicate Matches(f: Fields, t: int) {
    ClockFires(f, t % DAY) && DayFires(f, t / DAY)
  }

  predicate WholeMinute(t: int) {
    t % MINUTE == 0
  }

  // ----- the search -----

  function Search(f: Fields, t: int, limit: int): Option<int>
    decreases limit - t
  {
    if t > limit then None
    else if Matches(f, t) then Some(t)
    else Search(f, t + MINUTE, limit)
  }

  function NextMinute(from: int): int {
    from / MINUTE * MINUTE + MINUTE
  }

  function NextRun(f: Fields, from: int): Option<int> {
    Search(f, NextMinute(from), from + WINDOW)
  }

  method FindNextRun(f: Fields, from: int) returns (r: Option<int>)
    ensures r == NextRun(f, from)
  {
    var t := NextMinute(from);
    var limit := from + WINDOW;
    while t <= limit
      invariant NextRun(f, from) == Search(f, t, limit)
    {
      if Matches(f, t) {
        return Some(t);
      }
      t := t + MINUTE;
    }
    return None;
  }

  lemma BetweenMinutes(t: int, u: int)
    requires WholeMinute(t) && t < u < t + MINUTE
    ensures !WholeMinute(u)
  {
    Arith.DivisionIs(u, t / MINUTE, MINUTE, u - t);
  }

  /** No whole minute from `lo` to before `hi` matches. */
  ghost predicate Quiet(f: Fields, lo: int, hi: int) {
    forall u | lo <= u < hi && WholeMinute(u) :: !Matches(f, u)
  }

  lemma QuietGrows(f: Fields, t: int, hi: int)
    requires WholeMinute(t) && !Matches(f, t) && Quiet(f, t + MINUTE, hi)
    ensures Quiet(f, t, hi)
  {
    forall u | t <= u < hi && WholeMinute(u) ensures !Matches(f, u) {
      if t < u < t + MINUTE {
        BetweenMinutes(t, u);
      }
    }
  }

  lemma MinuteAfter(t: int)
    requires WholeMinute(t)
    ensures WholeMinute(t + MINUTE)
  {
  }

  lemma {:induction false} SearchIsLeast(f: Fields, t: int, limit: int)
    requires WholeMinute(t)
    ensures match Search(f, t, limit)
            case Some(r) => t <= r <= limit && WholeMinute(r) && Matches(f, r) && Quiet(f, t, r)
            case None => Quiet(f, t, limit + 1)
    decreases limit - t
  {
    if t <= limit && !Matches(f, t) {
      MinuteAfter(t);
      SearchIsLeast(f, t + MINUTE, limit);
      QuietGrows(f, t, match Search(f, t, limit) case Some(r) => r case None => limit + 1);
    }
  }

  lemma NextMinuteIsNext(from: int)
    ensures WholeMinute(NextMinute(from)) && from < NextMinute(from)
    ensures forall u | from < u && WholeMinute(u) :: NextMinute(from) <= u
  {
  }

  /** The search returns the least whole minute strictly after `from` that matches, if the window holds one. */
  lemma NextRunIsLeast(f: Fields, from: int)
    ensures match NextRun(f, from)
            case Some(r) => from < r <= from + WINDOW && WholeMinute(r) && Matches(f, r) && Quiet(f, from + 1, r)
            case None => Quiet(f, from + 1, from + WINDOW + 1)
  {
    NextMinuteIsNext(from);
    SearchIsLeast(f, NextMinute(from), from + WINDOW);
  }

  lemma FoundBy(f: Fields, from: int, t: int)
    requires from < t <= from + WINDOW && WholeMinute(t) && Matches(f, t)
    ensures NextRun(f, from).Some? && NextRun(f, from).value <= t
  {
    NextRunIsLeast(f, from);
  }

  // ----- days and times of day -----

  function At(day: int, clock: int): int {
    day * DAY + clock
  }

  lemma AtSplits(day: int, clock: int)
    requires 0 <= clock < DAY
    ensures At(day, clock) / DAY == day && At(day, clock) % DAY == clock
  {
    Arith.DivisionIs(At(day, clock), day, DAY, clock);
  }

  lemma AtJoins(t: int)
    ensures t == At(t / DAY, t % DAY)
    ensures WholeMinute(t) <==> WholeMinute(t % DAY)
  {
    Arith.ModMod(t, 1440, MINUTE);
  }

  /** A time of day that fires on one firing day fires on every other. */
  lemma MatchMoves(f: Fields, t0: int, day: int)
    requires Matches(f, t0) && WholeMinute(t0) && DayFires(f, day)
    ensures Matches(f, At(day, t0 % DAY)) && WholeMinute(At(day, t0 % DAY))
  {
    AtSplits(day, t0 % DAY);
    AtJoins(t0);
    AtJoins(At(day, t0 % DAY));
  }

  // ----- dates outside 29 February recur within 366 days -----

  predicate IsLeapDay(d: Date) {
    d.month == 2 && d.day == 29
  }

  lemma SameDateNextYear(y: int, m: int, d: int)
    requires 1 <= m <= 12 && 1 <= d <= DaysInMonth(m, false)
    ensures ValidDate(Date(y, m, d)) && ValidDate(Date(y + 1, m, d))
    ensures 365 <= DayNumber(Date(y + 1, m, d)) - DayNumber(Date(y, m, d)) <= 366
  {
    YearStep(y);
    NoTwoLeapYears(y);
  }

  lemma NoTwoLeapYears(y: int)
    ensures !IsLeap(y) || !IsLeap(y + 1)
  {
  }

  lemma DayInYear(y: int, m: int, d: int)
    requires ValidDate(Date(y, m, d))
    ensures DayFromYear(y) <= DayNumber(Date(y, m, d)) < DayFromYear(y + 1)
  {
    YearStep(y);
    MonthStep(m, IsLeap(y));
    MonthsAscend(m + 1, 13, IsLeap(y));
  }

  /** Every date but 29 February occurs in any 366 consecutive days. */
  lemma DateOccursIn(first: int, m: int, d: int) returns (y: int)
    requires 1 <= m <= 12 && 1 <= d <= DaysInMonth(m, false)
    ensures ValidDate(Date(y, m, d)) && first <= DayNumber(Date(y, m, d)) < first + 366
  {
    y := YearOf(first);
    YearStep(y);
    SameDateNextYear(y, m, d);
    DayInYear(y, m, d);
    DayInYear(y + 1, m, d);
    if DayNumber(Date(y, m, d)) < first {
      y := y + 1;
    }
  }

  lemma DateOccurs(first: int, m: int, d: int) returns (day: int)
    requires 1 <= m <= 12 && 1 <= d <= DaysInMonth(m, false)
    ensures first <= day < first + 366
    ensures DateOf(day).month == m && DateOf(day).day == d
  {
    var y := DateOccursIn(first, m, d);
    DayNumberIsInverse(Date(y, m, d));
    day := DayNumber(Date(y, m, d));
  }

  /** The first four weeks after the first of a month are in that month. */
  lemma LaterInMonth(y: int, m: int, k: int)
    requires 1 <= m <= 12 && 0 <= k < 28
    ensures ValidDate(Date(y, m, 1)) && DateOf(DayNumber(Date(y, m, 1)) + k) == Date(y, m, k + 1)
  {
    DayNumberIsInverse(Date(y, m, k + 1));
  }

  lemma WeekDaySoon(start: int, first: int, w: int) returns (k: int)
    requires 0 <= w < 7 && first - 7 <= start
    ensures 0 <= k < (if start < first then 14 else 7) && first <= start + k && WeekDay(start + k) == w
  {
    var day := WeekDayOccurs(if start < first then start + 7 else start, w);
    k := day - start;
  }

  /** Every weekday occurs in a given month in any 366 consecutive days, and not only on the 29th. */
  lemma WeekDayInMonthOccurs(first: int, m: int, w: int) returns (day: int)
    requires 1 <= m <= 12 && 0 <= w < 7
    ensures first <= day < first + 366
    ensures DateOf(day).month == m && !IsLeapDay(DateOf(day)) && WeekDay(day) == w
  {
    var y := DateOccursIn(first - 7, m, 1);
    var start := DayNumber(Date(y, m, 1));
    var k := WeekDaySoon(start, first, w);
    LaterInMonth(y, m, k);
    day := start + k;
  }

  /** If a day outside 29 February fires, then one of any 366 consecutive days does. */
  lemma OrdinaryDayRecurs(f: Fields, w: int, first: int) returns (day: int)
    requires DayFires(f, w) && !IsLeapDay(DateOf(w))
    ensures first <= day < first + 366 && DayFires(f, day)
  {
    var date := DateOf(w);
    if WeekDay(w) in f.dow && !f.dowIsStar {
      day := WeekDayInMonthOccurs(first, date.month, WeekDay(w));
    } else {
      day := DateOccurs(first, date.month, date.day);
    }
  }

  /**
   * An expression that matches at all outside 29 February is never more than
   * 366 days away from its next run.
   */
  lemma NextRunWithinAYear(f: Fields, from: int, t0: int)
    requires WholeMinute(t0) && Matches(f, t0) && !IsLeapDay(DateOf(t0 / DAY))
    ensures NextRun(f, from).Some? && NextRun(f, from).value <= from + 366 * DAY
  {
    var clock := t0 % DAY;
    var e := (from - clock) / DAY;
    var day := OrdinaryDayRecurs(f, t0 / DAY, e + 1);
    MatchMoves(f, t0, day);
    assert from < At(day, clock) <= from + 366 * DAY by {
      assert At(e, clock) <= from < At(e + 1, clock);
      assert At(e + 1, clock) <= At(day, clock) <= At(e + 366, clock);
    }
    FoundBy(f, from, At(day, clock));
  }

  // ----- expressions that fire on 29 February only -----

  function LeapDay(y: int): int {
    DayFromYear(y) + 59
  }

  lemma LeapDayIs(y: int)
    requires IsLeap(y)
    ensures DateOf(LeapDay(y)) == Date(y, 2, 29)
  {
    DayNumberIsInverse(Date(y, 2, 29));
  }

  lemma LeapDayOnly(day: int)
    requires IsLeapDay(DateOf(day))
    ensures IsLeap(DateOf(day).year) && day == LeapDay(DateOf(day).year)
  {
    DateOfIsInverse(day);
  }

  ghost predicate FiresOnLeapDaysOnly(f: Fields) {
    forall t | WholeMinute(t) && Matches(f, t) :: IsLeapDay(DateOf(t / DAY))
  }

  lemma OtherDayContradicts(f: Fields, t0: int, day: int)
    requires FiresOnLeapDaysOnly(f) && WholeMinute(t0) && Matches(f, t0) && DayFires(f, day)
    ensures IsLeapDay(DateOf(day))
  {
    MatchMoves(f, t0, day);
    AtSplits(day, t0 % DAY);
  }

  /** Then the day of the month decides, not the weekday. */
  lemma LeapDayIsNamed(f: Fields, t0: int)
    requires FiresOnLeapDaysOnly(f) && WholeMinute(t0) && Matches(f, t0)
    ensures 2 in f.month && 29 in f.dom
    ensures !(f.domIsStar && f.dowIsStar) && !(WeekDay(t0 / DAY) in f.dow && !f.dowIsStar)
  {
    var w := t0 / DAY;
    assert DayFires(f, w) && IsLeapDay(DateOf(w));
    if f.domIsStar && f.dowIsStar {
      var day := DateOccurs(w, 2, 1);
      OtherDayContradicts(f, t0, day);
    } else if WeekDay(w) in f.dow && !f.dowIsStar {
      var day := WeekDayInMonthOccurs(w, 2, WeekDay(w));
      OtherDayContradicts(f, t0, day);
    }
  }

  lemma EveryLeapDayFires(f: Fields, t0: int, y: int)
    requires FiresOnLeapDaysOnly(f) && WholeMinute(t0) && Matches(f, t0) && IsLeap(y)
    ensures DayFires(f, LeapDay(y))
  {
    LeapDayIs(y);
    LeapDayIsNamed(f, t0);
  }

  /** A year divisible by 100 that is not a leap year. */
  predicate SkippedCentury(y: int) {
    y % 100 == 0 && y % 400 != 0
  }

  lemma CommonYearInCycle(y: int)
    requires !IsLeap(y)
    ensures (y - 1) % 400 == y % 400 - 1
  {
    if y % 400 == 0 {
      assert y == 4 * (100 * (y / 400));
      Arith.DivisionIs(y, 100 * (y / 400), 4, 0);
    }
    Arith.DivisionIs(y - 1, y / 400, 400, y % 400 - 1);
  }

  /** The last leap year not after `y`. */
  function LeapBefore(y: int): (a: int)
    ensures IsLeap(a) && a <= y
    ensures forall z | a < z <= y :: !IsLeap(z)
    decreases y % 400
  {
    if IsLeap(y) then y
    else
      CommonYearInCycle(y);
      LeapBefore(y - 1)
  }

  /** The next leap year after the leap year `a`. */
  function LeapAfter(a: int): int
  {
    if SkippedCentury(a + 4) then a + 8 else a + 4
  }

  lemma NotMultipleOfFour(a: int, z: int)
    requires a % 4 == 0 && (a < z < a + 4 || a + 4 < z < a + 8)
    ensures !IsLeap(z)
  {
    if z < a + 4 {
      Arith.DivisionIs(z, a / 4, 4, z - a);
    } else {
      Arith.DivisionIs(z, a / 4 + 1, 4, z - a - 4);
    }
  }

  lemma AfterSkippedCentury(s: int)
    requires SkippedCentury(s)
    ensures !IsLeap(s) && IsLeap(s + 4)
  {
    assert s == 4 * (25 * (s / 100));
    Arith.DivisionIs(s + 4, s / 100, 100, 4);
  }

  lemma LeapAfterIsNext(a: int)
    requires IsLeap(a)
    ensures IsLeap(LeapAfter(a)) && forall z | a < z < LeapAfter(a) :: !IsLeap(z)
  {
    var b := LeapAfter(a);
    forall z | a < z < b ensures !IsLeap(z) {
      if z == a + 4 {
        AfterSkippedCentury(z);
      } else {
        NotMultipleOfFour(a, z);
      }
    }
    if SkippedCentury(a + 4) {
      AfterSkippedCentury(a + 4);
    }
  }

  lemma LeapGap(a: int)
    requires IsLeap(a)
    ensures LeapDay(LeapAfter(a)) == LeapDay(a) + if SkippedCentury(a + 4) then 2921 else 1461
  {
    LeapAfterIsNext(a);
    YearsWithoutLeap(a, LeapAfter(a));
  }

  lemma {:induction false} YearsWithoutLeap(a: int, b: int)
    requires a < b && IsLeap(a) && forall z | a < z < b :: !IsLeap(z)
    ensures DayFromYear(b) == DayFromYear(a) + 365 * (b - a) + 1
    decreases b - a
  {
    YearStep(b - 1);
    if a < b - 1 {
      YearsWithoutLeap(a, b - 1);
    }
  }

  // ----- exactly when the window is too short -----

  predicate ClockMinute(f: Fields, clock: int) {
    0 <= clock < DAY && WholeMinute(clock) && ClockFires(f, clock)
  }

  /** The first and the last minute of the day that the fields name. */
  ghost predicate ClockSpan(f: Fields, first: int, last: int) {
    && ClockMinute(f, first)
    && ClockMinute(f, last)
    && forall c | ClockMinute(f, c) :: first <= c <= last
  }

  lemma ClockSpanExists(f: Fields, t0: int) returns (first: int, last: int)
    requires WholeMinute(t0) && Matches(f, t0)
    ensures ClockSpan(f, first, last)
  {
    AtJoins(t0);
    var c0 := t0 % DAY;
    first, last := c0, c0;
    var c := 0;
    while c < DAY
      invariant ClockMinute(f, first) && ClockMinute(f, last)
      invariant forall d | ClockMinute(f, d) && d < c :: first <= d <= last
    {
      if ClockMinute(f, c) {
        first := if c < first then c else first;
        last := if last < c then c else last;
      }
      c := c + 1;
    }
  }

  ghost predicate AroundCentury(from: int, first: int, last: int, s: int) {
    && SkippedCentury(s)
    && At(LeapDay(s - 4), last) <= from
    && from + WINDOW < At(LeapDay(s + 4), first)
  }

  lemma AtAscends(d: int, c: int, d': int, c': int)
    requires d < d' || (d == d' && c <= c')
    requires 0 <= c < DAY && 0 <= c' < DAY
    ensures At(d, c) <= At(d', c')
    ensures d < d' ==> At(d, c) < At(d', c')
  {
  }

  lemma NoLeapAround(s: int, y: int)
    requires SkippedCentury(s) && s - 4 < y < s + 4
    ensures !IsLeap(y)
  {
    if y == s {
      AfterSkippedCentury(s);
    } else {
      assert s == 4 * (25 * (s / 100));
      NotMultipleOfFour(s - 4, y);
    }
  }

  lemma LeapDayIsOutside(from: int, first: int, last: int, s: int, y: int, c: int)
    requires AroundCentury(from, first, last, s) && IsLeap(y)
    requires 0 <= first <= c <= last < DAY
    ensures At(LeapDay(y), c) <= from || from + WINDOW < At(LeapDay(y), c)
  {
    if y <= s - 4 {
      YearsAscend(y, s - 4);
      AtAscends(LeapDay(y), c, LeapDay(s - 4), last);
    } else if y >= s + 4 {
      YearsAscend(s + 4, y);
      AtAscends(LeapDay(s + 4), first, LeapDay(y), c);
    } else {
      NoLeapAround(s, y);
    }
  }

  lemma CenturyIsSilent(f: Fields, from: int, first: int, last: int, s: int)
    requires FiresOnLeapDaysOnly(f) && ClockSpan(f, first, last) && AroundCentury(from, first, last, s)
    ensures NextRun(f, from).None?
  {
    NextRunIsLeast(f, from);
    if NextRun(f, from).Some? {
      var t := NextRun(f, from).value;
      AtJoins(t);
      assert ClockMinute(f, t % DAY);
      LeapDayOnly(t / DAY);
      LeapDayIsOutside(from, first, last, s, DateOf(t / DAY).year, t % DAY);
    }
  }

  lemma LeapDayInYear(y: int)
    ensures DayFromYear(y) <= LeapDay(y) < DayFromYear(y + 1)
  {
    YearStep(y);
  }

  lemma LeapDayOfOtherYear(from: int, first: int, y: int)
    requires 0 <= first < DAY
    ensures y < YearOf(from / DAY) ==> At(LeapDay(y), first) <= from
    ensures YearOf(from / DAY) < y ==> from < At(LeapDay(y), first)
  {
    var day, current := from / DAY, YearOf(from / DAY);
    AtJoins(from);
    LeapDayInYear(y);
    if y < current {
      YearsAscend(y + 1, current);
      AtAscends(LeapDay(y), first, day, from % DAY);
    } else if current < y {
      YearsAscend(current + 1, y);
      AtAscends(day, from % DAY, LeapDay(y), first);
    }
  }

  /** A leap year whose 29 February, at time `first`, is not after `from`, while the next one is. */
  lemma LeapDaysAround(from: int, first: int) returns (a: int)
    requires 0 <= first < DAY
    ensures IsLeap(a) && At(LeapDay(a), first) <= from < At(LeapDay(LeapAfter(a)), first)
  {
    var y := YearOf(from / DAY);
    a := LeapBefore(y);
    if from < At(LeapDay(a), first) {
      a := LeapBefore(y - 1);
    }
    LeapDayOfOtherYear(from, first, a);
    LeapAfterIsNext(a);
    LeapDayOfOtherYear(from, first, LeapAfter(a));
  }

  lemma LeapMatch(f: Fields, t0: int, y: int, clock: int)
    requires FiresOnLeapDaysOnly(f) && WholeMinute(t0) && Matches(f, t0) && IsLeap(y) && ClockMinute(f, clock)
    ensures WholeMinute(At(LeapDay(y), clock)) && Matches(f, At(LeapDay(y), clock))
  {
    EveryLeapDayFires(f, t0, y);
    AtSplits(LeapDay(y), clock);
    AtJoins(At(LeapDay(y), clock));
  }

  lemma SilenceIsCentury(f: Fields, from: int, t0: int, first: int, last: int) returns (s: int)
    requires FiresOnLeapDaysOnly(f) && WholeMinute(t0) && Matches(f, t0) && ClockSpan(f, first, last)
    requires NextRun(f, from).None?
    ensures AroundCentury(from, first, last, s)
  {
    NextRunIsLeast(f, from);
    var a := LeapDaysAround(from, first);
    LeapGap(a);
    LeapAfterIsNext(a);
    LeapMatch(f, t0, LeapAfter(a), first);
    LeapMatch(f, t0, a, last);
    s := a + 4;
  }

  /**
   * An expression that can only fire on 29 February finds its next run, except
   * when the window lies wholly between the last match before a skipped leap
   * year and the first one after it.
   */
  lemma LeapDayRunMissedIff(f: Fields, from: int, t0: int, first: int, last: int)
    requires FiresOnLeapDaysOnly(f) && WholeMinute(t0) && Matches(f, t0) && ClockSpan(f, first, last)
    ensures NextRun(f, from).None? <==> exists s :: AroundCentury(from, first, last, s)
  {
    if NextRun(f, from).None? {
      var s := SilenceIsCentury(f, from, t0, first, last);
    } else {
      forall s ensures !AroundCentury(from, first, last, s) {
        if AroundCentury(from, first, last, s) {
          CenturyIsSilent(f, from, first, last, s);
        }
      }
    }
  }

  /** Such a window contains the 1 March on which the skipped leap day is missed. */
  lemma MissedWindowHoldsCentury(from: int, first: int, last: int, s: int)
    requires 0 <= first < DAY && 0 <= last < DAY && AroundCentury(from, first, last, s)
    ensures from < LeapDay(s) * DAY < from + WINDOW
  {
    YearsAscend(s - 4, s);
    YearsAscend(s, s + 4);
  }
}
