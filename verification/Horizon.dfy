/** When the search for the next run of a cron expression (`cron.rs`) finds one: always, except for jobs that run on
    the 29th of February only, and then between two leap days that are eight years apart. */
module Horizon {
  import opened Calendar
  import opened Chars
  import opened Cron
  import opened Splitting

  // ----- dates that come every year -----

  /** The date exists in every year. */
  predicate IsYearly(month: int, day: int) { 1 <= month <= 12 && 1 <= day <= DaysInMonth(1, month) }

  lemma YearlyIsValid(year: int, month: int, day: int)
    requires IsYearly(month, day)
    ensures ValidDate(Date(year, month, day))
  {}

  /** Years begin in March, `y` being the one whose January is in year `y + 1`. */
  function MarchFirst(y: int): int { y / 400 * 146097 + YearStart(y % 400) - 719468 }

  lemma MarchFirstIs(y: int)
    ensures MarchFirst(y) == 365 * y + y / 4 - y / 100 + y / 400 - 719468
  {
    var era, yoe := y / 400, y % 400;
    assert y == 400 * era + yoe;
    assert y / 4 == 100 * era + yoe / 4 && y / 100 == 4 * era + yoe / 100;
  }

  lemma YearHasDays(y: int)
    ensures 365 <= MarchFirst(y + 1) - MarchFirst(y) <= 366
  {
    MarchFirstIs(y);
    MarchFirstIs(y + 1);
    NextQuotient4(y);
    NextQuotient100(y);
    NextQuotient400(y);
  }

  lemma NextQuotient400(y: int)
    ensures (y + 1) / 400 == y / 400 + if (y + 1) % 400 == 0 then 1 else 0
    ensures (y + 1) % 400 == 0 ==> (y + 1) % 100 == 0
  {}

  /** Some year that begins in March contains the day. */
  lemma YearOfDay(day: int) returns (y: int)
    ensures MarchFirst(y) <= day < MarchFirst(y + 1)
  {
    hide YearStart, YearLength, MonthStart, CivilFromDays;
    var c := MarchDateOf(day);
    MarchBounds(c);
    y := 400 * c.era + c.yoe;
    YearLengths(c.yoe);
    Quotient400(c.era, c.yoe);
    if c.yoe == 399 {
      Quotient400(c.era + 1, 0);
      ZeroStart();
    } else {
      Quotient400(c.era, c.yoe + 1);
    }
  }

  lemma ZeroStart()
    ensures YearStart(0) == 0
  {}

  lemma Quotient400(era: int, yoe: int)
    requires 0 <= yoe < 400
    ensures (400 * era + yoe) / 400 == era && (400 * era + yoe) % 400 == yoe
  {}

  /** Day of the March-based year on which a date falls. */
  function DayOfYear(month: int, day: int): int { MonthStart(month + if month > 2 then -3 else 9) + day - 1 }

  lemma DaysOfDate(year: int, month: int, day: int)
    ensures DaysFromCivil(Date(year, month, day)) == MarchFirst(if month <= 2 then year - 1 else year) + DayOfYear(month, day)
  {}

  lemma YearlyInYear(month: int, day: int)
    requires IsYearly(month, day)
    ensures 0 <= DayOfYear(month, day) < 365
  {}

  /** A date that exists in every year comes within 366 days of any day. */
  lemma YearlyComes(start: int, month: int, day: int) returns (year: int)
    requires IsYearly(month, day)
    ensures start <= DaysFromCivil(Date(year, month, day)) < start + 366
  {
    var y := YearOfDay(start);
    YearHasDays(y);
    YearHasDays(y + 1);
    YearlyInYear(month, day);
    var d := DayOfYear(month, day);
    var z := if MarchFirst(y) + d < start then y + 1 else y;
    year := if month <= 2 then z + 1 else z;
    DaysOfDate(year, month, day);
    hide MarchFirst, DayOfYear;
  }

  // ----- what an expression allows -----

  /** The expression runs on the date in whatever year; the days of the week are left out. */
  predicate AllowsDate(e: CronExpr, month: int, day: int)
    requires Sound(e) && 1 <= month <= 12 && 1 <= day <= 31
  {
    e.month[month - 1] && (e.domRestricted ==> e.dayOfMonth[day - 1])
  }

  /** It runs on some date that every year has. */
  ghost predicate AllowsYearly(e: CronExpr)
    requires Sound(e)
  {
    exists month, day :: IsYearly(month, day) && AllowsDate(e, month, day)
  }

  /** No day of the week and no date but the 29th of February is allowed. */
  ghost predicate OnlyLeapDays(e: CronExpr)
    requires Sound(e)
  {
    !e.dowRestricted && !AllowsYearly(e) && AllowsDate(e, 2, 29)
  }

  /** No day of the week is allowed, and no date that exists. */
  ghost predicate AllowsNoDate(e: CronExpr)
    requires Sound(e)
  {
    !e.dowRestricted && !AllowsYearly(e) && !AllowsDate(e, 2, 29)
  }

  predicate RunsAtTime(e: CronExpr, t: int)
    requires Sound(e)
  {
    0 <= t < MINUTES_PER_DAY && e.hour[t / 60] && e.minute[t % 60]
  }

  lemma SomeTime(e: CronExpr) returns (t: int)
    requires Sound(e)
    ensures RunsAtTime(e, t)
  {
    var hour :| 0 <= hour < 24 && e.hour[hour];
    var minute :| 0 <= minute < 60 && e.minute[minute];
    t := 60 * hour + minute;
  }

  lemma MatchIs(e: CronExpr, k: int)
    requires Sound(e)
    ensures Matches(e, k) <==> DayMatches(e, k / MINUTES_PER_DAY) && RunsAtTime(e, k % MINUTES_PER_DAY)
  {
    hide DayMatches;
  }

  lemma TimeOfDay(day: int, t: int)
    requires 0 <= t < MINUTES_PER_DAY
    ensures (day * MINUTES_PER_DAY + t) / MINUTES_PER_DAY == day && (day * MINUTES_PER_DAY + t) % MINUTES_PER_DAY == t
  {}

  lemma DateMatches(e: CronExpr, date: Date)
    requires Sound(e) && ValidDate(date) && AllowsDate(e, date.month, date.day) && !e.dowRestricted
    ensures DayMatches(e, DaysFromCivil(date))
  {
    CivilRoundTrip(date);
    hide CivilFromDays, DaysFromCivil;
  }

  /** The dates on which an expression with free days of the week runs. */
  lemma MatchHasDate(e: CronExpr, day: int)
    requires Sound(e) && !e.dowRestricted && DayMatches(e, day)
    ensures var date := CivilFromDays(day);
      && ValidDate(date) && DaysFromCivil(date) == day && AllowsDate(e, date.month, date.day)
      && (IsYearly(date.month, date.day) || (date.month == 2 && date.day == 29 && Leap(date.year)))
  {
    DaysRoundTrip(day);
    hide CivilFromDays, DaysFromCivil;
  }

  // ----- found -----

  /** A match on one of the next `days` days is found. */
  lemma FoundOnDay(e: CronExpr, start: int, day: int)
    requires Sound(e) && DayMatches(e, day) && start / MINUTES_PER_DAY < day < start / MINUTES_PER_DAY + 4 * 366
    ensures !NoMatch(e, start, start + MAX_MINUTES_AHEAD)
  {
    hide DayMatches;
    var t := SomeTime(e);
    var k := day * MINUTES_PER_DAY + t;
    TimeOfDay(day, t);
    MatchIs(e, k);
    hide Matches;
  }

  lemma YearlyIsFound(e: CronExpr, start: int)
    requires Sound(e) && !e.dowRestricted && AllowsYearly(e)
    ensures !NoMatch(e, start, start + MAX_MINUTES_AHEAD)
  {
    var month, day :| IsYearly(month, day) && AllowsDate(e, month, day);
    var year := YearlyComes(start / MINUTES_PER_DAY + 1, month, day);
    YearlyIsValid(year, month, day);
    DateMatches(e, Date(year, month, day));
    hide DaysFromCivil, DayMatches, NoMatch;
    FoundOnDay(e, start, DaysFromCivil(Date(year, month, day)));
  }

  lemma WeekdayIsFound(e: CronExpr, start: int)
    requires Sound(e) && e.dowRestricted
    ensures !NoMatch(e, start, start + MAX_MINUTES_AHEAD)
  {
    var m :| 0 <= m < 12 && e.month[m];
    var weekday :| 0 <= weekday < 7 && e.dayOfWeek[weekday];
    hide NoMatch, AllowsAny;
    var day := WeekdayComes(start / MINUTES_PER_DAY + 1, m + 1, weekday);
    WeekdayMatches(e, day);
    FoundOnDay(e, start, day);
  }

  /** The first seven days of a month have all days of the week. */
  lemma WeekdayComes(start: int, month: int, weekday: int) returns (day: int)
    requires 1 <= month <= 12 && 0 <= weekday < 7
    ensures start <= day < start + 372 && Weekday(day) == weekday && CivilFromDays(day).month == month
  {
    var year := YearlyComes(start, month, 1);
    var first := DaysFromCivil(Date(year, month, 1));
    hide CivilFromDays, DaysFromCivil;
    var i := (weekday - Weekday(first)) % 7;
    WeekdayAfter(first, weekday);
    FirstWeek(year, month, i);
    hide Weekday;
    day := first + i;
  }

  lemma WeekdayMatches(e: CronExpr, day: int)
    requires Sound(e) && e.dowRestricted && e.dayOfWeek[Weekday(day)]
    requires 1 <= CivilFromDays(day).month <= 12 && e.month[CivilFromDays(day).month - 1]
    ensures DayMatches(e, day)
  {
    DaysRoundTrip(day);
    hide CivilFromDays, Weekday;
  }

  lemma WeekdayAfter(first: int, weekday: int)
    requires 0 <= weekday < 7
    ensures Weekday(first + (weekday - Weekday(first)) % 7) == weekday
  {}

  lemma FirstWeek(year: int, month: int, i: int)
    requires 1 <= month <= 12 && 0 <= i < 7
    ensures CivilFromDays(DaysFromCivil(Date(year, month, 1)) + i) == Date(year, month, 1 + i)
  {
    DaysOfDate(year, month, 1);
    DaysOfDate(year, month, 1 + i);
    CivilRoundTrip(Date(year, month, 1 + i));
    hide CivilFromDays, DaysFromCivil, MarchFirst, MonthStart;
  }

  // ----- leap days -----

  function LeapDay(year: int): int { DaysFromCivil(Date(year, 2, 29)) }

  lemma LeapDayIs(year: int)
    ensures LeapDay(year) == MarchFirst(year - 1) + 365
  {
    DaysOfDate(year, 2, 29);
  }

  lemma {:induction false} MarchFirstGrows(y: int, z: int)
    requires y <= z
    ensures MarchFirst(z) >= MarchFirst(y) + 365 * (z - y)
    decreases z - y
  {
    hide MarchFirst;
    if y < z {
      YearHasDays(y);
      MarchFirstGrows(y + 1, z);
    }
  }

  lemma LeapDaysGrow(y: int, z: int)
    ensures y < z <==> LeapDay(y) < LeapDay(z)
  {
    LeapDayIs(y);
    LeapDayIs(z);
    if y <= z {
      MarchFirstGrows(y - 1, z - 1);
    } else {
      MarchFirstGrows(z - 1, y - 1);
    }
    hide MarchFirst;
  }

  /** Two leap years that follow each other after four years. */
  lemma NextLeapDay(y: int)
    requires Leap(y) && Leap(y + 4)
    ensures LeapDay(y + 4) == LeapDay(y) + 1461
  {
    LeapDayIs(y);
    LeapDayIs(y + 4);
    MarchFirstIs(y - 1);
    MarchFirstIs(y + 3);
    hide MarchFirst;
    Centuries(y);
  }

  lemma Centuries(y: int)
    requires Leap(y)
    ensures (y + 3) / 4 == (y - 1) / 4 + 1
    ensures (y + 3) / 100 - (y - 1) / 100 == (y + 3) / 400 - (y - 1) / 400
  {
    FourYears(y, 100);
    FourYears(y, 400);
    assert y % 400 == 0 ==> y % 100 == 0;
  }

  lemma FourYears(y: int, m: int)
    requires y % 4 == 0 && (m == 100 || m == 400)
    ensures (y + 3) / m - (y - 1) / m == if y % m == 0 then 1 else 0
  {
    RemainderOfFour(y, m);
    var q, r := y / m, y % m;
    assert y == m * q + r;
    QuotientIs(y + 3, m, q, r + 3);
    if r == 0 {
      assert m * (q - 1) == m * q - m;
      QuotientIs(y - 1, m, q - 1, m - 1);
    } else {
      QuotientIs(y - 1, m, q, r - 1);
    }
  }

  lemma RemainderOfFour(y: int, m: int)
    requires y % 4 == 0 && (m == 100 || m == 400)
    ensures y % m <= m - 4
  {
    if m == 100 {
      assert y == 100 * (y / 100) + y % 100;
    } else {
      assert y == 400 * (y / 400) + y % 400;
    }
  }

  lemma QuotientIs(n: int, m: int, q: int, r: int)
    requires (m == 4 || m == 100 || m == 400) && n == m * q + r && 0 <= r < m
    ensures n / m == q && n % m == r
  {}

  lemma LeapAgain(y: int)
    requires Leap(y) && !Leap(y + 4)
    ensures Leap(y + 8)
  {
    var q := y / 4;
    assert y == 4 * q;
    QuotientIs(y + 4, 4, q + 1, 0);
    QuotientIs(y + 8, 4, q + 2, 0);
    QuotientIs(y + 8, 100, (y + 4) / 100, 4);
  }

  /** `start` is past the last match on the 29th of February of `y`, the next leap year is eight years away, and the
      horizon ends before the first match on its 29th of February. */
  ghost predicate BetweenLeapDays(e: CronExpr, start: int, y: int)
    requires Sound(e)
  {
    && Leap(y) && !Leap(y + 4)
    && forall t | RunsAtTime(e, t) ::
         LeapDay(y) * MINUTES_PER_DAY + t < start && start + MAX_MINUTES_AHEAD <= LeapDay(y + 8) * MINUTES_PER_DAY + t
  }

  ghost predicate LeapDayIsPast(e: CronExpr, start: int, y: int)
    requires Sound(e)
  {
    Leap(y) && forall t | RunsAtTime(e, t) :: LeapDay(y) * MINUTES_PER_DAY + t < start
  }

  lemma LeapDayMatches(e: CronExpr, y: int, t: int)
    requires Sound(e) && OnlyLeapDays(e) && Leap(y) && RunsAtTime(e, t)
    ensures Matches(e, LeapDay(y) * MINUTES_PER_DAY + t)
  {
    hide AllowsYearly;
    DateMatches(e, Date(y, 2, 29));
    TimeOfDay(LeapDay(y), t);
    MatchIs(e, LeapDay(y) * MINUTES_PER_DAY + t);
  }

  /** Its matches are at its times of day on leap days. */
  lemma MatchOnLeapDay(e: CronExpr, k: int) returns (y: int, t: int)
    requires Sound(e) && OnlyLeapDays(e) && Matches(e, k)
    ensures Leap(y) && RunsAtTime(e, t) && k == LeapDay(y) * MINUTES_PER_DAY + t
  {
    MatchIs(e, k);
    MatchHasDate(e, k / MINUTES_PER_DAY);
    hide DayMatches, CivilFromDays, DaysFromCivil;
    var date := CivilFromDays(k / MINUTES_PER_DAY);
    y, t := date.year, k % MINUTES_PER_DAY;
    assert date == Date(y, 2, 29);
  }

  // ----- the exact condition -----

  lemma NothingBetweenLeapDays(e: CronExpr, start: int, y: int)
    requires Sound(e) && OnlyLeapDays(e) && BetweenLeapDays(e, start, y)
    ensures NoMatch(e, start, start + MAX_MINUTES_AHEAD)
  {
    hide OnlyLeapDays, LeapDay, Matches, Leap;
    forall k | start <= k < start + MAX_MINUTES_AHEAD ensures !Matches(e, k) {
      if Matches(e, k) {
        var z, t := MatchOnLeapDay(e, k);
        LeapDaysGrow(y, z);
        LeapDaysGrow(z, y + 8);
        LeapYearsBetween(y, z);
      }
    }
  }

  lemma LeapYearsBetween(y: int, z: int)
    requires Leap(y) && Leap(z)
    ensures y < z < y + 8 ==> z == y + 4
  {
    assert y == 4 * (y / 4) && z == 4 * (z / 4);
    hide Leap;
  }

  /** From a leap day that is past, the next ones are past too, until one is beyond the horizon. */
  lemma {:induction false} NextBeyondHorizon(e: CronExpr, start: int, y: int) returns (z: int)
    requires Sound(e) && OnlyLeapDays(e) && NoMatch(e, start, start + MAX_MINUTES_AHEAD) && LeapDayIsPast(e, start, y)
    ensures BetweenLeapDays(e, start, z)
    decreases start - LeapDay(y) * MINUTES_PER_DAY
  {
    hide OnlyLeapDays, LeapDay, Matches, RunsAtTime;
    var t := SomeTime(e);
    assert 0 <= t < MINUTES_PER_DAY by { TimeIsOfDay(e, t); }
    if Leap(y + 4) {
      NextLeapDay(y);
      PastOrBeyond(e, start, y + 4);
      assert LeapDay(y + 4) * MINUTES_PER_DAY + t < start + MAX_MINUTES_AHEAD;
      LeapDaysGrow(y, y + 4);
      z := NextBeyondHorizon(e, start, y + 4);
    } else {
      LeapAgain(y);
      PastOrBeyond(e, start, y + 8);
      LeapDaysGrow(y, y + 8);
      if LeapDayIsPast(e, start, y + 8) {
        z := NextBeyondHorizon(e, start, y + 8);
      } else {
        z := y;
      }
    }
  }

  lemma TimeIsOfDay(e: CronExpr, t: int)
    requires Sound(e) && RunsAtTime(e, t)
    ensures 0 <= t < MINUTES_PER_DAY
  {}

  /** Without a match in the horizon, all times of a leap day are past or all are beyond. */
  lemma PastOrBeyond(e: CronExpr, start: int, y: int)
    requires Sound(e) && OnlyLeapDays(e) && NoMatch(e, start, start + MAX_MINUTES_AHEAD) && Leap(y)
    ensures LeapDayIsPast(e, start, y) || forall t | RunsAtTime(e, t) :: start + MAX_MINUTES_AHEAD <= LeapDay(y) * MINUTES_PER_DAY + t
  {
    hide OnlyLeapDays, LeapDay, Matches;
    forall t | RunsAtTime(e, t)
      ensures var k := LeapDay(y) * MINUTES_PER_DAY + t; k < start || start + MAX_MINUTES_AHEAD <= k
    {
      LeapDayMatches(e, y, t);
    }
  }

  /** Some leap day is past. */
  lemma EarlyLeapDay(e: CronExpr, start: int) returns (y: int)
    requires Sound(e)
    ensures LeapDayIsPast(e, start, y)
  {
    var era := start / MINUTES_PER_DAY / 146097;
    y := 400 * era;
    assert Leap(y);
    LeapDayIs(y);
    MarchFirstGrows(y - 1, y);
    MarchFirstIs(y);
    assert y / 4 == 100 * era && y / 100 == 4 * era && y / 400 == era;
    hide LeapDay, MarchFirst;
  }

  /** No date is allowed exactly when there is no match at all. */
  lemma NeverRunsExactly(e: CronExpr)
    requires Sound(e)
    ensures AllowsNoDate(e) <==> forall k :: !Matches(e, k)
  {
    hide Matches, RunsAtTime;
    if AllowsNoDate(e) {
      forall k ensures !Matches(e, k) {
        MatchIs(e, k);
        if Matches(e, k) {
          MatchHasDate(e, k / MINUTES_PER_DAY);
        }
      }
    } else if e.dowRestricted {
      WeekdayIsFound(e, 0);
    } else if AllowsYearly(e) {
      YearlyIsFound(e, 0);
    } else {
      var t := SomeTime(e);
      LeapDayMatches(e, 0, t);
    }
  }

  /** The search finds nothing exactly when there is nothing, or the job runs on leap days only and the search begins
      too soon after one that no leap day follows in four years. */
  lemma HorizonIsExact(e: CronExpr, start: int)
    requires Sound(e)
    ensures NoMatch(e, start, start + MAX_MINUTES_AHEAD)
      <==> AllowsNoDate(e) || (OnlyLeapDays(e) && exists y :: BetweenLeapDays(e, start, y))
  {
    hide Matches, RunsAtTime, LeapDay;
    if e.dowRestricted {
      WeekdayIsFound(e, start);
    } else if AllowsYearly(e) {
      YearlyIsFound(e, start);
    } else if AllowsDate(e, 2, 29) {
      if NoMatch(e, start, start + MAX_MINUTES_AHEAD) {
        var y := EarlyLeapDay(e, start);
        var z := NextBeyondHorizon(e, start, y);
      } else if y :| BetweenLeapDays(e, start, y) {
        NothingBetweenLeapDays(e, start, y);
      }
    } else {
      NeverRunsExactly(e);
    }
  }

  // ----- `0 0 29 2 *` -----

  const LEAP_DAY_JOB: string := "0 0 29 2 *"

  const LEAP_DAY_FIELDS: seq<string> := ["0", "0", "29", "2", "*"]

  lemma LeapDayNumbers()
    ensures AllDigits("0") && AllDigits("2") && AllDigits("29")
    ensures Value("0") == 0 && Value("2") == 2 && Value("29") == 29
  {
    assert "0"[..0] == "" && "2"[..0] == "" && "29"[..1] == "2";
  }

  lemma JoinedIsText()
    ensures Join(LEAP_DAY_FIELDS, ' ') == LEAP_DAY_JOB
  {
    assert ["0", "0", "29", "2", "*"][1..] == ["0", "29", "2", "*"];
    assert ["0", "29", "2", "*"][1..] == ["29", "2", "*"];
    assert ["29", "2", "*"][1..] == ["2", "*"];
    assert ["2", "*"][1..] == ["*"];
  }

  lemma LeapDayParts()
    ensures FieldOk("0", 0, 59) && FieldOk("0", 0, 23) && FieldOk("29", 1, 31) && FieldOk("2", 1, 12) && FieldOk("*", 0, 7)
    ensures forall v :: (Allows("0", 0, 59, v) <==> v == 0) && (Allows("0", 0, 23, v) <==> v == 0)
    ensures forall v :: (Allows("29", 1, 31, v) <==> v == 29) && (Allows("2", 1, 12, v) <==> v == 2)
  {
    LeapDayNumbers();
    hide FieldOk, Allows, Value, AllDigits;
    NumberField("0", 0, 59);
    NumberField("0", 0, 23);
    NumberField("29", 1, 31);
    NumberField("2", 1, 12);
    StarAllowsAll(0, 7, 0);
  }

  /** The text is accepted, as these five fields. */
  lemma LeapDayIsAccepted()
    ensures Words(LEAP_DAY_JOB) == LEAP_DAY_FIELDS && ExprOk(LEAP_DAY_FIELDS)
  {
    JoinedIsText();
    LeapDayParts();
    hide FieldOk, Allows, Join;
    WordsOfJoin(LEAP_DAY_FIELDS);
  }

  lemma TableOfNumber(table: seq<bool>, spec: string, min: nat, max: nat, v: int)
    requires min <= max && IsTable(table, Split(spec, ','), min, max)
    requires forall w :: Allows(spec, min, max, w) <==> w == v
    ensures |table| == max - min + 1 && forall i | 0 <= i < |table| :: table[i] <==> i == v - min
  {
    hide AnyDenotes, Split;
    forall i | 0 <= i < |table| ensures table[i] <==> i == v - min {
      assert table[i] <==> Allows(spec, min, max, min + i);
    }
  }

  predicate OnlyAt(table: seq<bool>, v: int) { forall i | 0 <= i < |table| :: table[i] <==> i == v }

  lemma MidnightOnly(e: CronExpr)
    requires Sound(e) && OnlyAt(e.hour, 0) && OnlyAt(e.minute, 0)
    ensures forall t :: RunsAtTime(e, t) <==> t == 0
  {}

  lemma LeapDayOnly(e: CronExpr)
    requires Sound(e) && OnlyAt(e.dayOfMonth, 28) && OnlyAt(e.month, 1) && e.domRestricted && !e.dowRestricted
    ensures OnlyLeapDays(e)
  {}

  lemma LeapDayMeans(e: CronExpr)
    requires Means(e, LEAP_DAY_FIELDS)
    ensures IsTable(e.minute, Split("0", ','), 0, 59) && IsTable(e.hour, Split("0", ','), 0, 23)
    ensures IsTable(e.dayOfMonth, Split("29", ','), 1, 31) && IsTable(e.month, Split("2", ','), 1, 12)
    ensures e.domRestricted && !e.dowRestricted
  {
    hide IsTable, Split, Allows;
  }

  /** Its tables allow midnight on the 29th of February, and nothing else. */
  lemma LeapDayTables(e: CronExpr)
    requires Means(e, LEAP_DAY_FIELDS)
    ensures IsLeapDayJob(e)
  {
    hide Means, FieldOk, ExprOk, Words, Sound, Allows, AnyDenotes, IsTable, Split, OnlyLeapDays, RunsAtTime;
    LeapDayParts();
    LeapDayIsAccepted();
    LeapDayMeans(e);
    ParsedIsSound(e, LEAP_DAY_FIELDS);
    TableOfNumber(e.minute, "0", 0, 59, 0);
    TableOfNumber(e.hour, "0", 0, 23, 0);
    TableOfNumber(e.dayOfMonth, "29", 1, 31, 29);
    TableOfNumber(e.month, "2", 1, 12, 2);
    MidnightOnly(e);
    LeapDayOnly(e);
  }

  /** Runs at midnight on the 29th of February only. */
  ghost predicate IsLeapDayJob(e: CronExpr) { Sound(e) && OnlyLeapDays(e) && forall t :: RunsAtTime(e, t) <==> t == 0 }

  /** What `0 0 29 2 *` is parsed to is such a job. */
  lemma LeapDayText(e: CronExpr)
    requires |Words(LEAP_DAY_JOB)| == 5 && Means(e, Words(LEAP_DAY_JOB))
    ensures IsLeapDayJob(e)
  {
    hide Means, ExprOk, Words;
    LeapDayIsAccepted();
    LeapDayTables(e);
  }

  /** The search for its next run fails exactly when it begins after a leap day that no leap day follows in four
      years, and 1464 days or more before the next one. */
  lemma LeapDayJobStops(e: CronExpr, start: int)
    requires IsLeapDayJob(e)
    ensures NoMatch(e, start, start + MAX_MINUTES_AHEAD) <==> exists y :: LeapGap(start, y)
  {
    hide NoMatch, Sound, RunsAtTime, LeapDay, Leap, OnlyLeapDays;
    HorizonIsExact(e, start);
    assert !AllowsNoDate(e) by { OnlyOne(e); }
    forall y ensures BetweenLeapDays(e, start, y) <==> LeapGap(start, y) {
      assert RunsAtTime(e, 0);
    }
  }

  lemma OnlyOne(e: CronExpr)
    requires Sound(e) && OnlyLeapDays(e)
    ensures !AllowsNoDate(e)
  {}

  predicate LeapGap(start: int, y: int) {
    && Leap(y) && !Leap(y + 4)
    && LeapDay(y) * MINUTES_PER_DAY < start <= LeapDay(y + 8) * MINUTES_PER_DAY - MAX_MINUTES_AHEAD
  }

  /** So right after midnight on the 29th of February of 2096 it fails, */
  lemma LeapDayJobStopsIn2096(e: CronExpr)
    requires IsLeapDayJob(e)
    ensures NoMatch(e, LeapDay(2096) * MINUTES_PER_DAY + 1, LeapDay(2096) * MINUTES_PER_DAY + 1 + MAX_MINUTES_AHEAD)
  {
    GapAfter2096();
    hide NoMatch, LeapDay, Sound, OnlyLeapDays, LeapGap, RunsAtTime;
    LeapDayJobStops(e, LeapDay(2096) * MINUTES_PER_DAY + 1);
  }

  /** although the job is due on that day of every leap year, 2104 among them. */
  lemma LeapDayJobIsDue(e: CronExpr, year: int)
    requires IsLeapDayJob(e) && Leap(year)
    ensures Matches(e, DaysFromCivil(Date(year, 2, 29)) * MINUTES_PER_DAY)
  {
    hide Matches, Sound, OnlyLeapDays, RunsAtTime, DaysFromCivil;
    LeapDayMatches(e, year, 0);
  }

  lemma GapAfter2096()
    ensures LeapGap(LeapDay(2096) * MINUTES_PER_DAY + 1, 2096)
  {
    LeapDayIs(2096);
    LeapDayIs(2104);
    MarchFirstIs(2095);
    MarchFirstIs(2103);
    assert Leap(2096) && !Leap(2100);
    hide LeapDay, MarchFirst, Leap;
  }
}
