/** What the fields of a cron expression say, read from how they are written, and when a job runs, told by date and time. */
module CronText {
  import opened Calendar
  import opened Chars
  import opened Cron
  import opened Splitting
  import opened Wrappers

  // ----- fields -----

  datatype Span = All | One(v: nat) | From(lo: nat, hi: nat)

  datatype Part = Part(span: Span, step: Option<nat>)

  function SpanText(s: Span): string {
    match s
    case All => "*"
    case One(v) => Decimal(v)
    case From(lo, hi) => Decimal(lo) + "-" + Decimal(hi)
  }

  function PartText(p: Part): string { if p.step.Some? then SpanText(p.span) + "/" + Decimal(p.step.value) else SpanText(p.span) }

  function PartTexts(parts: seq<Part>): seq<string> { seq(|parts|, i requires 0 <= i < |parts| => PartText(parts[i])) }

  /** The parts of a field are separated by commas. */
  function FieldText(parts: seq<Part>): string { Join(PartTexts(parts), ',') }

  function Low(s: Span, min: nat): nat { match s case All => min case One(v) => v case From(lo, _) => lo }

  function High(s: Span, max: nat): nat { match s case All => max case One(v) => v case From(_, hi) => hi }

  /** Numbers the parser can read, as it reads 32 bits. */
  predicate IsReadable(p: Part) {
    && (p.step.Some? ==> p.step.value <= MAX_U32)
    && match p.span {
      case All => true
      case One(v) => v <= MAX_U32
      case From(lo, hi) => lo <= MAX_U32 && hi <= MAX_U32
    }
  }

  predicate IsInRange(p: Part, min: nat, max: nat) { min <= Low(p.span, min) <= High(p.span, max) <= max && p.step != Some(0) }

  /** Counting up by the step from the low end. */
  ghost predicate Says(p: Part, min: nat, max: nat, v: int) {
    exists k: nat :: v == Low(p.span, min) + Times(k, p.step) && v <= High(p.span, max)
  }

  function Times(k: nat, step: Option<nat>): int { if step.Some? then k * step.value else k }

  lemma NumberIsRead(n: nat)
    requires n <= MAX_U32
    ensures ParseU32(Decimal(n)) == Some(n)
    ensures '/' !in Decimal(n) && '-' !in Decimal(n) && ',' !in Decimal(n) && Decimal(n) != "*"
  {
    ValueOfDecimal(n);
    var s := Decimal(n);
    forall c | c in s ensures IsDigit(c) {}
    assert s[0] in s;
  }

  lemma {:induction false} CutAt(a: string, b: string, sep: char)
    requires sep !in a
    ensures Cut(a + [sep] + b, sep) == Some((a, b))
  {
    var s := a + [sep] + b;
    if a == "" {
      assert s[1..] == b;
    } else {
      assert s[1..] == a[1..] + [sep] + b;
      CutAt(a[1..], b, sep);
      assert [a[0]] + a[1..] == a;
    }
  }

  lemma SpanIsRead(s: Span, min: nat, max: nat)
    requires IsReadable(Part(s, None))
    ensures ParseRange(SpanText(s), min, max) == Success((Low(s, min), High(s, max)))
    ensures '/' !in SpanText(s) && ',' !in SpanText(s)
  {
    hide Cut, ParseU32, Decimal;
    match s
    case All =>
    case One(v) =>
      NumberIsRead(v);
      NothingCut(Decimal(v), '-');
    case From(lo, hi) =>
      NumberIsRead(lo);
      NumberIsRead(hi);
      CutAt(Decimal(lo), Decimal(hi), '-');
      DashIsNoStar(Decimal(lo), Decimal(hi));
  }

  lemma DashIsNoStar(a: string, b: string)
    requires a != ""
    ensures a + "-" + b != "*"
  {
    assert |a + "-" + b| > 1;
  }

  /** Each part is read as it is written, and refused when it is out of range or does not count up. */
  lemma PartIsRead(p: Part, min: nat, max: nat)
    requires IsReadable(p)
    ensures ParsePart(PartText(p), min, max).Success? <==> IsInRange(p, min, max)
    ensures IsInRange(p, min, max) ==>
      ParsePart(PartText(p), min, max).value == Steps(Low(p.span, min), High(p.span, max), if p.step.Some? then p.step.value else 1)
    ensures ',' !in PartText(p)
  {
    hide Cut, ParseU32, ParseRange, Decimal, SpanText;
    SpanIsRead(p.span, min, max);
    if p.step.Some? {
      NumberIsRead(p.step.value);
      CutAt(SpanText(p.span), Decimal(p.step.value), '/');
    } else {
      NothingCut(SpanText(p.span), '/');
    }
  }

  lemma StepsSay(p: Part, min: nat, max: nat, v: int)
    requires IsInRange(p, min, max)
    ensures Says(p, min, max, v)
      <==> Denotes(Steps(Low(p.span, min), High(p.span, max), if p.step.Some? then p.step.value else 1), v)
  {
    var lo, step := Low(p.span, min), if p.step.Some? then p.step.value else 1;
    if Says(p, min, max, v) {
      var k: nat :| v == lo + Times(k, p.step) && v <= High(p.span, max);
      Counted(step, k, v - lo);
      assert k * step >= 0;
    }
    if lo <= v <= High(p.span, max) && (v - lo) % step == 0 {
      Multiple(step, v - lo);
      assert v == lo + Times((v - lo) / step, p.step);
    }
  }

  lemma Counted(step: nat, k: nat, d: int)
    requires step > 0 && d == k * step
    ensures d % step == 0
  {
    UniqueRemainder(step, d, k, 0);
  }

  lemma Multiple(step: nat, d: int)
    requires step > 0 && d >= 0 && d % step == 0
    ensures d / step >= 0 && d == (d / step) * step
  {}

  /** A field allows exactly the values that one of its parts says. */
  lemma FieldIsRead(parts: seq<Part>, min: nat, max: nat, v: int)
    requires parts != [] && forall i | 0 <= i < |parts| :: IsReadable(parts[i]) && IsInRange(parts[i], min, max)
    ensures Allows(FieldText(parts), min, max, v) <==> exists i | 0 <= i < |parts| :: Says(parts[i], min, max, v)
  {
    var texts := PartTexts(parts);
    forall i | 0 <= i < |parts|
      ensures ',' !in texts[i] && ParsePart(texts[i], min, max).Success?
      ensures Denotes(ParsePart(texts[i], min, max).value, v) <==> Says(parts[i], min, max, v)
    {
      PartIsRead(parts[i], min, max);
      StepsSay(parts[i], min, max, v);
    }
    SplitJoin(texts, ',');
    hide Split, Join, ParsePart, Denotes, Says, PartText;
    assert forall i | 0 <= i < |parts| :: texts[i] in texts;
  }

  // ----- runs by date and time -----

  /** Day 0 was a Thursday, and weekdays follow one another. */
  lemma WeekdaysFollow(day: int)
    ensures Weekday(0) == 4 && 0 <= Weekday(day) < 7 && Weekday(day + 1) == if Weekday(day) == 6 then 0 else Weekday(day) + 1
  {}

  predicate AllowsDay(e: CronExpr, date: Date, weekday: int)
    requires Sound(e) && ValidDate(date) && 0 <= weekday < 7
  {
    var dom, dow := e.dayOfMonth[date.day - 1], e.dayOfWeek[weekday];
    if e.domRestricted && e.dowRestricted then dom || dow else (e.domRestricted ==> dom) && (e.dowRestricted ==> dow)
  }

  /** A job matches a minute of a date exactly when it allows the month, the day, the hour and the minute. */
  lemma MatchesByDate(e: CronExpr, date: Date, hour: int, minute: int)
    requires Sound(e) && ValidDate(date) && 0 <= hour < 24 && 0 <= minute < 60
    ensures 0 <= Weekday(DaysFromCivil(date)) < 7
    ensures Matches(e, DaysFromCivil(date) * MINUTES_PER_DAY + hour * 60 + minute)
      <==> e.month[date.month - 1] && AllowsDay(e, date, Weekday(DaysFromCivil(date))) && e.hour[hour] && e.minute[minute]
  {
    WeekdaysFollow(DaysFromCivil(date));
    DayByDate(e, date);
    DayAndTime(DaysFromCivil(date), hour, minute);
    hide DaysFromCivil, DayMatches, AllowsDay, Weekday, Sound;
  }

  lemma DayByDate(e: CronExpr, date: Date)
    requires Sound(e) && ValidDate(date) && 0 <= Weekday(DaysFromCivil(date)) < 7
    ensures DayMatches(e, DaysFromCivil(date)) <==> e.month[date.month - 1] && AllowsDay(e, date, Weekday(DaysFromCivil(date)))
  {
    CivilRoundTrip(date);
    hide CivilFromDays, DaysFromCivil, Leap, Weekday, AllowsAny;
  }

  lemma DayAndTime(day: int, hour: int, minute: int)
    requires 0 <= hour < 24 && 0 <= minute < 60
    ensures var k := day * MINUTES_PER_DAY + hour * 60 + minute;
      k / MINUTES_PER_DAY == day && k % MINUTES_PER_DAY / 60 == hour && k % MINUTES_PER_DAY % 60 == minute
  {
    UniqueRemainder(MINUTES_PER_DAY, day * MINUTES_PER_DAY + hour * 60 + minute, day, hour * 60 + minute);
  }

  /** With both day fields restricted it runs on the days of either, were the other one free. */
  lemma DayFieldsUnite(e: CronExpr, day: int)
    requires Sound(e) && e.domRestricted && e.dowRestricted
    ensures DayMatches(e, day) <==> DayMatches(e.(domRestricted := false), day) || DayMatches(e.(dowRestricted := false), day)
  {
    DaysRoundTrip(day);
    hide CivilFromDays;
  }

  // ----- a whole expression, from its text to its runs -----

  ghost predicate FieldSays(parts: seq<Part>, min: nat, max: nat, v: int) { exists i | 0 <= i < |parts| :: Says(parts[i], min, max, v) }

  /** Parts that are read and in range. */
  predicate IsProper(parts: seq<Part>, min: nat, max: nat) {
    parts != [] && forall i | 0 <= i < |parts| :: IsReadable(parts[i]) && IsInRange(parts[i], min, max)
  }

  /** Minute, hour, day of the month, month and day of the week. */
  datatype Fields = Fields(minute: seq<Part>, hour: seq<Part>, day: seq<Part>, month: seq<Part>, weekday: seq<Part>)

  predicate AllProper(f: Fields) {
    IsProper(f.minute, 0, 59) && IsProper(f.hour, 0, 23) && IsProper(f.day, 1, 31) && IsProper(f.month, 1, 12) && IsProper(f.weekday, 0, 7)
  }

  function FieldTexts(f: Fields): seq<string> {
    [FieldText(f.minute), FieldText(f.hour), FieldText(f.day), FieldText(f.month), FieldText(f.weekday)]
  }

  const STAR := [Part(All, None)]

  /** On which days the fields run a job: both day fields are heeded, one of the two being enough if neither is a bare star. */
  ghost predicate RunsOn(f: Fields, date: Date, weekday: int) {
    var dom, dow := FieldSays(f.day, 1, 31, date.day), FieldSays(f.weekday, 0, 7, weekday) || (weekday == 0 && FieldSays(f.weekday, 0, 7, 7));
    if f.day != STAR && f.weekday != STAR then dom || dow else (f.day != STAR ==> dom) && (f.weekday != STAR ==> dow)
  }

  lemma SpanIsStar(s: Span)
    ensures SpanText(s) == "*" <==> s == All
  {
    match s
    case All =>
    case One(v) => assert IsDigit(Decimal(v)[0]);
    case From(lo, hi) => DashIsNoStar(Decimal(lo), Decimal(hi));
  }

  lemma PartIsStar(p: Part)
    ensures PartText(p) == "*" <==> p == Part(All, None)
  {
    SpanIsStar(p.span);
    if p.step.Some? { assert |PartText(p)| > 1; }
  }

  lemma FieldIsStar(parts: seq<Part>)
    requires parts != []
    ensures FieldText(parts) == "*" <==> parts == STAR
  {
    hide PartText;
    PartIsStar(parts[0]);
    var texts := PartTexts(parts);
    if |parts| > 1 {
      assert Join(texts, ',') == texts[0] + [','] + Join(texts[1..], ',');
      assert ',' in Join(texts, ',');
    }
  }

  lemma TableSays(table: seq<bool>, parts: seq<Part>, min: nat, max: nat, v: int)
    requires min <= v <= max && IsProper(parts, min, max) && IsTable(table, Split(FieldText(parts), ','), min, max)
    ensures |table| == max - min + 1 && (table[v - min] <==> FieldSays(parts, min, max, v))
  {
    hide Split, AnyDenotes, Says, FieldText;
    FieldIsRead(parts, min, max, v);
    assert table[v - min] <==> AnyDenotes(Split(FieldText(parts), ','), min, max, min + (v - min));
  }

  /** What the fields are written to say is when the job runs. */
  lemma TextMatches(e: CronExpr, f: Fields, date: Date, hour: int, minute: int)
    requires AllProper(f) && Means(e, FieldTexts(f)) && Sound(e)
    requires ValidDate(date) && 0 <= hour < 24 && 0 <= minute < 60
    ensures Matches(e, DaysFromCivil(date) * MINUTES_PER_DAY + hour * 60 + minute)
      <==> (FieldSays(f.month, 1, 12, date.month) && RunsOn(f, date, Weekday(DaysFromCivil(date)))
            && FieldSays(f.hour, 0, 23, hour) && FieldSays(f.minute, 0, 59, minute))
  {
    MatchesByDate(e, date, hour, minute);
    TablesSay(e, f, date, hour, minute);
    DaySays(e, f, date, Weekday(DaysFromCivil(date)));
    hide *;
  }

  lemma TablesSay(e: CronExpr, f: Fields, date: Date, hour: int, minute: int)
    requires AllProper(f) && Means(e, FieldTexts(f)) && ValidDate(date) && 0 <= hour < 24 && 0 <= minute < 60
    ensures |e.minute| == 60 && |e.hour| == 24 && |e.month| == 12
    ensures e.minute[minute] <==> FieldSays(f.minute, 0, 59, minute)
    ensures e.hour[hour] <==> FieldSays(f.hour, 0, 23, hour)
    ensures e.month[date.month - 1] <==> FieldSays(f.month, 1, 12, date.month)
  {
    hide IsTable, Split, FieldText, FieldSays, IsProper, Allows, Leap;
    TableSays(e.minute, f.minute, 0, 59, minute);
    TableSays(e.hour, f.hour, 0, 23, hour);
    TableSays(e.month, f.month, 1, 12, date.month);
  }

  lemma DaySays(e: CronExpr, f: Fields, date: Date, weekday: int)
    requires AllProper(f) && Means(e, FieldTexts(f)) && Sound(e) && ValidDate(date) && 0 <= weekday < 7
    ensures AllowsDay(e, date, weekday) <==> RunsOn(f, date, weekday)
  {
    hide IsTable, Split, FieldText, FieldSays, IsProper, Allows, AllowsAny, Leap;
    TableSays(e.dayOfMonth, f.day, 1, 31, date.day);
    WeekdaySays(e, f, weekday);
    StarsAreFree(f);
  }

  lemma StarsAreFree(f: Fields)
    requires AllProper(f)
    ensures (FieldText(f.day) == "*" <==> f.day == STAR) && (FieldText(f.weekday) == "*" <==> f.weekday == STAR)
  {
    hide FieldText;
    FieldIsStar(f.day);
    FieldIsStar(f.weekday);
  }

  lemma WeekdaySays(e: CronExpr, f: Fields, weekday: int)
    requires AllProper(f) && Means(e, FieldTexts(f)) && 0 <= weekday < 7
    ensures |e.dayOfWeek| == 7
    ensures e.dayOfWeek[weekday] <==> FieldSays(f.weekday, 0, 7, weekday) || (weekday == 0 && FieldSays(f.weekday, 0, 7, 7))
  {
    hide IsTable, Split, FieldText, Says, Allows;
    FieldIsRead(f.weekday, 0, 7, weekday);
    FieldIsRead(f.weekday, 0, 7, 7);
  }
}
