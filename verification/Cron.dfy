/** Five-field cron expressions (`cron.rs`): parsing into tables, and the search for the next run. */
module Cron {
  import opened Calendar
  import opened Chars
  import opened Splitting
  import opened Wrappers

  const MS_PER_DAY: int := 86_400_000
  const MS_PER_HOUR: int := 3_600_000
  const MS_PER_MIN: int := 60_000

  // ----- one field -----

  datatype Steps = Steps(lo: nat, hi: nat, step: nat)

  datatype FieldError = BadStep(part: string) | BadRange(part: string) | BadValue(part: string) | OutOfRange(part: string) | StepOverflow(part: string)

  function Cut(s: string, sep: char): Option<(string, string)> {
    if s == "" then None
    else if s[0] == sep then Some(("", s[1..]))
    else
      var rest := Cut(s[1..], sep);
      if rest.None? then None else Some(([s[0]] + rest.value.0, rest.value.1))
  }

  function ParseRange(range: string, min: nat, max: nat): Result<(nat, nat), FieldError> {
    if range == "*" then Success((min, max))
    else
      var ends := Cut(range, '-');
      if ends.Some? then
        var lo, hi := ParseU32(ends.value.0), ParseU32(ends.value.1);
        if lo.None? || hi.None? then Failure(BadRange(range)) else Success((lo.value, hi.value))
      else
        var v := ParseU32(range);
        if v.None? then Failure(BadValue(range)) else Success((v.value, v.value))
  }

  function ParsePart(part: string, min: nat, max: nat): Result<Steps, FieldError> {
    var cut := Cut(part, '/');
    var range := if cut.Some? then cut.value.0 else part;
    var step := if cut.Some? then ParseU32(cut.value.1) else Some(1);
    if step.None? || step.value == 0 then Failure(BadStep(part))
    else
      var ends := ParseRange(range, min, max);
      if ends.Failure? then Failure(ends.error)
      else if ends.value.0 > ends.value.1 || ends.value.0 < min || ends.value.1 > max then Failure(OutOfRange(range))
      else Success(Steps(ends.value.0, ends.value.1, step.value))
  }

  predicate Denotes(s: Steps, v: int)
    requires s.step > 0
  {
    s.lo <= v <= s.hi && (v - s.lo) % s.step == 0
  }

  /** The value after the last one denoted still fits in 32 bits, so the filling loop does not overflow. */
  ghost predicate Fits(s: Steps)
    requires s.step > 0
  {
    forall v: nat | Denotes(s, v) :: v + s.step <= MAX_U32
  }

  ghost predicate PartOk(part: string, min: nat, max: nat) {
    var s := ParsePart(part, min, max);
    s.Success? && Fits(s.value)
  }

  lemma MultipleIsLarge(step: int, k: int)
    requires step > 0 && k != 0
    ensures step * k >= step || step * k <= -step
  {
    if k > 0 { assert step * (k - 1) >= 0; } else { assert step * (-k - 1) >= 0; }
  }

  lemma UniqueRemainder(step: int, a: int, q: int, d: int)
    requires 0 <= d < step && a == step * q + d
    ensures a % step == d
  {
    assert a == step * (a / step) + a % step;
    assert step * (q - a / step) == step * q - step * (a / step);
    if q != a / step { MultipleIsLarge(step, q - a / step); }
  }

  /** Between two consecutive multiples of the step there is none. */
  lemma NextMultiple(step: int, a: int, d: int)
    requires 0 <= d <= step && step > 0 && a % step == 0
    ensures (a + d) % step == 0 <==> d == 0 || d == step
  {
    var q := a / step;
    assert a == step * q + a % step;
    if d == step {
      assert a + d == step * (q + 1);
      UniqueRemainder(step, a + d, q + 1, 0);
    } else {
      UniqueRemainder(step, a + d, q, d);
    }
  }

  lemma NextDenoted(s: Steps, v: int, x: int)
    requires s.step > 0 && s.lo <= v && (v - s.lo) % s.step == 0 && v <= x <= v + s.step
    ensures (x - s.lo) % s.step == 0 <==> x == v || x == v + s.step
  {
    NextMultiple(s.step, v - s.lo, x - v);
    assert v - s.lo + (x - v) == x - s.lo;
  }

  /** Marks in `allowed` the values of one part, counting up by its step. */
  method Mark(allowed: seq<bool>, min: nat, s: Steps) returns (r: Option<seq<bool>>)
    requires s.step > 0 && min <= s.lo <= s.hi < min + |allowed|
    ensures r.Some? <==> Fits(s)
    ensures r.Some? ==> Marked(allowed, r.value, min, s)
  {
    var marked := allowed;
    var v := s.lo;
    while v <= s.hi
      invariant s.lo <= v && (v - s.lo) % s.step == 0
      invariant |marked| == |allowed|
      invariant forall i | 0 <= i < |allowed| :: marked[i] <==> allowed[i] || (min + i < v && Denotes(s, min + i))
      invariant forall x: nat | Denotes(s, x) && x < v :: x + s.step <= MAX_U32
      decreases s.hi + 1 - v
    {
      marked := marked[v - min := true];
      assert Denotes(s, v);
      if v + s.step > MAX_U32 { return None; }
      forall x: nat | Denotes(s, x) && x < v + s.step
        ensures x <= v
      {
        if v < x { NextDenoted(s, v, x); }
      }
      NextDenoted(s, v, v + s.step);
      v := v + s.step;
    }
    return Some(marked);
  }

  ghost predicate Marked(before: seq<bool>, after: seq<bool>, min: nat, s: Steps)
    requires s.step > 0
  {
    |after| == |before| && forall i | 0 <= i < |before| :: after[i] <==> before[i] || Denotes(s, min + i)
  }

  ghost predicate AnyDenotes(parts: seq<string>, min: nat, max: nat, v: int) {
    exists part :: part in parts && ParsePart(part, min, max).Success? && Denotes(ParsePart(part, min, max).value, v)
  }

  /** What a field allows: the values that one of its comma-separated parts denotes. */
  ghost predicate Allows(spec: string, min: nat, max: nat, v: int) { AnyDenotes(Split(spec, ','), min, max, v) }

  lemma AnyDenotesSnoc(parts: seq<string>, part: string, min: nat, max: nat, v: int)
    ensures AnyDenotes(parts + [part], min, max, v) <==> AnyDenotes(parts, min, max, v) || AnyDenotes([part], min, max, v)
  {
    assert forall p :: p in parts + [part] <==> p in parts || p in [part];
  }

  /** The table of a field is true exactly at the values it allows. */
  ghost predicate IsTable(table: seq<bool>, parts: seq<string>, min: nat, max: nat)
    requires min <= max
  {
    |table| == max - min + 1 && forall i | 0 <= i < |table| :: table[i] <==> AnyDenotes(parts, min, max, min + i)
  }

  lemma MarkedExtends(before: seq<bool>, after: seq<bool>, parts: seq<string>, part: string, min: nat, max: nat)
    requires min <= max && IsTable(before, parts, min, max) && ParsePart(part, min, max).Success?
    requires Marked(before, after, min, ParsePart(part, min, max).value)
    ensures IsTable(after, parts + [part], min, max)
  {
    forall i | 0 <= i < |after|
      ensures after[i] <==> AnyDenotes(parts + [part], min, max, min + i)
    {
      AnyDenotesSnoc(parts, part, min, max, min + i);
      assert part in [part];
    }
  }

  method ParseInto(allowed: seq<bool>, part: string, min: nat, max: nat) returns (r: Result<seq<bool>, FieldError>)
    requires min <= max && |allowed| == max - min + 1
    ensures r.Success? <==> PartOk(part, min, max)
    ensures r.Success? ==> Marked(allowed, r.value, min, ParsePart(part, min, max).value)
  {
    var s := ParsePart(part, min, max);
    if s.Failure? { return Failure(s.error); }
    var marked := Mark(allowed, min, s.value);
    if marked.None? { return Failure(StepOverflow(part)); }
    return Success(marked.value);
  }

  /** `table` is the table of `parts`, all of which are accepted. */
  ghost predicate Parsed(table: seq<bool>, parts: seq<string>, min: nat, max: nat)
    requires min <= max
  {
    IsTable(table, parts, min, max) && forall part | part in parts :: PartOk(part, min, max)
  }

  lemma ParsedExtends(before: seq<bool>, after: seq<bool>, parts: seq<string>, i: nat, min: nat, max: nat)
    requires min <= max && i < |parts| && Parsed(before, parts[..i], min, max)
    requires PartOk(parts[i], min, max) && Marked(before, after, min, ParsePart(parts[i], min, max).value)
    ensures Parsed(after, parts[..i + 1], min, max)
  {
    MarkedExtends(before, after, parts[..i], parts[i], min, max);
    assert parts[..i + 1] == parts[..i] + [parts[i]];
  }

  method ParseField(spec: string, min: nat, max: nat) returns (r: Result<seq<bool>, FieldError>)
    requires min <= max
    ensures r.Success? <==> FieldOk(spec, min, max)
    ensures r.Success? ==> IsTable(r.value, Split(spec, ','), min, max)
  {
    var allowed := seq(max - min + 1, _ => false);
    var parts := Split(spec, ',');
    for i := 0 to |parts|
      invariant |allowed| == max - min + 1 && Parsed(allowed, parts[..i], min, max)
    {
      hide *;
      var marked := ParseInto(allowed, parts[i], min, max);
      if marked.Failure? {
        FieldFails(spec, min, max, i);
        return marked;
      }
      ParsedExtends(allowed, marked.value, parts, i, min, max);
      TableLength(marked.value, parts[..i + 1], min, max);
      allowed := marked.value;
    }
    assert parts[..|parts|] == parts;
    r := Success(allowed);
  }

  lemma TableLength(table: seq<bool>, parts: seq<string>, min: nat, max: nat)
    requires min <= max && Parsed(table, parts, min, max)
    ensures |table| == max - min + 1
  {}

  lemma FieldFails(spec: string, min: nat, max: nat, i: nat)
    requires i < |Split(spec, ',')| && !PartOk(Split(spec, ',')[i], min, max)
    ensures !FieldOk(spec, min, max)
  {
    assert Split(spec, ',')[i] in Split(spec, ',');
  }

  ghost predicate FieldOk(spec: string, min: nat, max: nat) { forall part | part in Split(spec, ',') :: PartOk(part, min, max) }

  // ----- a whole expression -----

  datatype CronExpr = CronExpr(minute: seq<bool>, hour: seq<bool>, dayOfMonth: seq<bool>, month: seq<bool>, dayOfWeek: seq<bool>,
                               domRestricted: bool, dowRestricted: bool)

  datatype ExprError = FieldCount(count: nat) | BadField(index: nat, error: FieldError)

  /** `split_whitespace`: the maximal runs of characters that are not white space. */
  function Words(s: string): seq<string>
    decreases |s|
  {
    if s == "" then []
    else if IsWhitespace(s[0]) then Words(s[1..])
    else [Word(s)] + Words(s[|Word(s)|..])
  }

  function Word(s: string): (w: string)
    ensures w <= s && (s != "" && !IsWhitespace(s[0]) ==> w != "")
  {
    if s == "" || IsWhitespace(s[0]) then "" else [s[0]] + Word(s[1..])
  }

  ghost predicate ExprOk(fields: seq<string>) {
    && |fields| == 5 && FieldOk(fields[0], 0, 59) && FieldOk(fields[1], 0, 23)
    && FieldOk(fields[2], 1, 31) && FieldOk(fields[3], 1, 12) && FieldOk(fields[4], 0, 7)
  }

  /** The tables are the meanings of the fields; 7 is another spelling of Sunday, 0. */
  ghost predicate Means(e: CronExpr, fields: seq<string>)
    requires |fields| == 5
  {
    && IsTable(e.minute, Split(fields[0], ','), 0, 59) && IsTable(e.hour, Split(fields[1], ','), 0, 23)
    && IsTable(e.dayOfMonth, Split(fields[2], ','), 1, 31) && IsTable(e.month, Split(fields[3], ','), 1, 12)
    && |e.dayOfWeek| == 7
    && (forall d | 0 <= d < 7 :: e.dayOfWeek[d] <==> Allows(fields[4], 0, 7, d) || (d == 0 && Allows(fields[4], 0, 7, 7)))
    && e.domRestricted == (fields[2] != "*") && e.dowRestricted == (fields[4] != "*")
  }

  method ParseExpression(raw: string) returns (r: Result<CronExpr, ExprError>)
    ensures r.Success? <==> ExprOk(Words(raw))
    ensures r.Success? ==> Means(r.value, Words(raw))
  {
    var fields := Words(raw);
    if |fields| != 5 { return Failure(FieldCount(|fields|)); }
    var minute := ParseField(fields[0], 0, 59);
    if minute.Failure? { return Failure(BadField(0, minute.error)); }
    var hour := ParseField(fields[1], 0, 23);
    if hour.Failure? { return Failure(BadField(1, hour.error)); }
    var dayOfMonth := ParseField(fields[2], 1, 31);
    if dayOfMonth.Failure? { return Failure(BadField(2, dayOfMonth.error)); }
    var month := ParseField(fields[3], 1, 12);
    if month.Failure? { return Failure(BadField(3, month.error)); }
    var week := ParseField(fields[4], 0, 7);
    if week.Failure? { return Failure(BadField(4, week.error)); }
    var dayOfWeek := week.value;
    if dayOfWeek[7] { dayOfWeek := dayOfWeek[0 := true]; }
    dayOfWeek := dayOfWeek[..7];
    r := Success(CronExpr(minute.value, hour.value, dayOfMonth.value, month.value, dayOfWeek, fields[2] != "*", fields[4] != "*"));
  }

  /** The table allows something. */
  ghost predicate AllowsAny(table: seq<bool>) { exists i :: 0 <= i < |table| && table[i] }

  /** Tables of the right sizes, none of them empty: what parsing guarantees. */
  ghost predicate Sound(e: CronExpr) {
    && |e.minute| == 60 && |e.hour| == 24 && |e.dayOfMonth| == 31 && |e.month| == 12 && |e.dayOfWeek| == 7
    && AllowsAny(e.minute) && AllowsAny(e.hour) && AllowsAny(e.dayOfMonth) && AllowsAny(e.month) && AllowsAny(e.dayOfWeek)
  }

  /** Every accepted field allows at least one value: the first of its first part. */
  lemma FieldAllowsSome(spec: string, min: nat, max: nat)
    requires FieldOk(spec, min, max)
    ensures exists v :: min <= v <= max && Allows(spec, min, max, v)
  {
    var part := Split(spec, ',')[0];
    assert PartOk(part, min, max);
    assert Denotes(ParsePart(part, min, max).value, ParsePart(part, min, max).value.lo);
    assert Allows(spec, min, max, ParsePart(part, min, max).value.lo);
  }

  lemma TableHasSome(table: seq<bool>, spec: string, min: nat, max: nat)
    requires min <= max && FieldOk(spec, min, max) && IsTable(table, Split(spec, ','), min, max)
    ensures AllowsAny(table)
  {
    FieldAllowsSome(spec, min, max);
    var v :| min <= v <= max && Allows(spec, min, max, v);
    assert table[v - min];
  }

  lemma ParsedIsSound(e: CronExpr, fields: seq<string>)
    requires ExprOk(fields) && Means(e, fields)
    ensures Sound(e)
  {
    TableHasSome(e.minute, fields[0], 0, 59);
    TableHasSome(e.hour, fields[1], 0, 23);
    TableHasSome(e.dayOfMonth, fields[2], 1, 31);
    TableHasSome(e.month, fields[3], 1, 12);
    FieldAllowsSome(fields[4], 0, 7);
    var d :| 0 <= d <= 7 && Allows(fields[4], 0, 7, d);
    assert e.dayOfWeek[if d == 7 then 0 else d];
  }

  /** A `*` field allows everything. */
  lemma StarAllowsAll(min: nat, max: nat, v: nat)
    requires min <= v <= max <= 59
    ensures FieldOk("*", min, max) && Allows("*", min, max, v)
  {
    assert "*"[1..] == "";
    SplitPrefix("*", "", ',');
    assert "*" + "" == "*";
    assert Split("*", ',') == ["*"];
    var s := ParsePart("*", min, max);
    assert Cut("*"[1..], '/') == None;
    assert s == Success(Steps(min, max, 1));
    assert Denotes(s.value, v);
  }

  // ----- texts that are accepted -----

  lemma {:induction false} NothingCut(s: string, sep: char)
    requires sep !in s
    ensures Cut(s, sep) == None
  {
    if s != "" {
      NothingCut(s[1..], sep);
    }
  }

  lemma SplitAlone(s: string, sep: char)
    requires sep !in s
    ensures Split(s, sep) == [s]
  {
    SplitPrefix(s, "", sep);
    assert s + "" == s;
  }

  /** A number in range is a field that allows just this number. */
  lemma NumberField(s: string, min: nat, max: nat)
    requires s != "" && AllDigits(s) && min <= Value(s) <= max <= 59
    ensures FieldOk(s, min, max) && forall v :: Allows(s, min, max, v) <==> v == Value(s)
  {
    NothingCut(s, '/');
    NothingCut(s, '-');
    SplitAlone(s, ',');
    hide Split, Cut, Value, AllDigits;
    assert ParsePart(s, min, max) == Success(Steps(Value(s), Value(s), 1));
    forall v ensures Allows(s, min, max, v) <==> v == Value(s) {
      assert s in [s];
    }
  }

  /** Fields without white space, joined by spaces, are read as these fields. */
  lemma {:induction false} WordsOfJoin(fields: seq<string>)
    requires forall i | 0 <= i < |fields| :: IsField(fields[i])
    ensures Words(Join(fields, ' ')) == fields
  {
    if fields != [] {
      var rest := if |fields| == 1 then "" else [' '] + Join(fields[1..], ' ');
      WordsOfJoin(fields[1..]);
      WordEnds(fields[0], rest);
      assert Join(fields, ' ') == fields[0] + rest;
      assert (fields[0] + rest)[|fields[0]|..] == rest;
      assert |fields| > 1 ==> rest[1..] == Join(fields[1..], ' ');
    }
  }

  predicate IsField(s: string) { s != "" && forall i | 0 <= i < |s| :: !IsWhitespace(s[i]) }

  lemma {:induction false} WordEnds(w: string, rest: string)
    requires (forall i | 0 <= i < |w| :: !IsWhitespace(w[i])) && (rest == "" || IsWhitespace(rest[0]))
    ensures Word(w + rest) == w
  {
    if w == "" {
      assert w + rest == rest;
    } else {
      assert (w + rest)[1..] == w[1..] + rest;
      WordEnds(w[1..], rest);
    }
  }

  // ----- the next run -----

  const MINUTES_PER_DAY: int := 1440

  /** Four years of minutes: how far the search looks. */
  const MAX_MINUTES_AHEAD: int := 4 * 366 * 24 * 60

  /** 0 is Sunday; day 0 was a Thursday. */
  function Weekday(day: int): int { (day + 4) % 7 }

  predicate DayMatches(e: CronExpr, day: int)
    requires Sound(e)
  {
    var date := CivilFromDays(day);
    assert ValidDate(date) by { DaysRoundTrip(day); }
    var dom, dow := e.dayOfMonth[date.day - 1], e.dayOfWeek[Weekday(day)];
    && e.month[date.month - 1]
    && (if e.domRestricted && e.dowRestricted then dom || dow
        else if e.domRestricted then dom
        else if e.dowRestricted then dow
        else true)
  }

  /** Minute `k` since the epoch is one at which the job runs. */
  predicate Matches(e: CronExpr, k: int)
    requires Sound(e)
  {
    && DayMatches(e, k / MINUTES_PER_DAY)
    && e.hour[k % MINUTES_PER_DAY / 60] && e.minute[k % MINUTES_PER_DAY % 60]
  }

  lemma SplitMillis(k: int)
    ensures k * MS_PER_MIN / MS_PER_DAY == k / MINUTES_PER_DAY
    ensures k * MS_PER_MIN % MS_PER_DAY == k % MINUTES_PER_DAY * MS_PER_MIN
  {
    UniqueRemainder(MS_PER_DAY, k * MS_PER_MIN, k / MINUTES_PER_DAY, k % MINUTES_PER_DAY * MS_PER_MIN);
  }

  lemma SplitDay(m: int)
    requires 0 <= m < MINUTES_PER_DAY
    ensures m * MS_PER_MIN / MS_PER_HOUR == m / 60 < 24
    ensures m * MS_PER_MIN % MS_PER_HOUR / MS_PER_MIN == m % 60
  {}

  method DayRuns(e: CronExpr, days: int) returns (runs: bool)
    requires Sound(e)
    ensures runs == DayMatches(e, days)
  {
    DaysRoundTrip(days);
    var date := CivilFromDays(days);
    var weekday := (days + 4) % 7;
    if !e.month[date.month - 1] { return false; }
    if e.domRestricted && e.dowRestricted { return e.dayOfMonth[date.day - 1] || e.dayOfWeek[weekday]; }
    if e.domRestricted { return e.dayOfMonth[date.day - 1]; }
    if e.dowRestricted { return e.dayOfWeek[weekday]; }
    return true;
  }

  /** One candidate of the search, its date and time worked out from milliseconds. */
  method RunsAt(e: CronExpr, candidateMin: int) returns (runs: bool)
    requires Sound(e)
    ensures runs == Matches(e, candidateMin)
  {
    hide DayMatches;
    var totalMs := candidateMin * MS_PER_MIN;
    var days := totalMs / MS_PER_DAY;
    var msOfDay := totalMs % MS_PER_DAY;
    SplitMillis(candidateMin);
    SplitDay(candidateMin % MINUTES_PER_DAY);
    var hour := msOfDay / MS_PER_HOUR;
    var minute := msOfDay % MS_PER_HOUR / MS_PER_MIN;
    var dayOk := DayRuns(e, days);
    return dayOk && e.hour[hour] && e.minute[minute];
  }

  /** The least matching minute strictly after `nowMs`, if the next four years hold one. */
  method NextRunAfter(e: CronExpr, nowMs: int) returns (r: Option<int>)
    requires Sound(e)
    ensures r == None <==> NoMatch(e, nowMs / MS_PER_MIN + 1, nowMs / MS_PER_MIN + 1 + MAX_MINUTES_AHEAD)
    ensures r.Some? ==> IsNextRun(e, nowMs, r.value)
  {
    var startMin := nowMs / MS_PER_MIN + 1;
    for offset := 0 to MAX_MINUTES_AHEAD
      invariant NoMatch(e, startMin, startMin + offset)
    {
      var candidateMin := startMin + offset;
      var runs := RunsAt(e, candidateMin);
      if runs {
        assert candidateMin * MS_PER_MIN / MS_PER_MIN == candidateMin;
        return Some(candidateMin * MS_PER_MIN);
      }
    }
    return None;
  }

  ghost predicate NoMatch(e: CronExpr, from: int, to: int)
    requires Sound(e)
  {
    forall k | from <= k < to :: !Matches(e, k)
  }

  ghost predicate IsNextRun(e: CronExpr, nowMs: int, run: int)
    requires Sound(e)
  {
    && run % MS_PER_MIN == 0 && nowMs < run && Matches(e, run / MS_PER_MIN)
    && NoMatch(e, nowMs / MS_PER_MIN + 1, run / MS_PER_MIN)
  }

  /** Where the search for run `i` starts. */
  function SearchedFrom(runs: seq<int>, nowMs: int, i: nat): int
    requires i <= |runs|
  {
    if i == 0 then nowMs else runs[i - 1]
  }

  /** The runs of the scheduler, each searched from the one before: every matching minute, in order,
      and none skipped. */
  method Runs(e: CronExpr, nowMs: int, count: nat) returns (runs: seq<int>)
    requires Sound(e)
    ensures |runs| <= count
    ensures forall i | 0 <= i < |runs| :: IsNextRun(e, SearchedFrom(runs, nowMs, i), runs[i])
    ensures |runs| < count ==>
      var stopped := SearchedFrom(runs, nowMs, |runs|) / MS_PER_MIN + 1;
      NoMatch(e, stopped, stopped + MAX_MINUTES_AHEAD)
  {
    hide IsNextRun, NoMatch, Sound;
    runs := [];
    while |runs| < count
      invariant |runs| <= count
      invariant forall i | 0 <= i < |runs| :: IsNextRun(e, SearchedFrom(runs, nowMs, i), runs[i])
    {
      var next := NextRunAfter(e, SearchedFrom(runs, nowMs, |runs|));
      if next.None? { return; }
      var longer := runs + [next.value];
      assert forall i | 0 <= i < |longer| :: SearchedFrom(longer, nowMs, i) == SearchedFrom(runs, nowMs, i);
      runs := longer;
    }
  }

  // ----- expressions that run every week -----

  /** Some minute of any week has the given weekday, hour and minute. */
  lemma WeekHasMinute(start: int, weekday: int, hour: int, minute: int) returns (k: int)
    requires 0 <= weekday < 7 && 0 <= hour < 24 && 0 <= minute < 60
    ensures start <= k < start + 7 * MINUTES_PER_DAY
    ensures Weekday(k / MINUTES_PER_DAY) == weekday
    ensures k % MINUTES_PER_DAY / 60 == hour && k % MINUTES_PER_DAY % 60 == minute
  {
    var day := (weekday - 4) % 7;
    var offset := day * MINUTES_PER_DAY + hour * 60 + minute;
    k := start + (offset - start) % (7 * MINUTES_PER_DAY);
    var weeks := (k - offset) / (7 * MINUTES_PER_DAY);
    assert k == offset + weeks * (7 * MINUTES_PER_DAY);
    assert k == MINUTES_PER_DAY * (day + 7 * weeks) + (hour * 60 + minute);
    UniqueRemainder(MINUTES_PER_DAY, k, day + 7 * weeks, hour * 60 + minute);
    assert k / MINUTES_PER_DAY == day + 7 * weeks;
    UniqueRemainder(7, day + 7 * weeks + 4, (day + 4) / 7 + weeks, weekday);
  }

  /** An expression whose day-of-month and month are `*` matches within any seven days. */
  lemma MatchesEveryWeek(e: CronExpr, start: int)
    requires Sound(e) && !e.domRestricted && forall m | 0 <= m < 12 :: e.month[m]
    ensures !NoMatch(e, start, start + 7 * MINUTES_PER_DAY)
  {
    var weekday :| 0 <= weekday < 7 && e.dayOfWeek[weekday];
    var hour :| 0 <= hour < 24 && e.hour[hour];
    var minute :| 0 <= minute < 60 && e.minute[minute];
    var k := WeekHasMinute(start, weekday, hour, minute);
    DaysRoundTrip(k / MINUTES_PER_DAY);
    hide CivilFromDays, ValidDate, Weekday;
    assert Matches(e, k);
  }

  /** So the search always finds a run, and the run is at most seven days away. */
  lemma RunsWithinWeek(e: CronExpr, nowMs: int)
    requires Sound(e) && !e.domRestricted && forall m | 0 <= m < 12 :: e.month[m]
    ensures !NoMatch(e, nowMs / MS_PER_MIN + 1, nowMs / MS_PER_MIN + 1 + MAX_MINUTES_AHEAD)
    ensures forall run | IsNextRun(e, nowMs, run) :: run <= nowMs + 7 * MS_PER_DAY
  {
    var start := nowMs / MS_PER_MIN + 1;
    MatchesEveryWeek(e, start);
    hide Matches;
    forall run | IsNextRun(e, nowMs, run)
      ensures run <= nowMs + 7 * MS_PER_DAY
    {
      assert run / MS_PER_MIN < start + 7 * MINUTES_PER_DAY;
    }
  }

  /** An accepted text whose third and fourth fields are `*` always has a next run, at most seven days away. */
  lemma WeeklyTextRuns(e: CronExpr, fields: seq<string>, nowMs: int)
    requires ExprOk(fields) && Means(e, fields) && fields[2] == "*" && fields[3] == "*"
    ensures Sound(e)
    ensures !NoMatch(e, nowMs / MS_PER_MIN + 1, nowMs / MS_PER_MIN + 1 + MAX_MINUTES_AHEAD)
    ensures forall run | IsNextRun(e, nowMs, run) :: run <= nowMs + 7 * MS_PER_DAY
  {
    ParsedIsSound(e, fields);
    forall m | 0 <= m < 12 ensures e.month[m] {
      StarAllowsAll(1, 12, m + 1);
      assert e.month[m] <==> Allows("*", 1, 12, 1 + m);
    }
    hide Means, ExprOk, NoMatch, IsNextRun;
    RunsWithinWeek(e, nowMs);
  }
}
