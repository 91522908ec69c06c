/** Days since 1970-01-01 as dates (`runtime/timestamp.rs`), and the proof that they are the
    proleptic Gregorian calendar. */
module Calendar {
  datatype Date = Date(year: int, month: int, day: int)

  predicate Leap(y: int) { y % 4 == 0 && (y % 100 != 0 || y % 400 == 0) }

  function DaysInMonth(y: int, m: int): int {
    if m == 2 then (if Leap(y) then 29 else 28) else if m in {4, 6, 9, 11} then 30 else 31
  }

  predicate ValidDate(d: Date) { 1 <= d.month <= 12 && 1 <= d.day <= DaysInMonth(d.year, d.month) }

  function NextDay(d: Date): Date {
    if d.day < DaysInMonth(d.year, d.month) then d.(day := d.day + 1)
    else if d.month < 12 then Date(d.year, d.month + 1, 1)
    else Date(d.year + 1, 1, 1)
  }

  /** All divisions in `civil_from_days` but the first are of non-negative numbers, and the first is
      written there so that it rounds down, as `/` does here. */
  function CivilFromDays(days: int): Date {
    var z := days + 719468;
    var era := z / 146097;
    var doe := z - era * 146097;
    var yoe := YearOfEra(doe);
    var doy := doe - YearStart(yoe);
    var mp := (5 * doy + 2) / 153;
    var d := doy - MonthStart(mp) + 1;
    var m := mp + if mp < 10 then 3 else -9;
    Date(yoe + era * 400 + if m <= 2 then 1 else 0, m, d)
  }

  function YearOfEra(doe: int): int { (doe - doe / 1460 + doe / 36524 - doe / 146096) / 365 }

  /** Day of the era on which year `yoe` of the era begins; years begin in March. */
  function YearStart(yoe: int): int { 365 * yoe + yoe / 4 - yoe / 100 }

  function DaysFromCivil(date: Date): int {
    var y := if date.month <= 2 then date.year - 1 else date.year;
    var era := y / 400;
    var yoe := y - era * 400;
    var doy := MonthStart(date.month + if date.month > 2 then -3 else 9) + date.day - 1;
    era * 146097 + YearStart(yoe) + doy - 719468
  }

  predicate InYear(doe: int, yoe: int) {
    0 <= yoe <= 399 && YearStart(yoe) <= doe && (yoe == 399 || doe < YearStart(yoe + 1))
  }

  lemma YearInCentury(doe: int, century: int)
    requires 0 <= century <= 3 && 36524 * century <= doe < 36524 * (century + 1)
    ensures YearOfEra(doe) == (doe - doe / 1460 + century) / 365
    ensures 100 * century <= YearOfEra(doe) < 100 * (century + 1)
  {
    assert doe / 36524 == century && doe / 146096 == 0;
    assert 25 * century <= doe / 1460;
  }

  lemma YearHasBegun(doe: int, century: int)
    requires 0 <= century <= 3 && 36524 * century <= doe < 36524 * (century + 1)
    ensures 0 <= YearOfEra(doe) <= 399 && YearStart(YearOfEra(doe)) <= doe
  {
    YearInCentury(doe, century);
    hide YearOfEra;
    var yoe, leaps := YearOfEra(doe), doe / 1460;
    assert yoe / 100 == century && 25 * century <= leaps;
    assert 365 * yoe <= doe - leaps + century;
    assert yoe / 4 <= leaps;
  }

  lemma YearHasNotEnded(doe: int, century: int)
    requires 0 <= century <= 3 && 36524 * century <= doe < 36524 * (century + 1)
    ensures YearOfEra(doe) < 399 ==> doe < YearStart(YearOfEra(doe) + 1)
  {
    YearInCentury(doe, century);
    hide YearOfEra;
    var next, leaps := YearOfEra(doe) + 1, doe / 1460;
    assert doe - leaps + century < 365 * next;
    assert next / 100 == century || next == 100 * (century + 1);
    assert leaps <= next / 4;
  }

  lemma YearOfEraIsYear(doe: int)
    requires 0 <= doe <= 146096
    ensures InYear(doe, YearOfEra(doe))
  {
    if doe < 146096 {
      YearHasBegun(doe, doe / 36524);
      YearHasNotEnded(doe, doe / 36524);
    }
  }

  predicate InMonth(doy: int, mp: int) { 0 <= mp <= 11 && MonthStart(mp) <= doy < MonthStart(mp + 1) }

  /** Day of the March-based year on which month `mp` begins. */
  function MonthStart(mp: int): int { (153 * mp + 2) / 5 }

  lemma MonthOfDay(doy: int)
    requires 0 <= doy <= 365
    ensures InMonth(doy, (5 * doy + 2) / 153)
  {}

  /** The March-based date of a day: what `civil_from_days` computes before it moves the year to January. */
  datatype MarchDate = MarchDate(era: int, yoe: int, mp: int, dom: int)

  predicate ValidMarch(c: MarchDate) {
    && 0 <= c.yoe <= 399 && 0 <= c.mp <= 11 && 0 <= c.dom
    && MonthStart(c.mp) + c.dom < MonthStart(c.mp + 1)
    && MonthStart(c.mp) + c.dom < YearLength(c.yoe)
  }

  /** Days of the year that begins in March of `yoe`: its February is that of the next year. */
  function YearLength(yoe: int): (n: int)
    ensures 365 <= n <= 366
  {
    if Leap(yoe + 1) then 366 else 365
  }

  function MarchDays(c: MarchDate): int { c.era * 146097 + YearStart(c.yoe) + MonthStart(c.mp) + c.dom - 719468 }

  function Civil(c: MarchDate): Date {
    var m := c.mp + if c.mp < 10 then 3 else -9;
    Date(c.yoe + c.era * 400 + if m <= 2 then 1 else 0, m, c.dom + 1)
  }

  lemma NextQuotient4(y: int)
    ensures (y + 1) / 4 == y / 4 + if (y + 1) % 4 == 0 then 1 else 0
  {}

  lemma NextQuotient100(y: int)
    ensures (y + 1) / 100 == y / 100 + if (y + 1) % 100 == 0 then 1 else 0
    ensures (y + 1) % 100 == 0 ==> (y + 1) % 4 == 0
  {}

  lemma YearLengths(yoe: int)
    requires 0 <= yoe <= 399
    ensures yoe < 399 ==> YearStart(yoe + 1) == YearStart(yoe) + YearLength(yoe)
    ensures yoe == 399 ==> YearStart(yoe) + YearLength(yoe) == 146097
  {
    NextQuotient4(yoe);
    NextQuotient100(yoe);
    assert (yoe + 1) % 400 == 0 <==> yoe == 399;
  }

  /** Every day has a valid March-based date, which is the one computed. */
  lemma MarchDateOf(days: int) returns (c: MarchDate)
    ensures ValidMarch(c) && MarchDays(c) == days && CivilFromDays(days) == Civil(c)
  {
    hide YearOfEra, YearStart, YearLength, MonthStart;
    var z := days + 719468;
    var era := z / 146097;
    var doe := z - era * 146097;
    YearOfEraIsYear(doe);
    var yoe := YearOfEra(doe);
    YearLengths(yoe);
    var doy := doe - YearStart(yoe);
    MonthOfDay(doy);
    var mp := (5 * doy + 2) / 153;
    c := MarchDate(era, yoe, mp, doy - MonthStart(mp));
  }

  /** A valid March-based date lies inside its year, and the year inside its era. */
  lemma MarchBounds(c: MarchDate)
    requires ValidMarch(c)
    ensures YearStart(c.yoe) <= MarchDays(c) + 719468 - c.era * 146097 < YearStart(c.yoe) + YearLength(c.yoe)
    ensures 0 <= YearStart(c.yoe) && YearStart(c.yoe) + YearLength(c.yoe) <= 146097
  {
    YearLengths(c.yoe);
    YearStartsIncrease(0, c.yoe);
    YearStartsIncrease(c.yoe, 399);
    hide YearLength;
  }

  lemma YearStartsIncrease(y1: int, y2: int)
    requires 0 <= y1 <= 399 && 0 <= y2 <= 399
    ensures y1 < y2 ==> YearStart(y1) + YearLength(y1) <= YearStart(y2)
  {
    YearLengths(y1);
    hide YearLength;
  }

  lemma MonthStartsIncrease(m1: int, m2: int)
    requires 0 <= m1 && 0 <= m2
    ensures m1 < m2 ==> MonthStart(m1 + 1) <= MonthStart(m2)
  {}

  lemma MarchDaysInjective(c: MarchDate, d: MarchDate)
    requires ValidMarch(c) && ValidMarch(d) && MarchDays(c) == MarchDays(d)
    ensures c == d
  {
    hide YearStart, YearLength, MonthStart;
    MarchBounds(c);
    MarchBounds(d);
    assert c.era == d.era;
    YearStartsIncrease(c.yoe, d.yoe);
    YearStartsIncrease(d.yoe, c.yoe);
    MonthStartsIncrease(c.mp, d.mp);
    MonthStartsIncrease(d.mp, c.mp);
  }

  lemma CivilOfMarchDays(c: MarchDate)
    requires ValidMarch(c)
    ensures CivilFromDays(MarchDays(c)) == Civil(c)
  {
    hide CivilFromDays, YearStart, YearLength, MonthStart;
    var d := MarchDateOf(MarchDays(c));
    MarchDaysInjective(c, d);
  }

  lemma CivilIsValid(c: MarchDate)
    requires ValidMarch(c)
    ensures ValidDate(Civil(c))
  {
    LeapInEra(c.era, c.yoe + 1);
  }

  lemma SameRemainder4(y: int, k: int)
    ensures (y + 4 * k) % 4 == y % 4
  {}

  lemma SameRemainder100(y: int, k: int)
    ensures (y + 100 * k) % 100 == y % 100
  {}

  lemma SameRemainder400(y: int, k: int)
    ensures (y + 400 * k) % 400 == y % 400
  {}

  lemma LeapInEra(era: int, y: int)
    ensures Leap(y + era * 400) == Leap(y)
  {
    SameRemainder4(y, 100 * era);
    SameRemainder100(y, 4 * era);
    SameRemainder400(y, era);
  }

  lemma DaysOfCivil(c: MarchDate)
    requires ValidMarch(c)
    ensures DaysFromCivil(Civil(c)) == MarchDays(c)
  {
    hide YearStart, YearLength, MonthStart;
    assert (c.yoe + c.era * 400) / 400 == c.era;
  }

  /** Every day number is a valid date, and converting it back gives the day number. */
  lemma DaysRoundTrip(days: int)
    ensures ValidDate(CivilFromDays(days)) && DaysFromCivil(CivilFromDays(days)) == days
  {
    hide CivilFromDays, DaysFromCivil, ValidDate, MarchDays, Civil, ValidMarch;
    var c := MarchDateOf(days);
    CivilIsValid(c);
    DaysOfCivil(c);
  }

  function NextMarch(c: MarchDate): MarchDate {
    if MonthStart(c.mp) + c.dom + 1 == YearLength(c.yoe) then
      (if c.yoe == 399 then MarchDate(c.era + 1, 0, 0, 0) else MarchDate(c.era, c.yoe + 1, 0, 0))
    else if MonthStart(c.mp) + c.dom + 1 == MonthStart(c.mp + 1) then MarchDate(c.era, c.yoe, c.mp + 1, 0)
    else c.(dom := c.dom + 1)
  }

  lemma NextMarchIsNext(c: MarchDate)
    requires ValidMarch(c)
    ensures ValidMarch(NextMarch(c)) && MarchDays(NextMarch(c)) == MarchDays(c) + 1
  {
    YearLengths(c.yoe);
    hide YearLength;
  }

  lemma CivilOfNextMarch(c: MarchDate)
    requires ValidMarch(c)
    ensures Civil(NextMarch(c)) == NextDay(Civil(c))
  {
    LeapInEra(c.era, c.yoe + 1);
    hide Leap;
  }

  /** The next day number is the next date. */
  lemma NextDayIsNextDate(days: int)
    ensures CivilFromDays(days + 1) == NextDay(CivilFromDays(days))
  {
    hide CivilFromDays, NextDay, ValidMarch, MarchDays, Civil;
    var c := MarchDateOf(days);
    NextMarchIsNext(c);
    CivilOfMarchDays(NextMarch(c));
    CivilOfNextMarch(c);
  }

  lemma EpochDate()
    ensures CivilFromDays(0) == EPOCH
  {}

  const EPOCH := Date(1970, 1, 1)

  /** The date reached by counting days from 1970-01-01. */
  function DateAfter(days: nat): Date { if days == 0 then EPOCH else NextDay(DateAfter(days - 1)) }

  /** The arithmetic conversion is that count. */
  lemma {:induction false} CountedDate(days: nat)
    ensures CivilFromDays(days) == DateAfter(days)
  {
    hide CivilFromDays, NextDay;
    if days == 0 {
      EpochDate();
    } else {
      CountedDate(days - 1);
      NextDayIsNextDate(days - 1);
    }
  }

  lemma MarchOfCivil(date: Date) returns (c: MarchDate)
    requires ValidDate(date)
    ensures ValidMarch(c) && Civil(c) == date && MarchDays(c) == DaysFromCivil(date)
  {
    var y := if date.month <= 2 then date.year - 1 else date.year;
    c := MarchDate(y / 400, y % 400, date.month + (if date.month > 2 then -3 else 9), date.day - 1);
    LeapInEra(y / 400, y % 400 + 1);
    hide Leap, YearStart;
  }

  /** Every valid date is the date of its day number. */
  lemma CivilRoundTrip(date: Date)
    requires ValidDate(date)
    ensures CivilFromDays(DaysFromCivil(date)) == date
  {
    hide CivilFromDays, DaysFromCivil, ValidDate;
    var c := MarchOfCivil(date);
    CivilOfMarchDays(c);
  }
}
