/** Days to civil dates and back, the two implementations of it, and RFC 3339 text.  The closed
    formulas are compared with a calendar that steps from one day to the next, and the text with
    its reading back. */
module Calendar {
  import opened JsonValue
  import opened JsonGrammar
  import opened DecimalText

  // ----- the Gregorian calendar, defined by its days -----

  datatype Date = Date(year: int, month: int, day: int)

  predicate Leap(year: int) { year % 4 == 0 && (year % 100 != 0 || year % 400 == 0) }

  function MonthDays(year: int, month: int): int {
    if month == 2 then if Leap(year) then 29 else 28
    else if month == 4 || month == 6 || month == 9 || month == 11 then 30
    else 31
  }

  predicate Valid(d: Date) { 1 <= d.month <= 12 && 1 <= d.day <= MonthDays(d.year, d.month) }

  function NextDay(d: Date): Date {
    if d.day < MonthDays(d.year, d.month) then d.(day := d.day + 1)
    else if d.month < 12 then Date(d.year, d.month + 1, 1)
    else Date(d.year + 1, 1, 1)
  }

  function PreviousDay(d: Date): Date {
    if d.day > 1 then d.(day := d.day - 1)
    else if d.month > 1 then Date(d.year, d.month - 1, MonthDays(d.year, d.month - 1))
    else Date(d.year - 1, 12, 31)
  }

  /** The date `n` days after (or before) 1 January 1970, counted day by day. */
  function Counted(n: int): Date
    decreases if n < 0 then -n else n
  {
    if n == 0 then Date(1970, 1, 1) else if n > 0 then NextDay(Counted(n - 1)) else PreviousDay(Counted(n + 1))
  }

  // ----- days since 1 March of year 0, in 400-year eras -----

  const ERA: int := 146_097
  const EPOCH: int := 719_468

  /** Days before year `y` of an era, years starting in March. */
  function YearStart(y: int): int { 365 * y + y / 4 - y / 100 }

  /** Days before month `mp` of a year starting in March. */
  function MonthStart(mp: int): int { (153 * mp + 2) / 5 }

  function YearOfEra(doe: int): int { (doe - doe / 1_460 + doe / 36_524 - doe / 146_096) / 365 }

  /** The last day of a March year is a leap day when the next civil year is a leap year. */
  predicate LeapEnd(y: int) { (y + 1) % 4 == 0 && ((y + 1) % 100 != 0 || (y + 1) % 400 == 0) }

  /** `civil_from_days`, without its overflow check. */
  function Civil(days: int): Date {
    var z := days + EPOCH;
    var era := z / ERA;
    var doe := z - era * ERA;
    var yoe := YearOfEra(doe);
    DateOf(era, yoe, doe - YearStart(yoe))
  }

  /** Month and day of day `doy` of year `yoe` of an era. */
  function DateOf(era: int, yoe: int, doy: int): Date {
    var mp := (5 * doy + 2) / 153;
    var day := doy - MonthStart(mp) + 1;
    var month := if mp < 10 then mp + 3 else mp - 9;
    Date(yoe + era * 400 + (if month <= 2 then 1 else 0), month, day)
  }

  /** The day count `parse_iso_utc` computes. */
  function DayNumber(d: Date): int {
    var y := if d.month <= 2 then d.year - 1 else d.year;
    var era := y / 400;
    var yoe := y - era * 400;
    var mp := if d.month > 2 then d.month - 3 else d.month + 9;
    era * ERA + YearStart(yoe) + (MonthStart(mp) + d.day - 1) - EPOCH
  }

  /** A day of a four-year cycle `q` of a century `c`, `t` days in. */
  lemma YearOfEraInCycle(c: int, q: int, t: int)
    requires 0 <= c < 4 && 0 <= q < 25 && 0 <= t < 1_461 && 1_461 * q + t < 36_524
    ensures var w := if t == 1_460 then 3 else t / 365;
            YearOfEra(36_524 * c + 1_461 * q + t) == 100 * c + 4 * q + w
  {
    var doe := 36_524 * c + 1_461 * q + t;
    var late := if 24 * c + q + t >= 1_460 then 1 else 0;
    assert doe / 36_524 == c && doe / 146_096 == 0;
    assert doe / 1_460 == 25 * c + q + late;
    var w := if t == 1_460 then 3 else t / 365;
    assert 365 * w <= t - late < 365 * w + 365;
  }

  lemma YearStartInCycle(c: int, q: int, w: int)
    requires 0 <= c < 4 && 0 <= q < 25 && 0 <= w < 4
    ensures YearStart(100 * c + 4 * q + w) == 36_524 * c + 1_461 * q + 365 * w
  {
    var y := 100 * c + 4 * q + w;
    assert y / 4 == 25 * c + q && y / 100 == c;
  }

  /** Every day of an era falls into the year found, the leap day only where there is one. */
  lemma YearOfEraBounds(doe: int)
    requires 0 <= doe < ERA
    ensures var y := YearOfEra(doe);
            0 <= y < 400 && 0 <= doe - YearStart(y) <= 365 && (doe - YearStart(y) == 365 ==> LeapEnd(y))
  {
    hide YearOfEra, YearStart, LeapEnd;
    if doe < 146_096 {
      var c := doe / 36_524;
      var r := doe - 36_524 * c;
      var q := r / 1_461;
      InCycle(c, q, r - 1_461 * q);
    } else {
      LastOfEra();
    }
  }

  lemma InCycle(c: int, q: int, t: int)
    requires 0 <= c < 4 && 0 <= q < 25 && 0 <= t < 1_461 && 1_461 * q + t < 36_524
    ensures var doe := 36_524 * c + 1_461 * q + t;
            var y := YearOfEra(doe);
            0 <= y < 400 && 0 <= doe - YearStart(y) <= 365 && (doe - YearStart(y) == 365 ==> LeapEnd(y))
  {
    hide YearOfEra, YearStart, LeapEnd;
    YearOfEraInCycle(c, q, t);
    YearStartInCycle(c, q, if t == 1_460 then 3 else t / 365);
    if t == 1_460 { LastOfCycle(c, q); }
  }

  lemma LastOfEra()
    ensures YearOfEra(146_096) == 399 && YearStart(399) == 145_731 && LeapEnd(399)
  {
  }

  lemma LastOfCycle(c: int, q: int)
    requires 0 <= c < 4 && 0 <= q < 24
    ensures LeapEnd(100 * c + 4 * q + 3)
  {
  }

  /** Year `y` of an era has this many days. */
  function YearLength(y: int): int { if LeapEnd(y) then 366 else 365 }

  lemma YearStartNext(y: int)
    requires 0 <= y < 399
    ensures YearStart(y + 1) == YearStart(y) + YearLength(y)
  {
    hide LeapEnd;
    Fours(y);
    Hundreds(y);
    LeapInEra(y);
  }

  lemma Fours(y: int)
    ensures (y + 1) / 4 == y / 4 + if (y + 1) % 4 == 0 then 1 else 0
  {
  }

  lemma Hundreds(y: int)
    ensures (y + 1) / 100 == y / 100 + if (y + 1) % 100 == 0 then 1 else 0
    ensures (y + 1) % 100 == 0 ==> (y + 1) % 4 == 0
  {
  }

  lemma LeapInEra(y: int)
    requires 0 <= y < 399
    ensures LeapEnd(y) <==> (y + 1) % 4 == 0 && (y + 1) % 100 != 0
  {
  }

  lemma {:induction false} YearStartMonotone(y: int, y': int)
    requires 0 <= y < y' < 400
    ensures YearStart(y) + YearLength(y) <= YearStart(y')
    decreases y'
  {
    YearStartNext(y' - 1);
    if y < y' - 1 { YearStartMonotone(y, y' - 1); }
  }

  lemma YearOfEraUnique(y: int, doy: int)
    requires 0 <= y < 400 && 0 <= doy < YearLength(y)
    ensures 0 <= YearStart(y) + doy < ERA && YearOfEra(YearStart(y) + doy) == y
  {
    var doe := YearStart(y) + doy;
    if y < 399 { YearStartMonotone(y, 399); }
    YearOfEraBounds(doe);
    var found := YearOfEra(doe);
    hide YearOfEra;
    if found < y { YearStartMonotone(found, y); }
    if y < found { YearStartMonotone(y, found); }
  }

  // ----- months -----

  function MarchMonthDays(mp: int, year: int): int {
    MonthDays(year, if mp < 10 then mp + 3 else mp - 9)
  }

  lemma MonthOfYear(doy: int)
    requires 0 <= doy <= 365
    ensures var mp := (5 * doy + 2) / 153;
            0 <= mp < 12 && 0 <= doy - MonthStart(mp) && (mp < 11 ==> doy < MonthStart(mp + 1)) && (mp == 11 ==> doy - MonthStart(mp) <= 28)
  {
  }

  lemma MonthLengths(mp: int, year: int)
    requires 0 <= mp < 11
    ensures MonthStart(mp + 1) - MonthStart(mp) == MarchMonthDays(mp, year)
  {
  }

  lemma MonthUnique(mp: int, day: int)
    requires 0 <= mp < 12 && 1 <= day <= MarchMonthDays(mp, 4)
    ensures (5 * (MonthStart(mp) + day - 1) + 2) / 153 == mp
  {
  }

  // ----- eras -----

  lemma Mod4(era: int, n: int)
    ensures (400 * era + n) % 4 == n % 4
  {
    assert 400 * era + n == 4 * (100 * era + n / 4) + n % 4;
  }

  lemma Mod100(era: int, n: int)
    ensures (400 * era + n) % 100 == n % 100
  {
    assert 400 * era + n == 100 * (4 * era + n / 100) + n % 100;
  }

  lemma Mod400(era: int, n: int)
    ensures (400 * era + n) % 400 == n % 400
  {
    assert 400 * era + n == 400 * (era + n / 400) + n % 400;
  }

  lemma LeapEndIsLeap(era: int, y: int)
    ensures LeapEnd(y) <==> Leap(400 * era + y + 1)
  {
    Mod4(era, y + 1);
    Mod100(era, y + 1);
    Mod400(era, y + 1);
    assert 400 * era + y + 1 == 400 * era + (y + 1);
  }

  lemma EraOf(era: int, r: int)
    requires 0 <= r < ERA
    ensures (era * ERA + r) / ERA == era
  {
  }

  lemma CenturyOf(era: int, y: int)
    requires 0 <= y < 400
    ensures (400 * era + y) / 400 == era
  {
  }

  lemma DateOfValid(era: int, yoe: int, doy: int)
    requires 0 <= yoe < 400 && 0 <= doy < YearLength(yoe)
    ensures Valid(DateOf(era, yoe, doy)) && DayNumber(DateOf(era, yoe, doy)) == era * ERA + YearStart(yoe) + doy - EPOCH
  {
    MonthOfYear(doy);
    var mp := (5 * doy + 2) / 153;
    hide YearStart, Leap, LeapEnd, MonthStart;
    CenturyOf(era, yoe);
    LeapEndIsLeap(era, yoe);
    MonthStartLast();
    if mp < 11 { MonthLengths(mp, DateOf(era, yoe, doy).year); }
  }

  lemma CivilOfEra(era: int, r: int)
    requires 0 <= r < ERA
    ensures Civil(era * ERA + r - EPOCH) == DateOf(era, YearOfEra(r), r - YearStart(YearOfEra(r)))
  {
    hide YearOfEra, YearStart, DateOf;
    EraOf(era, r);
  }

  lemma EraSplit(z: int)
    ensures 0 <= z - z / ERA * ERA < ERA
  {
  }

  /** Every day number gives a valid Gregorian date, and that date has that number. */
  lemma CivilValid(days: int)
    ensures Valid(Civil(days)) && DayNumber(Civil(days)) == days
  {
    hide YearOfEra, YearStart, DateOf, LeapEnd, Valid, DayNumber, Civil;
    var z := days + EPOCH;
    var era := z / ERA;
    EraSplit(z);
    EraDay(era, z - era * ERA);
    assert era * ERA + (z - era * ERA) - EPOCH == days;
  }

  lemma EraDay(era: int, doe: int)
    requires 0 <= doe < ERA
    ensures var days := era * ERA + doe - EPOCH; Valid(Civil(days)) && DayNumber(Civil(days)) == days
  {
    hide YearOfEra, YearStart, DateOf, LeapEnd, Valid, DayNumber, Civil;
    YearOfEraBounds(doe);
    CivilOfEra(era, doe);
    DateOfValid(era, YearOfEra(doe), doe - YearStart(YearOfEra(doe)));
  }

  lemma MonthStartLast()
    ensures MonthStart(11) == 337 && MonthStart(0) == 0
  {
  }

  lemma DateOfInverse(d: Date, era: int, yoe: int, mp: int)
    requires Valid(d) && mp == (if d.month > 2 then d.month - 3 else d.month + 9)
    requires 400 * era + yoe == if d.month <= 2 then d.year - 1 else d.year
    ensures DateOf(era, yoe, MonthStart(mp) + d.day - 1) == d
  {
    MonthUnique(mp, d.day);
    hide MonthStart;
  }

  /** A valid date is found again from its number. */
  lemma CivilInverse(d: Date)
    requires Valid(d)
    ensures Civil(DayNumber(d)) == d
  {
    hide YearOfEra, YearStart, Leap, LeapEnd, YearLength, MonthStart, DateOf, Valid, Civil, DayNumber;
    var y := if d.month <= 2 then d.year - 1 else d.year;
    var era := y / 400;
    var yoe := y - era * 400;
    var mp := if d.month > 2 then d.month - 3 else d.month + 9;
    var doy := MonthStart(mp) + d.day - 1;
    NumberParts(d);
    LeapEndIsLeap(era, yoe);
    DayOfYear(d, mp, yoe, doy);
    YearOfEraUnique(yoe, doy);
    CivilOfEra(era, YearStart(yoe) + doy);
    DateOfInverse(d, era, yoe, mp);
  }

  lemma NumberParts(d: Date)
    ensures var y := if d.month <= 2 then d.year - 1 else d.year;
            var mp := if d.month > 2 then d.month - 3 else d.month + 9;
            var yoe := y - y / 400 * 400;
            0 <= yoe < 400 && DayNumber(d) == y / 400 * ERA + (YearStart(yoe) + (MonthStart(mp) + d.day - 1)) - EPOCH
  {
    hide YearStart, MonthStart;
  }

  lemma DayOfYear(d: Date, mp: int, yoe: int, doy: int)
    requires Valid(d) && mp == (if d.month > 2 then d.month - 3 else d.month + 9) && doy == MonthStart(mp) + d.day - 1
    requires d.month == 2 ==> (LeapEnd(yoe) <==> Leap(d.year))
    ensures 0 <= doy < YearLength(yoe)
  {
    hide Leap, LeapEnd;
  }

  /** Crossing the end of a March year. */
  lemma YearNumberNext(y: int)
    ensures var era, yoe := y / 400, y - y / 400 * 400;
            var era', yoe' := (y + 1) / 400, (y + 1) - (y + 1) / 400 * 400;
            era' * ERA + YearStart(yoe') == era * ERA + YearStart(yoe) + YearLength(yoe)
  {
    var era, yoe := y / 400, y - y / 400 * 400;
    if yoe < 399 {
      YearStartNext(yoe);
      CenturyOf(era, yoe + 1);
    } else {
      CenturyOf(era + 1, 0);
    }
  }

  /** The next day has the next number. */
  lemma NumberNext(d: Date)
    requires Valid(d)
    ensures Valid(NextDay(d)) && DayNumber(NextDay(d)) == DayNumber(d) + 1
  {
    hide YearStart, Leap, LeapEnd, MonthStart;
    if d.day < MonthDays(d.year, d.month) {
    } else if d.month == 2 {
      FebruaryEnd(d);
    } else {
      MonthLengths(if d.month > 2 then d.month - 3 else d.month + 9, d.year);
    }
  }

  /** The day after the last of February starts a March year. */
  lemma FebruaryEnd(d: Date)
    requires Valid(d) && d.month == 2 && d.day == MonthDays(d.year, 2)
    ensures DayNumber(Date(d.year, 3, 1)) == DayNumber(d) + 1
  {
    hide YearStart, Leap, LeapEnd, MonthStart;
    var y := d.year - 1;
    YearNumberNext(y);
    LeapEndIsLeap(y / 400, y - y / 400 * 400);
    MonthStartLast();
  }

  lemma PreviousNext(d: Date)
    requires Valid(d)
    ensures PreviousDay(NextDay(d)) == d
  {
    hide Leap;
  }

  /** `civil_from_days` counts days exactly as the calendar does. */
  lemma CivilNext(days: int)
    ensures Civil(days + 1) == NextDay(Civil(days)) && Civil(days) == PreviousDay(Civil(days + 1))
  {
    CivilValid(days);
    hide Civil, DayNumber, NextDay, PreviousDay, Valid;
    NumberNext(Civil(days));
    CivilInverse(NextDay(Civil(days)));
    PreviousNext(Civil(days));
  }

  lemma CivilEpoch()
    ensures Civil(0) == Date(1970, 1, 1)
  {
    hide Civil;
    CivilInverse(Date(1970, 1, 1));
  }

  /** `civil_from_days` is the calendar, counted day by day in both directions. */
  lemma {:induction false} CivilIsCounted(n: int)
    ensures Civil(n) == Counted(n)
    decreases if n < 0 then -n else n
  {
    CivilEpoch();
    hide Civil;
    if n > 0 {
      CivilIsCounted(n - 1);
      CivilNext(n - 1);
    } else if n < 0 {
      CivilIsCounted(n + 1);
      CivilNext(n);
    }
  }

  // ----- the second implementation -----

  const U32: int := 0x1_0000_0000

  datatype Moment = Moment(year: int, month: int, day: int, hour: int, minute: int, second: int)

  function Days(secs: nat): nat { secs / 86_400 }

  function Hour(secs: nat): nat { secs % 86_400 / 3_600 }

  function Minute(secs: nat): nat { secs % 86_400 % 3_600 / 60 }

  function Second(secs: nat): nat { secs % 86_400 % 60 }

  /** The date part of `secs_to_ymdhms`; `z` counts from 1 March of year 0. */
  function BrokenDate(z: int): Date {
    var era := (if z >= 0 then z else z - 146_096) / 146_097;
    var doe := z - era * 146_097;
    var yoe := (doe - doe / 1460 + doe / 36_524 - doe / 146_096) / 365;
    var yr := yoe + era * 400;
    BrokenDay(yr, doe - (365 * yoe + yoe / 4 - yoe / 100))
  }

  function BrokenDay(yr: int, doy: int): Date {
    var mp := (5 * doy + 2) / 153;
    var day := doy - (153 * mp + 2) / 5 + 1;
    var month := if mp < 10 then mp + 3 else mp - 9;
    Date(yr + if month <= 2 then 1 else 0, month, day)
  }

  /** `secs_to_ymdhms`, whose year is truncated to 32 bits. */
  function Broken(secs: nat): Moment {
    var d := BrokenDate(Days(secs) + 719_468);
    Moment(d.year % U32, d.month, d.day, Hour(secs), Minute(secs), Second(secs))
  }

  lemma BrokenIsCivil(days: nat)
    ensures BrokenDate(days + 719_468) == Civil(days)
  {
    hide BrokenDay, DateOf;
    var z := days + EPOCH;
    var doe := z - z / ERA * ERA;
    assert YearOfEra(doe) == (doe - doe / 1460 + doe / 36_524 - doe / 146_096) / 365;
    BrokenDayIs(z / ERA, YearOfEra(doe), doe - YearStart(YearOfEra(doe)));
    hide YearOfEra;
  }

  lemma BrokenDayIs(era: int, yoe: int, doy: int)
    ensures BrokenDay(yoe + era * 400, doy) == DateOf(era, yoe, doy)
  {
  }

  /** Days, hours, minutes and seconds make up a second count. */
  lemma Clock(secs: nat)
    ensures Hour(secs) < 24 && Minute(secs) < 60 && Second(secs) < 60
    ensures secs == Days(secs) * 86_400 + Hour(secs) * 3600 + Minute(secs) * 60 + Second(secs)
  {
    var time := secs % 86_400;
    assert time % 3600 % 60 == time % 60 by { assert time == 60 * (60 * (time / 3600) + time % 3600 / 60) + time % 3600 % 60; }
  }

  lemma Fits32(y: nat)
    ensures y % U32 == y <==> y < U32
  {
  }

  /** The two implementations agree exactly as long as the year fits 32 bits. */
  lemma BrokenAgrees(secs: nat)
    ensures var (m, d) := (Broken(secs), Civil(Days(secs)));
            && Valid(d) && m.month == d.month && m.day == d.day && (m.year == d.year <==> d.year < U32)
            && m.hour < 24 && m.minute < 60 && m.second < 60
            && secs == DayNumber(d) * 86_400 + m.hour * 3600 + m.minute * 60 + m.second
  {
    hide Civil, Valid, DayNumber, BrokenDate, Days, Hour, Minute, Second;
    CivilValid(Days(secs));
    Clock(secs);
    FourDigitYears(Days(secs));
    BrokenIsCivil(Days(secs));
    Fits32(Civil(Days(secs)).year);
  }

  // ----- text -----

  /** `format_rfc3339` */
  function Format(secs: nat): string
    requires Civil(Days(secs)).year >= 0 && Civil(Days(secs)).month >= 0 && Civil(Days(secs)).day >= 0
  {
    var d := Civil(Days(secs));
    Layout(Pad(d.year, 4), Pad(d.month, 2), Pad(d.day, 2), Pad(Hour(secs), 2), Pad(Minute(secs), 2), Pad(Second(secs), 2))
  }

  function Layout(year: string, month: string, day: string, hour: string, minute: string, second: string): string {
    year + "-" + month + "-" + day + "T" + hour + ":" + minute + ":" + second + "Z"
  }

  /** `value.get(a..b)` */
  function Slice(s: string, a: nat, b: nat): Option<string>
    requires a <= b
  {
    if b <= |s| then Some(s[a..b]) else None
  }

  function DigitCount(s: string): (n: nat)
    ensures n <= |s|
  {
    if s != "" && IsDigit(s[0]) then 1 + DigitCount(s[1..]) else 0
  }

  function ParseOffset(suffix: string): Option<int> {
    if suffix == "Z" then Some(0)
    else if |suffix| != 6 || (suffix[0] != '+' && suffix[0] != '-') || suffix[3] != ':' then None
    else
      var hours :- ParseInteger(suffix[1..3], true);
      var minutes :- ParseInteger(suffix[4..6], true);
      if hours > 23 || minutes > 59 then None
      else Some((if suffix[0] == '+' then 1 else -1) * (hours * 3600 + minutes * 60))
  }

  function ParseDate(value: string): Option<Date> {
    if |value| < 10 || value[4] != '-' || value[7] != '-' then None
    else
      var year :- ParseInteger(value[..4], true);
      var month :- ParseInteger(value[5..7], false);
      var day :- ParseInteger(value[8..10], false);
      if Valid(Date(year, month, day)) then Some(Date(year, month, day)) else None
  }

  /** Seconds from midnight UTC to the moment the rest of a timestamp names. */
  function ParseTime(value: string): Option<int> {
    if |value| <= 10 || value[10] != 'T' then None
    else
      var h :- Slice(value, 11, 13);
      var hour :- ParseInteger(h, true);
      var m :- Slice(value, 14, 16);
      var minute :- ParseInteger(m, true);
      var s :- Slice(value, 17, 19);
      var second :- ParseInteger(s, true);
      if value[13] != ':' || value[16] != ':' || hour > 23 || minute > 59 || second > 60 then None
      else
        var suffix := value[19..];
        var digits := if suffix != "" && suffix[0] == '.' then DigitCount(suffix[1..]) else 0;
        if suffix != "" && suffix[0] == '.' && digits == 0 then None
        else
          var offset :- ParseOffset(if suffix != "" && suffix[0] == '.' then suffix[1 + digits..] else suffix);
          Some(hour * 3600 + minute * 60 + second - offset)
  }

  /** `parse_iso_utc` */
  function ParseIso(value: string): Option<int> {
    var date :- ParseDate(value);
    var time :- if |value| == 10 then Some(0) else ParseTime(value);
    var seconds := DayNumber(date) * 86_400 + time;
    if seconds >= 0 then Some(seconds) else None
  }

  lemma LayoutParts(year: string, month: string, day: string, hour: string, minute: string, second: string)
    requires |year| == 4 && |month| == |day| == |hour| == |minute| == |second| == 2
    ensures var v := Layout(year, month, day, hour, minute, second);
            && |v| == 20 && v[..4] == year && v[4] == '-' && v[5..7] == month && v[7] == '-' && v[8..10] == day && v[10] == 'T'
            && v[11..13] == hour && v[13] == ':' && v[14..16] == minute && v[16] == ':' && v[17..19] == second && v[19..] == "Z"
  {
  }

  lemma PadParses(n: nat, w: nat, signed: bool)
    requires 0 < w && n < Pow10(w)
    ensures |Pad(n, w)| == w && ParseInteger(Pad(n, w), signed) == Some(n)
  {
    PadReads(n, w);
  }

  lemma SmallPowers()
    ensures Pow10(2) == 100 && Pow10(4) == 10_000
  {
    assert Pow10(1) == 10 && Pow10(3) == 1000;
  }

  /** Reading a formatted moment gives back its fields. */
  lemma LayoutReads(d: Date, hour: nat, minute: nat, second: nat)
    requires Valid(d) && 0 <= d.year < 10_000 && hour < 24 && minute < 60 && second < 60
    ensures var v := Layout(Pad(d.year, 4), Pad(d.month, 2), Pad(d.day, 2), Pad(hour, 2), Pad(minute, 2), Pad(second, 2));
            && ParseDate(v) == Some(d) && ParseTime(v) == Some(hour * 3600 + minute * 60 + second) && |v| == 20
  {
    SmallPowers();
    hide Pad, ParseInteger, Layout, Pow10;
    PadParses(d.year, 4, true);
    PadParses(d.month, 2, false);
    PadParses(d.day, 2, false);
    PadParses(hour, 2, true);
    PadParses(minute, 2, true);
    PadParses(second, 2, true);
    LayoutParts(Pad(d.year, 4), Pad(d.month, 2), Pad(d.day, 2), Pad(hour, 2), Pad(minute, 2), Pad(second, 2));
    assert "Z"[0] != '.';
  }

  /** The first second of the year 10000. */
  const YEAR_10000: nat := 253_402_300_800

  lemma {:induction false} YearMonotone(a: int, b: int)
    requires a <= b
    ensures Civil(a).year <= Civil(b).year
    decreases b - a
  {
    hide Civil;
    if a < b {
      YearMonotone(a, b - 1);
      CivilNext(b - 1);
    }
  }

  lemma FourDigitYears(days: nat)
    ensures Civil(days).year >= 1970 && Valid(Civil(days)) && (Civil(days).year < 10_000 <==> days < 2_932_897)
  {
    hide Civil;
    CivilValid(days);
    CivilEpoch();
    YearMonotone(0, days);
    CivilInverse(Date(10_000, 1, 1));
    CivilInverse(Date(9_999, 12, 31));
    assert DayNumber(Date(10_000, 1, 1)) == 2_932_897 && DayNumber(Date(9_999, 12, 31)) == 2_932_896;
    if days < 2_932_897 { YearMonotone(days, 2_932_896); } else { YearMonotone(2_932_897, days); }
  }

  lemma LongYearFails(year: nat, rest: string)
    requires year >= 10_000
    ensures ParseDate(Pad(year, 4) + rest) == None
  {
    PadReads(year, 4);
    SmallPowers();
    var p := Pad(year, 4);
    FiveDigits(year);
    DigitAt(p, 4);
  }

  lemma FiveDigits(n: nat)
    requires n >= 10_000
    ensures |ToText(n)| >= 5
  {
    assert n / 10 >= 1000 && n / 10 / 10 >= 100 && n / 10 / 10 / 10 >= 10;
    assert |ToText(n / 10 / 10 / 10)| >= 2;
    assert |ToText(n / 10 / 10)| >= 3;
    assert |ToText(n / 10)| >= 4;
  }

  lemma {:induction false} DigitAt(s: string, k: nat)
    requires AllDigits(s) && k < |s|
    ensures IsDigit(s[k])
    decreases k
  {
    if k > 0 { DigitAt(s[1..], k - 1); }
  }

  /** Formatting and parsing undo each other for every second before the year 10000, and only then. */
  lemma FormatRoundTrip(secs: nat)
    ensures var d := Civil(Days(secs));
            d.year >= 0 && d.month >= 0 && d.day >= 0 && (ParseIso(Format(secs)) == Some(secs) <==> secs < YEAR_10000)
  {
    var d, h, mi, s := Civil(Days(secs)), Hour(secs), Minute(secs), Second(secs);
    FourDigitYears(Days(secs));
    CivilValid(Days(secs));
    Clock(secs);
    hide Civil, DayNumber, ParseDate, ParseTime, Pad, Layout, Days, Hour, Minute, Second;
    if d.year < 10_000 {
      LayoutReads(d, h, mi, s);
    } else {
      var rest := "-" + Pad(d.month, 2) + "-" + Pad(d.day, 2) + "T" + Pad(h, 2) + ":" + Pad(mi, 2) + ":" + Pad(s, 2) + "Z";
      LongYearFails(d.year, rest);
      LayoutYear(Pad(d.year, 4), Pad(d.month, 2), Pad(d.day, 2), Pad(h, 2), Pad(mi, 2), Pad(s, 2));
    }
  }

  lemma LayoutYear(year: string, month: string, day: string, hour: string, minute: string, second: string)
    ensures Layout(year, month, day, hour, minute, second) ==
            year + ("-" + month + "-" + day + "T" + hour + ":" + minute + ":" + second + "Z")
  {
  }
}
