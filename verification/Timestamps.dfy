/** Which texts are timestamps, and the second each one names. */
module Timestamps {
  // The reading of calendar days and timestamps against their written form: date, clock, fraction and zone.

  import opened JsonValue
  import opened JsonGrammar
  import opened DecimalText
  import opened Calendar

  datatype Zone = Zulu | Shift(sign: char, hours: string, minutes: string)

  datatype ClockTime = ClockTime(hour: string, minute: string, second: string, fraction: Option<string>, zone: Zone)

  /** A day, or a moment of it. */
  datatype Stamp = Stamp(year: string, month: string, day: string, clock: Option<ClockTime>)

  function ZoneText(z: Zone): string {
    match z
    case Zulu => "Z"
    case Shift(sign, hours, minutes) => [sign] + hours + ":" + minutes
  }

  function TailText(c: ClockTime): string { (if c.fraction.Some? then "." + c.fraction.value else "") + ZoneText(c.zone) }

  function DayText(s: Stamp): string { s.year + "-" + s.month + "-" + s.day }

  function ClockText(c: ClockTime): string { "T" + c.hour + ":" + c.minute + ":" + c.second }

  function StampText(s: Stamp): string {
    DayText(s) + if s.clock.Some? then ClockText(s.clock.value) + TailText(s.clock.value) else ""
  }

  /** Digits behind an optional plus, or, where a sign may stand, a minus. */
  ghost predicate IntegerIs(f: string, signed: bool, n: int) {
    exists digits :: IntegerOf(f, signed, n, digits)
  }

  predicate IntegerOf(f: string, signed: bool, n: int, digits: string) {
    && Digits1(digits)
    && (|| ((f == digits || f == "+" + digits) && n == ValueOf(digits))
        || (signed && f == "-" + digits && n == -(ValueOf(digits) as int)))
  }

  lemma IntegerIff(f: string, signed: bool, n: int)
    ensures ParseInteger(f, signed) == Some(n) <==> IntegerIs(f, signed, n)
  {
    if ParseInteger(f, signed) == Some(n) {
      var digits := if f[0] == '+' || (signed && f[0] == '-') then f[1..] else f;
      assert f == [f[0]] + f[1..];
      assert IntegerOf(f, signed, n, digits);
    }
    if digits :| IntegerOf(f, signed, n, digits) {
      assert IsDigit(digits[0]);
      hide ValueOf, AllDigits;
      assert ("+" + digits)[1..] == digits && ("-" + digits)[1..] == digits;
    }
  }

  /** The shift of a zone from UTC, in seconds. */
  ghost predicate ZoneIs(z: Zone, offset: int) {
    match z
    case Zulu => offset == 0
    case Shift(sign, hours, minutes) =>
      && |hours| == 2 && |minutes| == 2 && (sign == '+' || sign == '-')
      && exists h, m ::
           && IntegerIs(hours, true, h) && IntegerIs(minutes, true, m) && h <= 23 && m <= 59
           && offset == if sign == '+' then h * 3600 + m * 60 else -(h * 3600 + m * 60)
  }

  /** The seconds from midnight UTC of the day to the moment: the local clock less the shift. */
  ghost predicate ClockIs(c: ClockTime, t: int) {
    && |c.hour| == 2 && |c.minute| == 2 && |c.second| == 2
    && (c.fraction.Some? ==> Digits1(c.fraction.value))
    && exists h, m, s, offset ::
         && IntegerIs(c.hour, true, h) && IntegerIs(c.minute, true, m) && IntegerIs(c.second, true, s)
         && h <= 23 && m <= 59 && s <= 60 && ZoneIs(c.zone, offset)
         && t == h * 3600 + m * 60 + s - offset
  }

  ghost predicate DayIs(s: Stamp, d: Date) {
    && |s.year| == 4 && |s.month| == 2 && |s.day| == 2
    && IntegerIs(s.year, true, d.year) && IntegerIs(s.month, false, d.month) && IntegerIs(s.day, false, d.day)
    && Valid(d)
  }

  /** The second a stamp names: a bare day its midnight. */
  ghost predicate StampIs(s: Stamp, t: int) { exists d: Date, u: int :: NamedAt(s, t, d, u) }

  ghost predicate NamedAt(s: Stamp, t: int, d: Date, u: int) {
    && DayIs(s, d) && t == DayNumber(d) * 86_400 + u
    && (if s.clock.Some? then ClockIs(s.clock.value, u) else u == 0)
  }

  // ----- zones -----

  lemma ZoneIff(z: Zone, offset: int)
    requires z.Shift? ==> |z.hours| == 2 && |z.minutes| == 2
    ensures ParseOffset(ZoneText(z)) == Some(offset) <==> ZoneIs(z, offset)
  {
    if z.Shift? {
      var t := ZoneText(z);
      assert |t| == 6 && t[0] == z.sign && t[1..3] == z.hours && t[3] == ':' && t[4..6] == z.minutes;
      var h, m := ParseInteger(z.hours, true), ParseInteger(z.minutes, true);
      forall n ensures (h == Some(n) <==> IntegerIs(z.hours, true, n)) && (m == Some(n) <==> IntegerIs(z.minutes, true, n)) {
        IntegerIff(z.hours, true, n);
        IntegerIff(z.minutes, true, n);
      }
      hide IntegerIs, ParseInteger;
      assert t != "Z";
    }
  }

  lemma ZoneForm(suffix: string) returns (z: Zone)
    requires ParseOffset(suffix).Some?
    ensures ZoneText(z) == suffix && (z.Shift? ==> |z.hours| == 2 && |z.minutes| == 2 && (z.sign == '+' || z.sign == '-'))
  {
    hide ParseInteger;
    if suffix == "Z" {
      z := Zulu;
    } else {
      z := Shift(suffix[0], suffix[1..3], suffix[4..6]);
      assert suffix == [suffix[0]] + suffix[1..3] + [suffix[3]] + suffix[4..6];
    }
  }

  // ----- the tail: fraction and zone -----

  /** The shift that a tail names. */
  function ParseTail(suffix: string): Option<int> {
    var digits := if suffix != "" && suffix[0] == '.' then DigitCount(suffix[1..]) else 0;
    if suffix != "" && suffix[0] == '.' && digits == 0 then None
    else ParseOffset(if suffix != "" && suffix[0] == '.' then suffix[1 + digits..] else suffix)
  }

  lemma {:induction false} CountedDigits(s: string, rest: string)
    requires AllDigits(s) && (rest != "" ==> !IsDigit(rest[0]))
    ensures DigitCount(s + rest) == |s|
    decreases |s|
  {
    if s == "" {
      assert s + rest == rest;
    } else {
      CountedDigits(s[1..], rest);
      assert (s + rest)[1..] == s[1..] + rest;
    }
  }

  lemma {:induction false} CountForm(s: string)
    ensures AllDigits(s[..DigitCount(s)])
    decreases |s|
  {
    if s != "" && IsDigit(s[0]) {
      CountForm(s[1..]);
      assert s[..DigitCount(s)][1..] == s[1..][..DigitCount(s[1..])];
    }
  }

  lemma TailReads(c: ClockTime)
    requires c.zone.Shift? ==> c.zone.sign == '+' || c.zone.sign == '-'
    requires c.fraction.Some? ==> Digits1(c.fraction.value)
    ensures ParseTail(TailText(c)) == ParseOffset(ZoneText(c.zone))
  {
    hide ParseOffset, AllDigits;
    var zone := ZoneText(c.zone);
    assert zone != "" && !IsDigit(zone[0]) && zone[0] != '.';
    if c.fraction.Some? {
      var tail := TailText(c);
      assert tail[0] == '.' && tail[1..] == c.fraction.value + zone;
      CountedDigits(c.fraction.value, zone);
      assert tail[1 + |c.fraction.value|..] == zone;
    } else {
      assert TailText(c) == zone;
    }
  }

  lemma TailForm(suffix: string) returns (fraction: Option<string>, zone: Zone)
    requires ParseTail(suffix).Some?
    ensures suffix == (if fraction.Some? then "." + fraction.value else "") + ZoneText(zone)
    ensures fraction.Some? ==> Digits1(fraction.value)
    ensures zone.Shift? ==> |zone.hours| == 2 && |zone.minutes| == 2 && (zone.sign == '+' || zone.sign == '-')
  {
    hide ParseOffset;
    if suffix != "" && suffix[0] == '.' {
      var n := DigitCount(suffix[1..]);
      CountForm(suffix[1..]);
      fraction := Some(suffix[1..][..n]);
      zone := ZoneForm(suffix[1 + n..]);
      assert suffix == "." + suffix[1..][..n] + suffix[1 + n..];
    } else {
      fraction := None;
      zone := ZoneForm(suffix);
    }
  }

  // ----- the clock -----

  /** What the clock of a timestamp is read from. */
  lemma TimeParts(value: string, hour: string, minute: string, second: string, tail: string)
    requires |value| >= 19 && value[10] == 'T' && value[11..13] == hour && value[13] == ':' && value[14..16] == minute && value[16] == ':'
    requires value[17..19] == second && value[19..] == tail
    ensures ParseTime(value) ==
              match (ParseInteger(hour, true), ParseInteger(minute, true), ParseInteger(second, true), ParseTail(tail))
              case (Some(h), Some(m), Some(s), Some(offset)) => if h > 23 || m > 59 || s > 60 then None else Some(h * 3600 + m * 60 + s - offset)
              case _ => None
  {
    hide ParseInteger, ParseOffset;
  }

  lemma ClockIff(c: ClockTime, t: int)
    requires |c.hour| == 2 && |c.minute| == 2 && |c.second| == 2 && (c.fraction.Some? ==> Digits1(c.fraction.value))
    requires c.zone.Shift? ==> |c.zone.hours| == 2 && |c.zone.minutes| == 2
    ensures (match (ParseInteger(c.hour, true), ParseInteger(c.minute, true), ParseInteger(c.second, true), ParseOffset(ZoneText(c.zone)))
             case (Some(h), Some(m), Some(s), Some(offset)) => h <= 23 && m <= 59 && s <= 60 && t == h * 3600 + m * 60 + s - offset
             case _ => false)
            <==> ClockIs(c, t)
  {
    hide IntegerIs, ParseInteger, ParseOffset, ZoneIs, ZoneText, AllDigits;
    forall n ensures (ParseInteger(c.hour, true) == Some(n) <==> IntegerIs(c.hour, true, n))
                     && (ParseInteger(c.minute, true) == Some(n) <==> IntegerIs(c.minute, true, n))
                     && (ParseInteger(c.second, true) == Some(n) <==> IntegerIs(c.second, true, n))
                     && (ParseOffset(ZoneText(c.zone)) == Some(n) <==> ZoneIs(c.zone, n)) {
      IntegerIff(c.hour, true, n);
      IntegerIff(c.minute, true, n);
      IntegerIff(c.second, true, n);
      ZoneIff(c.zone, n);
    }
  }

  // ----- whole stamps -----

  lemma DayParts(s: Stamp, d: Date)
    requires |s.year| == 4 && |s.month| == 2 && |s.day| == 2
    ensures ParseDate(StampText(s)) == Some(d) <==> DayIs(s, d)
  {
    var v := StampText(s);
    assert |v| >= 10 && v[..4] == s.year && v[4] == '-' && v[5..7] == s.month && v[7] == '-' && v[8..10] == s.day;
    IntegerIff(s.year, true, d.year);
    IntegerIff(s.month, false, d.month);
    IntegerIff(s.day, false, d.day);
    hide IntegerIs, ParseInteger, Valid, StampText;
  }

  lemma StampParts(s: Stamp)
    requires |s.year| == 4 && |s.month| == 2 && |s.day| == 2
    requires s.clock.Some? ==> |s.clock.value.hour| == 2 && |s.clock.value.minute| == 2 && |s.clock.value.second| == 2
    ensures s.clock.None? ==> |StampText(s)| == 10
    ensures s.clock.Some? ==>
              var v, c := StampText(s), s.clock.value;
              && |v| >= 19 && v[10] == 'T' && v[11..13] == c.hour && v[13] == ':' && v[14..16] == c.minute && v[16] == ':'
              && v[17..19] == c.second && v[19..] == TailText(c)
  {
    hide TailText;
  }

  /** A stamp is read as the second it names, if that is not before 1970. */
  lemma StampParses(s: Stamp, t: int)
    requires StampIs(s, t)
    ensures ParseIso(StampText(s)) == if t >= 0 then Some(t) else None
  {
    hide DayIs, ClockIs, DayNumber, ParseDate, ParseTime, StampText;
    var d: Date, u: int :| NamedAt(s, t, d, u);
    DayLengths(s, d);
    DayParts(s, d);
    if s.clock.Some? {
      ClockLengths(s.clock.value, u);
      StampParts(s);
      TimeIs(s, u);
    } else {
      StampParts(s);
    }
  }

  lemma DayLengths(s: Stamp, d: Date)
    requires DayIs(s, d)
    ensures |s.year| == 4 && |s.month| == 2 && |s.day| == 2
  {
  }

  lemma ClockLengths(c: ClockTime, t: int)
    requires ClockIs(c, t)
    ensures |c.hour| == 2 && |c.minute| == 2 && |c.second| == 2 && (c.fraction.Some? ==> Digits1(c.fraction.value))
    ensures c.zone.Shift? ==> |c.zone.hours| == 2 && |c.zone.minutes| == 2 && (c.zone.sign == '+' || c.zone.sign == '-')
  {
    hide IntegerIs;
  }

  lemma TimeIs(s: Stamp, u: int)
    requires |s.year| == 4 && |s.month| == 2 && |s.day| == 2 && s.clock.Some? && ClockIs(s.clock.value, u)
    ensures ParseTime(StampText(s)) == Some(u) && |StampText(s)| > 10
  {
    hide ParseInteger, ParseOffset, ParseTime, StampText, ZoneText, TailText, ParseTail, AllDigits, ClockIs;
    var c := s.clock.value;
    ClockLengths(c, u);
    StampParts(s);
    TimeParts(StampText(s), c.hour, c.minute, c.second, TailText(c));
    TailReads(c);
    ClockIff(c, u);
  }

  lemma DayForm(value: string) returns (s: Stamp)
    requires ParseDate(value).Some?
    ensures |value| >= 10 && DayText(s) == value[..10] && s.clock.None? && |s.year| == 4 && |s.month| == 2 && |s.day| == 2
  {
    hide ParseInteger, Valid;
    s := Stamp(value[..4], value[5..7], value[8..10], None);
    assert value[..10] == value[..4] + [value[4]] + value[5..7] + [value[7]] + value[8..10];
  }

  lemma ClockForm(value: string) returns (c: ClockTime)
    requires ParseTime(value).Some?
    ensures |value| >= 19 && value[10..] == ClockText(c) + TailText(c)
    ensures |c.hour| == 2 && |c.minute| == 2 && |c.second| == 2 && (c.fraction.Some? ==> Digits1(c.fraction.value))
    ensures c.zone.Shift? ==> |c.zone.hours| == 2 && |c.zone.minutes| == 2 && (c.zone.sign == '+' || c.zone.sign == '-')
  {
    hide ParseInteger, ParseOffset;
    TimeParts(value, value[11..13], value[14..16], value[17..19], value[19..]);
    var fraction, zone := TailForm(value[19..]);
    c := ClockTime(value[11..13], value[14..16], value[17..19], fraction, zone);
    assert value[10..19] == ClockText(c);
    assert value[10..] == value[10..19] + value[19..];
  }

  /** Whatever is read is a stamp, and names what was read. */
  lemma ParsedStamp(value: string) returns (s: Stamp)
    requires ParseIso(value).Some?
    ensures StampText(s) == value && StampIs(s, ParseIso(value).value)
  {
    hide ParseDate, ParseTime, DayNumber, DayIs, ClockIs, ClockText, TailText, DayText;
    var day := DayForm(value);
    var d := ParseDate(value).value;
    if |value| == 10 {
      s := day;
      assert StampText(s) == value;
      DayParts(s, d);
    } else {
      var c := ClockForm(value);
      s := day.(clock := Some(c));
      SameDay(s, day);
      assert StampText(s) == value[..10] + value[10..] == value;
      DayParts(s, d);
      ClockRead(s, ParseTime(value).value);
    }
    var u := if |value| == 10 then 0 else ParseTime(value).value;
    assert NamedAt(s, ParseIso(value).value, d, u);
  }

  lemma SameDay(s: Stamp, day: Stamp)
    requires s == day.(clock := s.clock)
    ensures DayText(s) == DayText(day)
  {
  }

  lemma ClockRead(s: Stamp, u: int)
    requires |s.year| == 4 && |s.month| == 2 && |s.day| == 2 && s.clock.Some?
    requires var c := s.clock.value;
             && |c.hour| == 2 && |c.minute| == 2 && |c.second| == 2 && (c.fraction.Some? ==> Digits1(c.fraction.value))
             && (c.zone.Shift? ==> |c.zone.hours| == 2 && |c.zone.minutes| == 2 && (c.zone.sign == '+' || c.zone.sign == '-'))
    requires ParseTime(StampText(s)) == Some(u)
    ensures ClockIs(s.clock.value, u)
  {
    hide ParseInteger, ParseOffset, ParseTime, StampText, ZoneText, TailText, ParseTail, AllDigits, ClockIs;
    var c := s.clock.value;
    StampParts(s);
    TimeParts(StampText(s), c.hour, c.minute, c.second, TailText(c));
    TailReads(c);
    ClockIff(c, u);
  }

  /** A text is read exactly when it is a stamp that names a second from 1970 on, and as that second. */
  lemma ParseIff(value: string, t: int)
    ensures ParseIso(value) == Some(t) <==> t >= 0 && exists s :: StampText(s) == value && StampIs(s, t)
  {
    hide ParseIso, StampIs, StampText;
    if ParseIso(value) == Some(t) {
      var s := ParsedStamp(value);
      NotNegative(value);
    }
    if t >= 0 {
      forall s | StampText(s) == value && StampIs(s, t) ensures ParseIso(value) == Some(t) { StampParses(s, t); }
    }
  }

  lemma NotNegative(value: string)
    requires ParseIso(value).Some?
    ensures ParseIso(value).value >= 0
  {
    hide ParseDate, ParseTime, DayNumber;
  }
}
