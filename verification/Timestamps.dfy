/** Timezone-aware timestamps, as `datetime.isoformat()` writes them and `datetime.fromisoformat()` reads
    that format back. */
module Timestamps {
  import opened Decimals

  datatype Clock = Clock(hour: nat, minute: nat, second: nat, micro: nat)

  /** The offset from UTC is `clock`, to the west when `west`. */
  datatype Timestamp = Timestamp(year: nat, month: nat, day: nat, clock: Clock, west: bool, offset: Clock)

  function DaysIn(year: nat, month: nat): nat {
    if month == 2 then if year % 4 == 0 && (year % 100 != 0 || year % 400 == 0) then 29 else 28
    else if month in {4, 6, 9, 11} then 30
    else 31
  }

  predicate ValidClock(c: Clock) {
    c.hour < 24 && c.minute < 60 && c.second < 60 && c.micro < 1000000
  }

  /** A zero offset is written `+00:00`. */
  predicate Valid(t: Timestamp) {
    && 1 <= t.year <= 9999 && 1 <= t.month <= 12 && 1 <= t.day <= DaysIn(t.year, t.month)
    && ValidClock(t.clock) && ValidClock(t.offset) && (t.west ==> t.offset != Clock(0, 0, 0, 0))
  }

  // ----- the instant a timestamp denotes -----

  /** Days since the start of year 1 in the proleptic Gregorian calendar. */
  function DaysBefore(year: nat, month: nat): int {
    if month <= 1 then 365 * (year - 1) + (year - 1) / 4 - (year - 1) / 100 + (year - 1) / 400
    else DaysBefore(year, month - 1) + DaysIn(year, month - 1)
  }

  function Micros(c: Clock): int {
    ((c.hour * 60 + c.minute) * 60 + c.second) * 1000000 + c.micro
  }

  /** Microseconds in UTC, by which timestamps are compared. */
  function Instant(t: Timestamp): int {
    (DaysBefore(t.year, t.month) + t.day) * 86400000000 + Micros(t.clock) - (if t.west then -Micros(t.offset) else Micros(t.offset))
  }

  // ----- writing -----

  function Pow10(n: nat): nat {
    if n == 0 then 1 else 10 * Pow10(n - 1)
  }

  /** The last `width` decimal digits of `n`. */
  function Pad(n: nat, width: nat): (s: string)
    ensures |s| == width && forall i :: 0 <= i < width ==> '0' <= s[i] <= '9'
  {
    if width == 0 then "" else Pad(n / 10, width - 1) + [Digit(n % 10)]
  }

  function Fraction(micro: nat): string {
    if micro == 0 then "" else "." + Pad(micro, 6)
  }

  function OffsetText(c: Clock): string {
    Pad(c.hour, 2) + (":" + (Pad(c.minute, 2) + (if c.second == 0 && c.micro == 0 then "" else ":" + (Pad(c.second, 2) + Fraction(c.micro)))))
  }

  function ClockText(c: Clock, rest: string): string {
    Pad(c.hour, 2) + (":" + (Pad(c.minute, 2) + (":" + (Pad(c.second, 2) + (Fraction(c.micro) + rest)))))
  }

  function ZoneText(west: bool, offset: Clock): string {
    (if west then "-" else "+") + OffsetText(offset)
  }

  function IsoFormat(t: Timestamp): string {
    Pad(t.year, 4) + ("-" + (Pad(t.month, 2) + ("-" + (Pad(t.day, 2) + ("T" +
      ClockText(t.clock, ZoneText(t.west, t.offset)))))))
  }

  // ----- reading -----

  /** What is left of a text after reading a value from its front. */
  datatype Read<T> = NoMatch | Read(value: T, rest: string)

  predicate Digits(s: string) {
    forall i :: 0 <= i < |s| ==> '0' <= s[i] <= '9'
  }

  function ReadNumber(s: string, width: nat): Read<nat> {
    if |s| >= width && Digits(s[..width]) then Read(Value(s[..width]), s[width..]) else NoMatch
  }

  function ReadAfter(s: string, c: char, width: nat): Read<nat> {
    if s != "" && s[0] == c then ReadNumber(s[1..], width) else NoMatch
  }

  /** An optional fraction. */
  function ReadFraction(s: string): Read<nat> {
    if s != "" && s[0] == '.' then ReadNumber(s[1..], 6) else Read(0, s)
  }

  function ReadClock(s: string): Read<Clock> {
    var hour := ReadNumber(s, 2);
    if hour.NoMatch? then NoMatch else
    var minute := ReadAfter(hour.rest, ':', 2);
    if minute.NoMatch? then NoMatch else
    var second := ReadAfter(minute.rest, ':', 2);
    if second.NoMatch? then NoMatch else
    var micro := ReadFraction(second.rest);
    if micro.NoMatch? then NoMatch else Read(Clock(hour.value, minute.value, second.value, micro.value), micro.rest)
  }

  /** An offset may stop after its minutes. */
  function ReadOffset(s: string): Read<Clock> {
    var hour := ReadNumber(s, 2);
    if hour.NoMatch? then NoMatch else
    var minute := ReadAfter(hour.rest, ':', 2);
    if minute.NoMatch? then NoMatch else
    if minute.rest == "" then Read(Clock(hour.value, minute.value, 0, 0), "") else
    ReadClock(s)
  }

  datatype Parsed = Malformed | Naive | Aware(timestamp: Timestamp)

  function ReadDate(s: string): Read<(nat, nat, nat)> {
    var year := ReadNumber(s, 4);
    if year.NoMatch? then NoMatch else
    var month := ReadAfter(year.rest, '-', 2);
    if month.NoMatch? then NoMatch else
    var day := ReadAfter(month.rest, '-', 2);
    if day.NoMatch? then NoMatch else Read((year.value, month.value, day.value), day.rest)
  }

  /** What follows the time: nothing, or a signed offset. */
  function ReadZone(date: (nat, nat, nat), clock: Clock, zone: string): (p: Parsed)
    ensures p.Aware? ==> Valid(p.timestamp)
  {
    if zone == "" then Naive
    else
      var offset := ReadOffset(zone[1..]);
      if (zone[0] != '+' && zone[0] != '-') || offset.NoMatch? || offset.rest != "" then Malformed
      else
        var west := zone[0] == '-' && offset.value != Clock(0, 0, 0, 0);
        var t := Timestamp(date.0, date.1, date.2, clock, west, offset.value);
        if Valid(t) then Aware(t) else Malformed
  }

  function FromIsoFormat(s: string): (p: Parsed)
    ensures p.Aware? ==> Valid(p.timestamp)
  {
    var date := ReadDate(s);
    if date.NoMatch? || date.rest == "" || date.rest[0] != 'T' then Malformed else
    var clock := ReadClock(date.rest[1..]);
    if clock.NoMatch? then Malformed else ReadZone(date.value, clock.value, clock.rest)
  }

  // ----- reading inverts writing -----

  lemma {:induction false} ValueOfPad(n: nat, width: nat)
    requires n < Pow10(width)
    ensures Value(Pad(n, width)) == n
  {
    if width > 0 {
      ValueOfPad(n / 10, width - 1);
      assert Pad(n, width)[..width - 1] == Pad(n / 10, width - 1);
    }
  }

  lemma NumberReads(n: nat, width: nat, rest: string)
    requires n < Pow10(width)
    ensures ReadNumber(Pad(n, width) + rest, width) == Read(n, rest)
  {
    var s := Pad(n, width) + rest;
    assert s[..width] == Pad(n, width) && s[width..] == rest;
    ValueOfPad(n, width);
  }

  lemma AfterReads(c: char, n: nat, width: nat, rest: string)
    requires n < Pow10(width)
    ensures ReadAfter([c] + (Pad(n, width) + rest), c, width) == Read(n, rest)
  {
    NumberReads(n, width, rest);
    assert ([c] + (Pad(n, width) + rest))[1..] == Pad(n, width) + rest;
  }

  lemma FractionReads(micro: nat, rest: string)
    requires micro < 1000000 && (rest == "" || rest[0] != '.')
    ensures ReadFraction(Fraction(micro) + rest) == Read(micro, rest)
  {
    if micro == 0 {
      assert "" + rest == rest;
    } else {
      assert Pow10(6) == 1000000 by {
        assert Pow10(2) == 100;
        assert Pow10(4) == 10000;
      }
      AfterReads('.', micro, 6, rest);
      assert Fraction(micro) + rest == "." + (Pad(micro, 6) + rest);
    }
  }

  lemma ClockReads(c: Clock, rest: string)
    requires ValidClock(c) && (rest == "" || rest[0] != '.')
    ensures ReadClock(ClockText(c, rest)) == Read(c, rest)
  {
    assert Pow10(2) == 100;
    var afterSecond := Fraction(c.micro) + rest;
    var afterMinute := ":" + (Pad(c.second, 2) + afterSecond);
    var afterHour := ":" + (Pad(c.minute, 2) + afterMinute);
    NumberReads(c.hour, 2, afterHour);
    AfterReads(':', c.minute, 2, afterMinute);
    AfterReads(':', c.second, 2, afterSecond);
    FractionReads(c.micro, rest);
  }

  lemma OffsetReads(c: Clock)
    requires ValidClock(c)
    ensures ReadOffset(OffsetText(c)) == Read(c, "")
  {
    assert Pow10(2) == 100;
    if c.second == 0 && c.micro == 0 {
      NumberReads(c.hour, 2, ":" + (Pad(c.minute, 2) + ""));
      AfterReads(':', c.minute, 2, "");
    } else {
      var afterMinute := ":" + (Pad(c.second, 2) + Fraction(c.micro));
      NumberReads(c.hour, 2, ":" + (Pad(c.minute, 2) + afterMinute));
      AfterReads(':', c.minute, 2, afterMinute);
      assert Fraction(c.micro) + "" == Fraction(c.micro);
      assert OffsetText(c) == ClockText(c, "");
      ClockReads(c, "");
    }
  }

  lemma DateReads(year: nat, month: nat, day: nat, rest: string)
    requires year < 10000 && month < 100 && day < 100
    ensures ReadDate(Pad(year, 4) + ("-" + (Pad(month, 2) + ("-" + (Pad(day, 2) + rest))))) == Read((year, month, day), rest)
  {
    assert Pow10(2) == 100;
    assert Pow10(4) == 10000;
    var afterMonth := "-" + (Pad(day, 2) + rest);
    NumberReads(year, 4, "-" + (Pad(month, 2) + afterMonth));
    AfterReads('-', month, 2, afterMonth);
    AfterReads('-', day, 2, rest);
  }

  lemma ZoneReads(t: Timestamp)
    requires Valid(t)
    ensures ReadZone((t.year, t.month, t.day), t.clock, ZoneText(t.west, t.offset)) == Aware(t)
  {
    OffsetReads(t.offset);
    assert ZoneText(t.west, t.offset)[1..] == OffsetText(t.offset);
  }

  /** Every valid aware timestamp, with or without microseconds and for any offset, reads back as itself. */
  lemma IsoRoundTrip(t: Timestamp)
    requires Valid(t)
    ensures FromIsoFormat(IsoFormat(t)) == Aware(t)
  {
    var zone := ZoneText(t.west, t.offset);
    var afterDay := "T" + ClockText(t.clock, zone);
    DateReads(t.year, t.month, t.day, afterDay);
    assert afterDay[1..] == ClockText(t.clock, zone);
    ClockReads(t.clock, zone);
    ZoneReads(t);
  }

  /** No character of the text needs escaping in a JSON string. */
  predicate Plain(s: string) {
    forall i :: 0 <= i < |s| ==> ' ' <= s[i] <= '~' && s[i] != '"' && s[i] != '\\'
  }

  lemma ClockTextIsPlain(c: Clock, rest: string)
    requires Plain(rest)
    ensures Plain(ClockText(c, rest)) && |ClockText(c, rest)| <= 15 + |rest|
  {
  }

  lemma OffsetTextIsPlain(c: Clock)
    ensures Plain(OffsetText(c)) && |OffsetText(c)| <= 15
  {
  }

  lemma DateTextIsPlain(year: nat, month: nat, day: nat, rest: string)
    requires Plain(rest)
    ensures var text := Pad(year, 4) + ("-" + (Pad(month, 2) + ("-" + (Pad(day, 2) + rest))));
            Plain(text) && |text| == 10 + |rest|
  {
  }

  lemma IsoIsPlain(t: Timestamp)
    ensures Plain(IsoFormat(t)) && |IsoFormat(t)| <= 42
  {
    OffsetTextIsPlain(t.offset);
    var zone := ZoneText(t.west, t.offset);
    ClockTextIsPlain(t.clock, zone);
    DateTextIsPlain(t.year, t.month, t.day, "T" + ClockText(t.clock, zone));
  }

  // ----- what the text and the instant mean -----

  /** Where each field stands in the text. */
  lemma IsoLayout(t: Timestamp)
    ensures var s := IsoFormat(t);
            && |s| >= 25
            && s[..4] == Pad(t.year, 4) && s[4] == '-' && s[5..7] == Pad(t.month, 2) && s[7] == '-' && s[8..10] == Pad(t.day, 2)
            && s[10] == 'T' && s[11..13] == Pad(t.clock.hour, 2) && s[13] == ':' && s[14..16] == Pad(t.clock.minute, 2)
            && s[16] == ':' && s[17..19] == Pad(t.clock.second, 2)
            && s[19..] == (if t.clock.micro == 0 then "" else "." + Pad(t.clock.micro, 6)) + ZoneText(t.west, t.offset)
  {
    var zone := ZoneText(t.west, t.offset);
    var afterDay := "T" + ClockText(t.clock, zone);
    DateLayout(t.year, t.month, t.day, afterDay);
    ClockLayout(t.clock, zone);
    assert IsoFormat(t)[10..] == afterDay;
    assert afterDay[1..] == ClockText(t.clock, zone);
  }

  lemma DateLayout(year: nat, month: nat, day: nat, rest: string)
    ensures var s := Pad(year, 4) + ("-" + (Pad(month, 2) + ("-" + (Pad(day, 2) + rest))));
            && |s| == 10 + |rest| && s[..4] == Pad(year, 4) && s[4] == '-' && s[5..7] == Pad(month, 2) && s[7] == '-'
            && s[8..10] == Pad(day, 2) && s[10..] == rest
  {
  }

  lemma ClockLayout(c: Clock, rest: string)
    ensures var s := ClockText(c, rest);
            && |s| >= 8 && s[..2] == Pad(c.hour, 2) && s[2] == ':' && s[3..5] == Pad(c.minute, 2) && s[5] == ':'
            && s[6..8] == Pad(c.second, 2) && s[8..] == Fraction(c.micro) + rest
  {
  }

  lemma LeapYearsCounted(year: nat)
    requires year >= 1
    ensures year / 4 == (year - 1) / 4 + if year % 4 == 0 then 1 else 0
    ensures year / 100 == (year - 1) / 100 + if year % 100 == 0 then 1 else 0
    ensures year / 400 == (year - 1) / 400 + if year % 400 == 0 then 1 else 0
  {
  }

  lemma Multiples(n: nat)
    ensures 4 * n % 4 == 0 && 100 * n % 100 == 0
  {
  }

  lemma CenturiesAreFourths(year: nat)
    ensures year % 100 == 0 ==> year % 4 == 0
    ensures year % 400 == 0 ==> year % 100 == 0
  {
    if year % 100 == 0 {
      Multiples(25 * (year / 100));
    }
    if year % 400 == 0 {
      Multiples(4 * (year / 400));
    }
  }

  lemma LeapDay(year: nat)
    ensures DaysIn(year, 2) == 28 + (if year % 4 == 0 then 1 else 0) - (if year % 100 == 0 then 1 else 0)
                               + if year % 400 == 0 then 1 else 0
  {
    CenturiesAreFourths(year);
  }

  lemma YearGrows(year: nat)
    requires year >= 1
    ensures DaysBefore(year + 1, 1) == DaysBefore(year, 1) + 337 + DaysIn(year, 2)
  {
    LeapYearsCounted(year);
    LeapDay(year);
  }

  lemma YearEnds(year: nat)
    requires year >= 1
    ensures DaysBefore(year, 12) + 31 == DaysBefore(year + 1, 1)
  {
    YearGrows(year);
    assert DaysBefore(year, 2) == DaysBefore(year, 1) + 31;
    assert DaysBefore(year, 4) == DaysBefore(year, 2) + DaysIn(year, 2) + 31;
    assert DaysBefore(year, 6) == DaysBefore(year, 4) + 61;
    assert DaysBefore(year, 8) == DaysBefore(year, 6) + 61;
    assert DaysBefore(year, 10) == DaysBefore(year, 8) + 61;
    assert DaysBefore(year, 12) == DaysBefore(year, 10) + 61;
  }

  predicate InYear(month: nat) {
    1 <= month <= 12
  }

  /** No month starts before an earlier one has ended. */
  lemma {:induction false} MonthsAdvance(y: nat, m: nat, y': nat, m': nat)
    requires y >= 1 && InYear(m) && InYear(m') && (y < y' || (y == y' && m < m'))
    ensures DaysBefore(y, m) + DaysIn(y, m) <= DaysBefore(y', m')
    decreases y' - y, m'
  {
    if m' > 1 && (y < y' || m < m' - 1) {
      MonthsAdvance(y, m, y', m' - 1);
    } else if m' == 1 {
      YearEnds(y' - 1);
      if y < y' - 1 || m < 12 {
        MonthsAdvance(y, m, y' - 1, 12);
      }
    }
  }

  /** The calendar order of two valid times: year, month, day, then the time of day. */
  predicate Earlier(a: Timestamp, b: Timestamp) {
    || a.year < b.year
    || (a.year == b.year && a.month < b.month)
    || (a.year == b.year && a.month == b.month && a.day < b.day)
    || (a.year == b.year && a.month == b.month && a.day == b.day && Micros(a.clock) < Micros(b.clock))
  }

  lemma EarlierIsBefore(a: Timestamp, b: Timestamp)
    requires Valid(a) && Valid(b) && a.west == b.west && a.offset == b.offset && Earlier(a, b)
    ensures Instant(a) < Instant(b)
  {
    var days := DaysBefore(b.year, b.month) + b.day - DaysBefore(a.year, a.month) - a.day;
    if a.year < b.year || (a.year == b.year && a.month < b.month) {
      MonthsAdvance(a.year, a.month, b.year, b.month);
      assert days >= 1;
    }
    assert days == 0 || days >= 1;
  }

  /** Within one zone instants follow the calendar; and the same reading of the clock is an earlier instant
      the further east the zone is. */
  lemma InstantIsChronological(a: Timestamp, b: Timestamp)
    requires Valid(a) && Valid(b)
    ensures a.west == b.west && a.offset == b.offset ==>
              (Instant(a) < Instant(b) <==> Earlier(a, b))
    ensures a == b.(west := a.west, offset := a.offset) ==>
              Instant(b) - Instant(a) ==
                (if a.west then -Micros(a.offset) else Micros(a.offset)) - (if b.west then -Micros(b.offset) else Micros(b.offset))
  {
    if a.west == b.west && a.offset == b.offset {
      if Earlier(a, b) {
        EarlierIsBefore(a, b);
      } else if Earlier(b, a) {
        EarlierIsBefore(b, a);
      } else {
        assert Instant(a) == Instant(b);
      }
    }
  }
}
