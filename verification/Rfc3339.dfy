/** Timestamps as text (crates/harness/src/time.rs, `format_rfc3339`). */
module Rfc3339 {
  import opened CivilDate
  import opened Decimal
  import opened Outcomes
  import opened Text
  import opened Words

  const NANOS_PER_SEC: nat := 1_000_000_000
  const SECS_PER_DAY: nat := 86_400

  // The first day of year 10000: from here on a year has five digits.
  const YEAR_10000_DAY: nat := 2_932_897
  const YEAR_10000_SEC: nat := YEAR_10000_DAY * SECS_PER_DAY

  /** Whole seconds since the epoch of the instant `nanos`; instants before it saturate to zero. */
  function EpochSeconds(nanos: int): nat {
    if nanos < 0 then 0 else nanos / NANOS_PER_SEC
  }

  function FieldsText(hour: nat, min: nat, sec: nat): string {
    Padded(hour, 2) + (":" + (Padded(min, 2) + (":" + (Padded(sec, 2) + "Z"))))
  }

  function DateText(d: Date): string {
    Padded(d.year, 4) + ("-" + (Padded(d.month, 2) + ("-" + (Padded(d.day, 2) + "T"))))
  }

  function Stamp(secs: nat): string
    requires secs < U64_RANGE
  {
    DateText(DaysToYmd(secs / SECS_PER_DAY)) + FieldsText(secs / 3_600 % 24, secs / 60 % 60, secs % 60)
  }

  function FormatRfc3339(nanos: int): string
    requires nanos < U64_RANGE * NANOS_PER_SEC
  {
    Stamp(EpochSeconds(nanos))
  }

  // ----- A reader for the twenty-character form of RFC 3339, section 5.6 -----

  function ReadDigits(s: string): Option<nat> {
    if AllDigits(s) then Some(DecimalValue(s)) else None
  }

  ghost function ReadDate(s: string): Option<nat>
    requires |s| == 11
  {
    var y, m, d := ReadDigits(s[..4]), ReadDigits(s[5..7]), ReadDigits(s[8..10]);
    if s[4] == '-' && s[7] == '-' && s[10] == 'T' && y.Some? && m.Some? && d.Some?
       && IsDate(Date(y.value, m.value, d.value)) then
      Some(DayNumber(Date(y.value, m.value, d.value)))
    else None
  }

  function ReadClock(s: string): Option<nat>
    requires |s| == 9
  {
    var h, m, sec := ReadDigits(s[..2]), ReadDigits(s[3..5]), ReadDigits(s[6..8]);
    if s[2] == ':' && s[5] == ':' && s[8] == 'Z' && h.Some? && m.Some? && sec.Some?
       && h.value < 24 && m.value < 60 && sec.value < 60 then
      Some(h.value * 3_600 + m.value * 60 + sec.value)
    else None
  }

  /** The second since the epoch a timestamp names; `None` unless it has the RFC's shape. */
  ghost function Read(s: string): Option<nat> {
    if |s| != 20 then None
    else
      var day, time := ReadDate(s[..11]), ReadClock(s[11..]);
      if day.Some? && time.Some? then Some(day.value * SECS_PER_DAY + time.value) else None
  }

  // ----- Day by day -----

  function ClockText(time: nat): string
    requires time < SECS_PER_DAY
  {
    FieldsText(time / 3_600, time / 60 % 60, time % 60)
  }

  function StampOf(days: nat, time: nat): string
    requires days + EPOCH_SHIFT < U64_RANGE && time < SECS_PER_DAY
  {
    DateText(DaysToYmd(days)) + ClockText(time)
  }

  lemma SecondOfDay(secs: nat)
    ensures secs % 60 == secs % SECS_PER_DAY % 60
  {
    var (q, r) := (secs / SECS_PER_DAY, secs % SECS_PER_DAY);
    assert secs == 60 * (1_440 * q) + r;
  }

  lemma WholeMinutes(hours: nat, r: nat)
    ensures (3_600 * hours + r) / 60 == 60 * hours + r / 60
  {
  }

  lemma MinuteWraps(hours: nat, m: nat)
    ensures (60 * hours + m) % 60 == m % 60
  {
  }

  lemma MinuteOfDay(secs: nat)
    ensures secs / 60 % 60 == secs % SECS_PER_DAY / 60 % 60
  {
    var (hours, r) := (24 * (secs / SECS_PER_DAY), secs % SECS_PER_DAY);
    assert secs == 3_600 * hours + r;
    WholeMinutes(hours, r);
    MinuteWraps(hours, r / 60);
  }

  lemma HourOfDay(secs: nat)
    ensures secs / 3_600 % 24 == secs % SECS_PER_DAY / 3_600
  {
    var (q, r) := (secs / SECS_PER_DAY, secs % SECS_PER_DAY);
    assert secs / 3_600 == 24 * q + r / 3_600;
  }

  /** The clock fields depend on the second of the day only. */
  lemma StampSplits(secs: nat)
    requires secs < U64_RANGE
    ensures Stamp(secs) == StampOf(secs / SECS_PER_DAY, secs % SECS_PER_DAY)
  {
    SecondOfDay(secs);
    MinuteOfDay(secs);
    HourOfDay(secs);
  }

  // ----- Reading undoes formatting -----

  lemma PaddedReads(n: nat, width: nat)
    requires width > 0 && n < Pow10(width)
    ensures |Padded(n, width)| == width && ReadDigits(Padded(n, width)) == Some(n)
  {
    PaddedSpells(n, width);
  }

  lemma TwoDigits(n: nat)
    requires n < 100
    ensures |Padded(n, 2)| == 2 && ReadDigits(Padded(n, 2)) == Some(n)
  {
    PaddedReads(n, 2);
  }

  lemma FieldsReadBack(hour: nat, min: nat, sec: nat)
    requires hour < 24 && min < 60 && sec < 60
    ensures |FieldsText(hour, min, sec)| == 9
    ensures ReadClock(FieldsText(hour, min, sec)) == Some(hour * 3_600 + min * 60 + sec)
  {
    TwoDigits(hour);
    TwoDigits(min);
    TwoDigits(sec);
    var s := FieldsText(hour, min, sec);
    assert s[..2] == Padded(hour, 2);
    assert s[3..5] == Padded(min, 2);
    assert s[6..8] == Padded(sec, 2);
  }

  lemma ClockReadsBack(time: nat)
    requires time < SECS_PER_DAY
    ensures |ClockText(time)| == 9 && ReadClock(ClockText(time)) == Some(time)
  {
    FieldsReadBack(time / 3_600, time / 60 % 60, time % 60);
    assert time / 60 / 60 == time / 3_600;
  }

  lemma DateReadsBack(d: Date)
    requires IsDate(d) && d.year < 10_000
    ensures |DateText(d)| == 11 && ReadDate(DateText(d)) == Some(DayNumber(d))
  {
    PaddedReads(d.year, 4);
    TwoDigits(d.month);
    TwoDigits(d.day);
    var s := DateText(d);
    assert s[..4] == Padded(d.year, 4);
    assert s[5..7] == Padded(d.month, 2);
    assert s[8..10] == Padded(d.day, 2);
  }

  lemma Year10000(d: Date, y: nat)
    requires IsDate(d) && y == 10_000
    ensures d.year < y <==> DayNumber(d) < YEAR_10000_DAY
  {
    YearStarts(y, YEAR_10000_DAY);
    DayNumberOrders(d, Date(y, 1, 1));
  }

  lemma BeforeYear10000(days: nat)
    requires days < YEAR_10000_DAY
    ensures DaysToYmd(days) == Civil(days) && IsDate(DaysToYmd(days))
    ensures DaysToYmd(days).year < 10_000 && DayNumber(DaysToYmd(days)) == days
  {
    CivilCountsBack(days);
    CastExactlyWhenYearFits(Civil(days));
    Year10000(Civil(days), 10_000);
  }

  lemma ReadJoins(date: string, clock: string, days: nat, time: nat, secs: nat)
    requires |date| == 11 && |clock| == 9 && ReadDate(date) == Some(days) && ReadClock(clock) == Some(time)
    requires days * SECS_PER_DAY + time == secs
    ensures |date + clock| == 20 && Read(date + clock) == Some(secs)
  {
    assert (date + clock)[..11] == date && (date + clock)[11..] == clock;
  }

  lemma DayReadsBack(days: nat)
    requires days < YEAR_10000_DAY
    ensures |DateText(DaysToYmd(days))| == 11 && ReadDate(DateText(DaysToYmd(days))) == Some(days)
  {
    BeforeYear10000(days);
    DateReadsBack(DaysToYmd(days));
  }

  lemma DaySplits(secs: nat)
    ensures secs / SECS_PER_DAY * SECS_PER_DAY + secs % SECS_PER_DAY == secs
    ensures secs < YEAR_10000_SEC ==> secs / SECS_PER_DAY < YEAR_10000_DAY
  {
  }

  lemma StampReadsBack(secs: nat)
    requires secs < YEAR_10000_SEC
    ensures |Stamp(secs)| == 20 && Read(Stamp(secs)) == Some(secs)
  {
    var (days, time) := (secs / SECS_PER_DAY, secs % SECS_PER_DAY);
    DaySplits(secs);
    DayReadsBack(days);
    ClockReadsBack(time);
    ReadJoins(DateText(DaysToYmd(days)), ClockText(time), days, time, secs);
    StampSplits(secs);
  }

  lemma OneMoreDigit(s: string, bound: nat)
    requires s != "" && AllDigits(s) && DecimalValue(s[..|s| - 1]) < bound
    ensures DecimalValue(s) < 10 * bound
  {
  }

  lemma FourDigitsBelow10000(s: string)
    requires |s| == 4 && AllDigits(s)
    ensures DecimalValue(s) < 10_000
  {
    var (a, b, c) := (s[..1], s[..2], s[..3]);
    assert a[..0] == "" && b[..1] == a && c[..2] == b;
    OneMoreDigit(a, 1);
    OneMoreDigit(b, 10);
    OneMoreDigit(c, 100);
    OneMoreDigit(s, 1_000);
  }

  lemma ReadStaysBeforeYear10000(s: string)
    requires Read(s).Some?
    ensures Read(s).value < YEAR_10000_SEC
  {
    var t := s[..11];
    FourDigitsBelow10000(t[..4]);
    var d := Date(ReadDigits(t[..4]).value, ReadDigits(t[5..7]).value, ReadDigits(t[8..10]).value);
    Year10000(d, 10_000);
  }

  /** A timestamp reads back to its own second exactly for instants before year 10000. */
  lemma RoundTripExactlyBeforeYear10000(secs: nat)
    requires secs < U64_RANGE
    ensures Read(Stamp(secs)) == Some(secs) <==> secs < YEAR_10000_SEC
  {
    if secs < YEAR_10000_SEC {
      StampReadsBack(secs);
    } else if Read(Stamp(secs)).Some? {
      ReadStaysBeforeYear10000(Stamp(secs));
    }
  }

  /** An instant's text names the second it falls in, or the epoch if it is earlier. */
  lemma FormatNamesTheSecond(nanos: int)
    requires nanos < YEAR_10000_SEC * NANOS_PER_SEC
    ensures Read(FormatRfc3339(nanos)).Some?
    ensures var secs := Read(FormatRfc3339(nanos)).value;
            if nanos < 0 then secs == 0
            else secs * NANOS_PER_SEC <= nanos < (secs + 1) * NANOS_PER_SEC
  {
    StampReadsBack(EpochSeconds(nanos));
  }

  // ----- Text order is time order -----

  lemma {:induction false} TextLessAppend(a: string, b: string, c: string, d: string)
    requires |a| == |b|
    ensures TextLess(a + c, b + d) <==> TextLess(a, b) || (a == b && TextLess(c, d))
    decreases |a|
  {
    if a == "" {
      assert a + c == c && b + d == d;
    } else {
      assert (a + c)[1..] == a[1..] + c && (b + d)[1..] == b[1..] + d;
      TextLessAppend(a[1..], b[1..], c, d);
      assert a == b <==> a[0] == b[0] && a[1..] == b[1..];
    }
  }

  lemma {:induction false} TextLessIrreflexive(a: string)
    ensures !TextLess(a, a)
    decreases |a|
  {
    if a != "" {
      TextLessIrreflexive(a[1..]);
    }
  }

  /** Same-width decimals order as the numbers they spell. */
  lemma {:induction false} PaddedOrders(x: nat, y: nat, width: nat)
    requires width > 0 && x < Pow10(width) && y < Pow10(width)
    ensures TextLess(Padded(x, width), Padded(y, width)) <==> x < y
    ensures Padded(x, width) == Padded(y, width) <==> x == y
    decreases width
  {
    if width > 1 {
      PaddedReads(x / 10, width - 1);
      PaddedReads(y / 10, width - 1);
      PaddedOrders(x / 10, y / 10, width - 1);
      LastDigitOrders(Padded(x / 10, width - 1), Padded(y / 10, width - 1), x % 10, y % 10);
    }
  }

  lemma LastDigitOrders(a: string, b: string, x: nat, y: nat)
    requires |a| == |b| && x < 10 && y < 10
    ensures TextLess(a + [DigitChar(x)], b + [DigitChar(y)]) <==> TextLess(a, b) || (a == b && x < y)
    ensures a + [DigitChar(x)] == b + [DigitChar(y)] <==> a == b && x == y
  {
    var (s, t) := (a + [DigitChar(x)], b + [DigitChar(y)]);
    TextLessAppend(a, b, [DigitChar(x)], [DigitChar(y)]);
    assert s[..|a|] == a && t[..|b|] == b && s[|a|] == DigitChar(x) && t[|b|] == DigitChar(y);
  }

  /** A field and its separator, in front of the rest of the timestamp. */
  lemma FieldOrders(x: nat, y: nat, width: nat, sep: string, s: string, t: string)
    requires width > 0 && x < Pow10(width) && y < Pow10(width)
    ensures TextLess(Padded(x, width) + (sep + s), Padded(y, width) + (sep + t))
        <==> x < y || (x == y && TextLess(s, t))
  {
    PaddedReads(x, width);
    PaddedReads(y, width);
    PaddedOrders(x, y, width);
    TextLessAppend(Padded(x, width), Padded(y, width), sep + s, sep + t);
    TextLessAppend(sep, sep, s, t);
    TextLessIrreflexive(sep);
  }

  lemma ClockFieldsOrder(a: nat, b: nat)
    ensures a < b <==> (a / 3_600 < b / 3_600 || (a / 3_600 == b / 3_600 && (a / 60 % 60 < b / 60 % 60
                        || (a / 60 % 60 == b / 60 % 60 && a % 60 < b % 60))))
  {
    MixedRadix(a, b, 60);
    MixedRadix(a / 60, b / 60, 60);
    assert a / 60 / 60 == a / 3_600 && b / 60 / 60 == b / 3_600;
  }

  lemma MixedRadix(a: nat, b: nat, base: nat)
    requires base == 60 || base == SECS_PER_DAY
    ensures a < b <==> a / base < b / base || (a / base == b / base && a % base < b % base)
  {
  }

  lemma ClockOrders(a: nat, b: nat)
    requires a < SECS_PER_DAY && b < SECS_PER_DAY
    ensures TextLess(ClockText(a), ClockText(b)) <==> a < b
  {
    var sa, sb := Padded(a % 60, 2) + "Z", Padded(b % 60, 2) + "Z";
    assert "Z" == "Z" + "";
    FieldOrders(a % 60, b % 60, 2, "Z", "", "");
    var ma, mb := Padded(a / 60 % 60, 2) + (":" + sa), Padded(b / 60 % 60, 2) + (":" + sb);
    FieldOrders(a / 60 % 60, b / 60 % 60, 2, ":", sa, sb);
    FieldOrders(a / 3_600, b / 3_600, 2, ":", ma, mb);
    ClockFieldsOrder(a, b);
  }

  lemma DateOrders(a: Date, b: Date)
    requires IsDate(a) && IsDate(b) && a.year < 10_000 && b.year < 10_000
    ensures TextLess(DateText(a), DateText(b)) <==> Earlier(a, b)
  {
    var da, db := Padded(a.day, 2) + "T", Padded(b.day, 2) + "T";
    assert "T" == "T" + "";
    FieldOrders(a.day, b.day, 2, "T", "", "");
    var ma, mb := Padded(a.month, 2) + ("-" + da), Padded(b.month, 2) + ("-" + db);
    FieldOrders(a.month, b.month, 2, "-", da, db);
    FieldOrders(a.year, b.year, 4, "-", ma, mb);
  }

  lemma DateTextOrders(d: Date, e: Date)
    requires IsDate(d) && IsDate(e) && d.year < 10_000 && e.year < 10_000
    ensures |DateText(d)| == |DateText(e)|
    ensures TextLess(DateText(d), DateText(e)) <==> DayNumber(d) < DayNumber(e)
    ensures DateText(d) == DateText(e) <==> DayNumber(d) == DayNumber(e)
  {
    DateTextEqual(d, e);
    DateOrders(d, e);
    DayNumberOrders(d, e);
  }

  lemma DateTextEqual(d: Date, e: Date)
    requires IsDate(d) && IsDate(e) && d.year < 10_000 && e.year < 10_000
    ensures |DateText(d)| == |DateText(e)|
    ensures DateText(d) == DateText(e) <==> DayNumber(d) == DayNumber(e)
  {
    DateReadsBack(d);
    DateReadsBack(e);
    if DayNumber(d) == DayNumber(e) {
      CivilInverts(d);
      CivilInverts(e);
    }
  }

  lemma DayAndClockOrder(d: Date, e: Date, s: nat, t: nat)
    requires IsDate(d) && IsDate(e) && d.year < 10_000 && e.year < 10_000
    requires s < SECS_PER_DAY && t < SECS_PER_DAY
    ensures TextLess(DateText(d) + ClockText(s), DateText(e) + ClockText(t))
        <==> DayNumber(d) < DayNumber(e) || (DayNumber(d) == DayNumber(e) && s < t)
  {
    DateTextOrders(d, e);
    ClockOrders(s, t);
    TextLessAppend(DateText(d), DateText(e), ClockText(s), ClockText(t));
  }

  /** Before year 10000, comparing timestamps as text compares their instants. */
  lemma StampOrders(a: nat, b: nat)
    requires a < YEAR_10000_SEC && b < YEAR_10000_SEC
    ensures TextLess(Stamp(a), Stamp(b)) <==> a < b
    ensures Stamp(a) == Stamp(b) <==> a == b
  {
    StampReadsBack(a);
    StampReadsBack(b);
    StampSplits(a);
    StampSplits(b);
    BeforeYear10000(a / SECS_PER_DAY);
    BeforeYear10000(b / SECS_PER_DAY);
    DayAndClockOrder(DaysToYmd(a / SECS_PER_DAY), DaysToYmd(b / SECS_PER_DAY), a % SECS_PER_DAY, b % SECS_PER_DAY);
    MixedRadix(a, b, SECS_PER_DAY);
  }
}
