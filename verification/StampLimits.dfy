/** How far the promises of `format_rfc3339` (crates/harness/src/time.rs) hold: text order, the
    twenty-character form and distinct texts each up to an exact bound. */
module StampLimits {
  import opened CivilDate
  import opened Decimal
  import opened Rfc3339
  import opened Sequences
  import opened Text
  import opened Words

  // ----- Text order -----

  lemma FirstDigits()
    ensures Padded(9_999, 4)[0] == '9' && Padded(10_000, 4)[0] == '1'
  {
    assert Padded(9, 1) == "9" && Padded(99, 2)[0] == '9' && Padded(999, 3)[0] == '9';
    assert Padded(1, 0) == "1" && Padded(10, 1)[0] == '1' && Padded(100, 2)[0] == '1' && Padded(1_000, 3)[0] == '1';
  }

  lemma LastDayOfYear(y: nat, m: nat)
    requires 1970 <= y < U32_RANGE && m == 12
    ensures IsDate(Date(y, m, 31)) && DayNumber(Date(y, m, 31)) == DaysBeforeYear(y) + YearLength(y) - 1
  {
    DaysBeforeMonthClosed(y, m);
  }

  lemma LastDayBeforeYear10000(y: nat)
    requires y == 9_999
    ensures DaysToYmd(YEAR_10000_DAY - 1) == Date(y, 12, 31)
  {
    YearStarts(y, YEAR_10000_DAY - 365);
    LastDayOfYear(y, 12);
    EveryDateIsHit(Date(y, 12, 31));
  }

  lemma FirstDayOfYear10000(y: nat)
    requires y == 10_000
    ensures DaysToYmd(YEAR_10000_DAY) == Date(y, 1, 1)
  {
    YearStarts(y, YEAR_10000_DAY);
    EveryDateIsHit(Date(y, 1, 1));
  }

  /** The first second of year 10000 has a fifth digit in its year and sorts before the second in front of it. */
  lemma Year10000BreaksTextOrder(last: nat, next: nat, y: nat)
    requires next == YEAR_10000_SEC && last + 1 == next && y == 9_999
    ensures last < next && TextLess(Stamp(next), Stamp(last))
  {
    StampSplits(last);
    StampSplits(next);
    LastDayBeforeYear10000(y);
    FirstDayOfYear10000(y + 1);
    FirstDigits();
    PaddedSpells(y, 4);
    PaddedSpells(y + 1, 4);
    assert DateText(Date(y + 1, 1, 1))[0] == '1' && DateText(Date(y, 12, 31))[0] == '9';
    FirstCharacterDecides(DateText(Date(y + 1, 1, 1)), DateText(Date(y, 12, 31)),
                          ClockText(next % SECS_PER_DAY), ClockText(last % SECS_PER_DAY));
    assert next / SECS_PER_DAY == YEAR_10000_DAY && last / SECS_PER_DAY == YEAR_10000_DAY - 1;
  }

  lemma FirstCharacterDecides(a: string, b: string, c: string, d: string)
    requires a != "" && b != "" && a[0] < b[0]
    ensures TextLess(a + c, b + d)
  {
  }

  /** Below second `n`, comparing timestamps as text compares their instants. */
  ghost predicate TextSortsByTime(n: nat)
    requires n <= U64_RANGE
  {
    forall a: nat, b: nat | a < n && b < n :: TextLess(Stamp(a), Stamp(b)) <==> a < b
  }

  /** Text order is time order exactly up to the end of year 9999. */
  lemma TextOrderExactly(n: nat)
    requires n <= U64_RANGE
    ensures TextSortsByTime(n) <==> n <= YEAR_10000_SEC
  {
    if n <= YEAR_10000_SEC {
      forall a: nat, b: nat | a < n && b < n ensures TextLess(Stamp(a), Stamp(b)) <==> a < b {
        StampOrders(a, b);
      }
    } else {
      var last: nat, next: nat := YEAR_10000_SEC - 1, YEAR_10000_SEC;
      Year10000BreaksTextOrder(last, next, 9_999);
      assert next < n && TextLess(Stamp(next), Stamp(last)) && !(next < last);
    }
  }

  // ----- The twenty-character form -----

  lemma FieldsLength(hour: nat, min: nat, sec: nat)
    requires hour < 24 && min < 60 && sec < 60
    ensures |FieldsText(hour, min, sec)| == 9
  {
    FieldsReadBack(hour, min, sec);
  }

  lemma DateLength(d: Date)
    requires d.month < 100 && d.day < 100
    ensures |DateText(d)| == |Padded(d.year, 4)| + 7
  {
    TwoDigits(d.month);
    TwoDigits(d.day);
  }

  lemma MonthAndDayAreShort(days: nat)
    requires days + EPOCH_SHIFT < U64_RANGE
    ensures DaysToYmd(days).month < 100 && DaysToYmd(days).day < 100
  {
    CivilCountsBack(days);
  }

  /** A timestamp has the twenty characters of the documented form exactly when its year, after the
      cast to 32 bits, is below 10000. */
  lemma TwentyCharactersExactly(secs: nat)
    requires secs < U64_RANGE
    ensures |Stamp(secs)| == 20 <==> DaysToYmd(secs / SECS_PER_DAY).year < 10_000
  {
    var d := DaysToYmd(secs / SECS_PER_DAY);
    MonthAndDayAreShort(secs / SECS_PER_DAY);
    DateLength(d);
    FieldsLength(secs / 3_600 % 24, secs / 60 % 60, secs % 60);
    PaddedSpells(d.year, 4);
    assert Pow10(4) == 10_000;
  }

  // ----- Distinct texts -----

  // The first day of year 4294969266, whose year is cast to 1970.
  const FIRST_REPEATED_DAY: nat := 1_568_704_592_610
  const FIRST_REPEATED_SEC: nat := FIRST_REPEATED_DAY * SECS_PER_DAY

  /** A field and its separator in front of a text determine the field and the text. */
  lemma FieldSplits(x: nat, y: nat, width: nat, sep: char, s: string, t: string)
    requires !IsDigit(sep) && Padded(x, width) + ([sep] + s) == Padded(y, width) + ([sep] + t)
    ensures x == y && s == t
  {
    PaddedSpells(x, width);
    PaddedSpells(y, width);
    FirstMark(Padded(x, width), sep, s, Padded(y, width), t);
  }

  lemma FieldsDetermine(h: nat, m: nat, s: nat, i: nat, n: nat, t: nat)
    requires FieldsText(h, m, s) == FieldsText(i, n, t)
    ensures h == i && m == n && s == t
  {
    var (x, y) := (Padded(s, 2) + "Z", Padded(t, 2) + "Z");
    FieldSplits(h, i, 2, ':', Padded(m, 2) + (":" + x), Padded(n, 2) + (":" + y));
    FieldSplits(m, n, 2, ':', x, y);
    assert "Z" == ['Z'] + "";
    FieldSplits(s, t, 2, 'Z', "", "");
  }

  lemma DateThenClock(d: Date, clock: string)
    ensures DateText(d) + clock
         == Padded(d.year, 4) + ("-" + (Padded(d.month, 2) + ("-" + (Padded(d.day, 2) + ("T" + clock)))))
  {
  }

  lemma DateTextDetermines(d: Date, e: Date, clock: string, other: string)
    requires DateText(d) + clock == DateText(e) + other
    ensures d == e && clock == other
  {
    var (x, y) := (Padded(d.day, 2) + ("T" + clock), Padded(e.day, 2) + ("T" + other));
    DateThenClock(d, clock);
    DateThenClock(e, other);
    FieldSplits(d.year, e.year, 4, '-', Padded(d.month, 2) + ("-" + x), Padded(e.month, 2) + ("-" + y));
    FieldSplits(d.month, e.month, 2, '-', x, y);
    FieldSplits(d.day, e.day, 2, 'T', clock, other);
  }

  lemma ClockTextDetermines(s: nat, t: nat)
    requires s < SECS_PER_DAY && t < SECS_PER_DAY
    ensures ClockText(s) == ClockText(t) ==> s == t
  {
    if ClockText(s) == ClockText(t) {
      FieldsDetermine(s / 3_600, s / 60 % 60, s % 60, t / 3_600, t / 60 % 60, t % 60);
      ClockFieldsOrder(s, t);
      ClockFieldsOrder(t, s);
    }
  }

  lemma RepeatedYear(d: Date, y: nat)
    requires IsDate(d) && y == U32_RANGE + 1_970
    ensures d.year < y <==> DayNumber(d) < FIRST_REPEATED_DAY
  {
    YearStarts(y, FIRST_REPEATED_DAY);
    DayNumberOrders(d, Date(y, 1, 1));
  }

  lemma CastIsInjective(d: Date, e: Date)
    requires d.year >= 1_970 && d.year < U32_RANGE + 1_970 && e.year >= 1_970 && e.year < U32_RANGE + 1_970
    requires CastYear(d) == CastYear(e)
    ensures d == e
  {
  }

  lemma SameDay(days: nat, other: nat)
    requires days < FIRST_REPEATED_DAY && other < FIRST_REPEATED_DAY
    ensures DaysToYmd(days) == DaysToYmd(other) ==> days == other
  {
    CivilCountsBack(days);
    CivilCountsBack(other);
    RepeatedYear(Civil(days), U32_RANGE + 1_970);
    RepeatedYear(Civil(other), U32_RANGE + 1_970);
    if DaysToYmd(days) == DaysToYmd(other) {
      CastIsInjective(Civil(days), Civil(other));
    }
  }

  lemma SameSecond(a: nat, b: nat)
    requires a < FIRST_REPEATED_SEC && b < FIRST_REPEATED_SEC
    ensures Stamp(a) == Stamp(b) ==> a == b
  {
    if Stamp(a) == Stamp(b) {
      var (days, other) := (a / SECS_PER_DAY, b / SECS_PER_DAY);
      StampSplits(a);
      StampSplits(b);
      DateTextDetermines(DaysToYmd(days), DaysToYmd(other), ClockText(a % SECS_PER_DAY), ClockText(b % SECS_PER_DAY));
      ClockTextDetermines(a % SECS_PER_DAY, b % SECS_PER_DAY);
      SameDay(days, other);
      DaySplits(a);
      DaySplits(b);
    }
  }

  lemma FirstRepeatedDay(d: Date)
    requires d == Date(U32_RANGE + 1_970, 1, 1)
    ensures IsDate(d) && DayNumber(d) == FIRST_REPEATED_DAY && CastYear(d) == Date(1_970, 1, 1)
  {
    DaysBeforeYearClosed(d.year);
    MarchDaysClosed(d.year - 1);
  }

  lemma RepeatedDay()
    ensures FIRST_REPEATED_DAY + EPOCH_SHIFT < U64_RANGE && DaysToYmd(FIRST_REPEATED_DAY) == Date(1_970, 1, 1)
  {
    var d := Date(U32_RANGE + 1_970, 1, 1);
    FirstRepeatedDay(d);
    CivilInverts(d);
  }

  lemma EpochDay()
    ensures DaysToYmd(0) == Date(1_970, 1, 1)
  {
    EveryDateIsHit(Date(1_970, 1, 1));
  }

  /** A second far beyond year 10000 is printed, in twenty characters, as the epoch. */
  lemma WrappedInstant(secs: nat)
    requires secs == FIRST_REPEATED_SEC
    ensures secs < U64_RANGE && Stamp(secs) == Stamp(0) && |Stamp(secs)| == 20
  {
    assert secs / SECS_PER_DAY == FIRST_REPEATED_DAY && secs % SECS_PER_DAY == 0;
    RepeatedDay();
    EpochDay();
    StampSplits(secs);
    StampSplits(0);
    TwentyCharactersExactly(secs);
  }

  /** No two seconds below `n` have the same text. */
  ghost predicate TextsDiffer(n: nat)
    requires n <= U64_RANGE
  {
    forall a: nat, b: nat | a < b < n :: Stamp(a) != Stamp(b)
  }

  /** Timestamps are pairwise different exactly up to the end of year 4294969265. */
  lemma TextsDifferExactly(n: nat)
    requires n <= U64_RANGE
    ensures TextsDiffer(n) <==> n <= FIRST_REPEATED_SEC
  {
    if n <= FIRST_REPEATED_SEC {
      forall a: nat, b: nat | a < b < n ensures Stamp(a) != Stamp(b) {
        SameSecond(a, b);
      }
    } else {
      var first: nat, again: nat := 0, FIRST_REPEATED_SEC;
      WrappedInstant(again);
      assert first < again < n && Stamp(first) == Stamp(again);
    }
  }
}
