/** Days since 1970-01-01 as a Gregorian date (crates/harness/src/time.rs, `days_to_ymd`). */
module CivilDate {
  import opened Words

  datatype Date = Date(year: nat, month: nat, day: nat)

  // Days from 0000-03-01 to 1970-01-01.
  const EPOCH_SHIFT: nat := 719_468

  // ----- The reference: counting days by the Gregorian rules -----

  predicate IsLeap(y: nat) {
    y % 4 == 0 && (y % 100 != 0 || y % 400 == 0)
  }

  function YearLength(y: nat): nat {
    if IsLeap(y) then 366 else 365
  }

  function MonthLength(y: nat, m: nat): nat
    requires 1 <= m <= 12
  {
    if m == 2 then (if IsLeap(y) then 29 else 28)
    else if m == 4 || m == 6 || m == 9 || m == 11 then 30
    else 31
  }

  ghost predicate IsDate(d: Date) {
    d.year >= 1970 && 1 <= d.month <= 12 && 1 <= d.day <= MonthLength(d.year, d.month)
  }

  ghost function DaysBeforeYear(y: nat): nat
    requires y >= 1970
  {
    if y == 1970 then 0 else DaysBeforeYear(y - 1) + YearLength(y - 1)
  }

  ghost function DaysBeforeMonth(y: nat, m: nat): nat
    requires 1 <= m <= 12
  {
    if m == 1 then 0 else DaysBeforeMonth(y, m - 1) + MonthLength(y, m - 1)
  }

  /** How many days lie between 1970-01-01 and `d`, counted year by year and month by month. */
  ghost function DayNumber(d: Date): nat
    requires IsDate(d)
  {
    DaysBeforeYear(d.year) + DaysBeforeMonth(d.year, d.month) + (d.day - 1)
  }

  ghost predicate Earlier(a: Date, b: Date) {
    a.year < b.year || (a.year == b.year && (a.month < b.month || (a.month == b.month && a.day < b.day)))
  }

  // ----- The closed form, in years that begin on the first of March -----

  function DayOfEra(z: nat): (doe: nat)
    ensures doe <= 146_096 && z == z / 146_097 * 146_097 + doe
  {
    z - z / 146_097 * 146_097
  }

  function YearOfEra(doe: nat): nat
    requires doe <= 146_096
  {
    (doe - doe / 1_460 + doe / 36_524 - doe / 146_096) / 365
  }

  /** Days from the start of an era to the first of March of its `n`-th year. */
  function EraDays(n: nat): nat {
    365 * n + n / 4 - n / 100
  }

  // Within a century the 1460-day correction counts exactly the leap days passed so far.
  lemma YearWithinCentury(c: nat, r: nat, s: nat, m: nat)
    requires c <= 3 && r <= 36_523
    requires s == (24 * c + r) / 1_460 && m == (r - s) / 365
    ensures m <= 99 && 365 * m + m / 4 <= r
    ensures r < 365 * (m + 1) + (m + 1) / 4
  {
    assert s <= 25;
    assert s >= m / 4;
  }

  lemma YearOfEraInCentury(doe: nat, c: nat, r: nat)
    requires c <= 3 && r <= 36_523 && doe == 36_524 * c + r
    ensures YearOfEra(doe) == 100 * c + (r - (24 * c + r) / 1_460) / 365
  {
    assert doe / 36_524 == c && doe / 146_096 == 0;
    assert doe / 1_460 == 25 * c + (24 * c + r) / 1_460;
    var s := (24 * c + r) / 1_460;
    assert doe - doe / 1_460 + c == 365 * (100 * c) + (r - s);
  }

  lemma EraDaysInCentury(c: nat, m: nat)
    requires c <= 3 && m <= 99
    ensures EraDays(100 * c + m) == 36_524 * c + 365 * m + m / 4
    ensures EraDays(100 * c + m + 1) >= 36_524 * c + 365 * (m + 1) + (m + 1) / 4 - if m == 99 then 1 else 0
  {
    assert (100 * c + m) / 4 == 25 * c + m / 4;
    assert (100 * c + m) / 100 == c;
    assert (100 * c + m + 1) / 4 == 25 * c + (m + 1) / 4;
    assert (100 * c + m + 1) / 100 == c + if m == 99 then 1 else 0;
  }

  lemma YearOfEraBrackets(doe: nat)
    requires doe <= 146_096
    ensures YearOfEra(doe) <= 399 && EraDays(YearOfEra(doe)) <= doe
    ensures doe < EraDays(YearOfEra(doe) + 1) || (YearOfEra(doe) == 399 && doe == 146_096)
  {
    var c := doe / 36_524;
    if c <= 3 {
      var r := doe - 36_524 * c;
      var s := (24 * c + r) / 1_460;
      var m := (r - s) / 365;
      YearOfEraInCentury(doe, c, r);
      YearWithinCentury(c, r, s, m);
      EraDaysInCentury(c, m);
    }
  }

  function DayOfYear(doe: nat): (doy: nat)
    requires doe <= 146_096
    ensures doy <= 365
  {
    YearOfEraBrackets(doe);
    doe - EraDays(YearOfEra(doe))
  }

  /** Days from the first of March to the first day of the `mp`-th month after it. */
  function MonthDays(mp: nat): nat {
    (153 * mp + 2) / 5
  }

  function MonthPeriod(doy: nat): (mp: nat)
    requires doy <= 365
    ensures mp <= 11
    ensures MonthDays(mp) <= doy < MonthDays(mp + 1)
  {
    (5 * doy + 2) / 153
  }

  /** The year, counted from March, that day `z` of the shifted count falls in. */
  function MarchYear(z: nat): nat {
    YearOfEra(DayOfEra(z)) + z / 146_097 * 400
  }

  /** March year and day within it, for day `z` of the shifted count. */
  function MarchDate(z: nat): (r: (nat, nat))
    ensures r.1 <= 365 && z == MarchDays(r.0) + r.1 && z < MarchDays(r.0 + 1)
  {
    MarchYearOf(z);
    (MarchYear(z), DayOfYear(DayOfEra(z)))
  }

  /** The civil date of day `doy` of March year `y`: January and February belong to the next year. */
  function FromMarchYear(y: nat, doy: nat): Date
    requires doy <= 365
  {
    var mp := MonthPeriod(doy);
    var d := doy - MonthDays(mp) + 1;
    var m := if mp < 10 then mp + 3 else mp - 9;
    Date(if m <= 2 then y + 1 else y, m, d)
  }

  /** The date the arithmetic computes, before its year is cast to 32 bits. */
  function Civil(days: nat): Date {
    var (y, doy) := MarchDate(days + EPOCH_SHIFT);
    FromMarchYear(y, doy)
  }

  /** The casts of the result to 32 bits; month and day always fit. */
  function CastYear(d: Date): Date {
    d.(year := d.year % U32_RANGE)
  }

  function DaysToYmd(days: nat): Date
    requires days + EPOCH_SHIFT < U64_RANGE
  {
    CastYear(Civil(days))
  }

  // ----- March years against civil years -----

  /** Days from 0000-03-01 to the first of March of year `y`: each March year holds the February of the next. */
  ghost function MarchDays(y: nat): nat {
    if y == 0 then 0 else MarchDays(y - 1) + YearLength(y)
  }

  lemma {:induction false} MarchDaysClosed(y: nat)
    ensures MarchDays(y) == 365 * y + y / 4 - y / 100 + y / 400
  {
    if y > 0 {
      MarchDaysClosed(y - 1);
      assert y / 4 == (y - 1) / 4 + if y % 4 == 0 then 1 else 0;
      assert y / 100 == (y - 1) / 100 + if y % 100 == 0 then 1 else 0;
      assert y / 400 == (y - 1) / 400 + if y % 400 == 0 then 1 else 0;
      Multiples(y);
    }
  }

  lemma Multiples(y: nat)
    ensures y % 400 == 0 ==> y % 100 == 0
    ensures y % 100 == 0 ==> y % 4 == 0
  {
    if y % 400 == 0 {
      var q := y / 400;
      assert y == 100 * (4 * q);
    }
    if y % 100 == 0 {
      var q := y / 100;
      assert y == 4 * (25 * q);
    }
  }

  lemma {:induction false} MarchDaysIncrease(y: nat, y': nat)
    ensures y <= y' ==> MarchDays(y) <= MarchDays(y')
    decreases y' - y
  {
    if y < y' {
      MarchDaysIncrease(y + 1, y');
    }
  }

  lemma EraDaysAreMarchDays(era: nat, yoe: nat)
    requires yoe <= 399
    ensures MarchDays(yoe + era * 400) == EraDays(yoe) + 146_097 * era
  {
    var y := yoe + era * 400;
    MarchDaysClosed(y);
    assert y / 4 == yoe / 4 + 100 * era;
    assert y / 100 == yoe / 100 + 4 * era;
    assert y / 400 == era;
  }

  lemma {:induction false} DaysBeforeYearClosed(y: nat)
    requires y >= 1970
    ensures DaysBeforeYear(y) + EPOCH_SHIFT == MarchDays(y - 1) + 306
    decreases y
  {
    if y > 1970 {
      DaysBeforeYearClosed(y - 1);
    } else {
      MarchDaysClosed(y - 1);
    }
  }

  /** The first day of a year, from the closed form. */
  lemma YearStarts(y: nat, first: nat)
    requires y >= 1970 && first + EPOCH_SHIFT == 365 * (y - 1) + (y - 1) / 4 - (y - 1) / 100 + (y - 1) / 400 + 306
    ensures DaysBeforeYear(y) == first
  {
    DaysBeforeYearClosed(y);
    MarchDaysClosed(y - 1);
  }

  lemma {:induction false} DaysBeforeMonthClosed(y: nat, m: nat)
    requires 1 <= m <= 12
    ensures DaysBeforeMonth(y, m)
         == if m <= 2 then MonthDays(m + 9) - 306 else YearLength(y) - 306 + MonthDays(m - 3)
    decreases m
  {
    if m > 1 {
      DaysBeforeMonthClosed(y, m - 1);
    }
  }

  /** A day count is a March year plus a day within it. */
  lemma MarchYearOf(z: nat)
    ensures z == MarchDays(MarchYear(z)) + DayOfYear(DayOfEra(z)) && z < MarchDays(MarchYear(z) + 1)
  {
    var era, doe := z / 146_097, DayOfEra(z);
    var yoe := YearOfEra(doe);
    YearOfEraBrackets(doe);
    EraDaysAreMarchDays(era, yoe);
    if yoe < 399 {
      EraDaysAreMarchDays(era, yoe + 1);
    } else {
      EraDaysAreMarchDays(era + 1, 0);
      assert yoe + era * 400 + 1 == (era + 1) * 400;
    }
  }

  lemma MarchYearFloor(y: nat, z: nat)
    requires EPOCH_SHIFT <= z < MarchDays(y + 1)
    ensures y >= 1969
  {
    MarchDaysIncrease(y + 1, 1969);
    MarchDaysClosed(1969);
  }

  /** March to December: the day stays in the civil year the March year is named after. */
  lemma SpringIsCivil(y: nat, doy: nat)
    requires doy < 306 && y >= 1969 && MarchDays(y) + doy >= EPOCH_SHIFT
    ensures var d := FromMarchYear(y, doy); IsDate(d) && DayNumber(d) + EPOCH_SHIFT == MarchDays(y) + doy
  {
    SpringYear(y, doy);
    SpringFields(y, doy);
    DaysBeforeYearClosed(y);
    DaysBeforeMonthClosed(y, MonthPeriod(doy) + 3);
  }

  /** March 1969 begins before the epoch's own year does. */
  lemma SpringYear(y: nat, doy: nat)
    requires doy < 306 && y >= 1969 && MarchDays(y) + doy >= EPOCH_SHIFT
    ensures y >= 1970
  {
    MarchDaysClosed(y);
  }

  lemma SpringFields(y: nat, doy: nat)
    requires doy < 306
    ensures FromMarchYear(y, doy) == Date(y, MonthPeriod(doy) + 3, doy - MonthDays(MonthPeriod(doy)) + 1)
    ensures MonthPeriod(doy) <= 9 && doy - MonthDays(MonthPeriod(doy)) < MonthLength(y, MonthPeriod(doy) + 3)
  {
  }

  /** January and February belong to the civil year after it. */
  lemma WinterIsCivil(y: nat, doy: nat)
    requires 306 <= doy <= 365 && doy < YearLength(y + 1) && y >= 1969
    ensures var d := FromMarchYear(y, doy); IsDate(d) && DayNumber(d) + EPOCH_SHIFT == MarchDays(y) + doy
  {
    DaysBeforeYearClosed(y + 1);
    DaysBeforeMonthClosed(y + 1, MonthPeriod(doy) - 9);
  }

  lemma MarchDateIsCivil(y: nat, doy: nat, z: nat, d: Date)
    requires EPOCH_SHIFT <= z && doy <= 365 && d == FromMarchYear(y, doy)
    requires z == MarchDays(y) + doy && z < MarchDays(y + 1)
    ensures IsDate(d) && DayNumber(d) == z - EPOCH_SHIFT
  {
    MarchYearFloor(y, z);
    if doy < 306 {
      SpringIsCivil(y, doy);
    } else {
      WinterIsCivil(y, doy);
    }
  }

  /** The computed date is a Gregorian date, and counting up to it gives the day count back. */
  lemma CivilCountsBack(days: nat)
    ensures IsDate(Civil(days)) && DayNumber(Civil(days)) == days
  {
    var z := days + EPOCH_SHIFT;
    var (y, doy) := MarchDate(z);
    MarchDateIsCivil(y, doy, z, Civil(days));
  }

  /** The ranges the arithmetic relies on, for every day count. */
  lemma IntermediateRanges(days: nat)
    ensures var doe := DayOfEra(days + EPOCH_SHIFT);
            var doy := DayOfYear(doe);
            && doe <= 146_096 && YearOfEra(doe) <= 399 && doy <= 365 && MonthPeriod(doy) <= 11
            && 1 <= doy - MonthDays(MonthPeriod(doy)) + 1 <= 31
            && 1 <= Civil(days).month <= 12
  {
    YearOfEraBrackets(DayOfEra(days + EPOCH_SHIFT));
    CivilCountsBack(days);
  }

  // ----- Counting days is strictly monotone, so each day has one date -----

  lemma {:induction false} DaysBeforeMonthIncrease(y: nat, m: nat, m': nat)
    requires 1 <= m < m' <= 12
    ensures DaysBeforeMonth(y, m) + MonthLength(y, m) <= DaysBeforeMonth(y, m')
    decreases m'
  {
    if m + 1 < m' {
      DaysBeforeMonthIncrease(y, m, m' - 1);
    }
  }

  lemma {:induction false} DaysBeforeYearIncrease(y: nat, y': nat)
    requires 1970 <= y < y'
    ensures DaysBeforeYear(y) + YearLength(y) <= DaysBeforeYear(y')
    decreases y'
  {
    if y + 1 < y' {
      DaysBeforeYearIncrease(y, y' - 1);
    }
  }

  lemma WithinYear(d: Date)
    requires IsDate(d)
    ensures DaysBeforeMonth(d.year, d.month) + (d.day - 1) < YearLength(d.year)
  {
    DaysBeforeMonthClosed(d.year, d.month);
  }

  /** Day numbers order dates exactly as the calendar does. */
  lemma DayNumberOrders(a: Date, b: Date)
    requires IsDate(a) && IsDate(b)
    ensures DayNumber(a) < DayNumber(b) <==> Earlier(a, b)
  {
    if Earlier(a, b) {
      EarlierCountsLess(a, b);
    } else if Earlier(b, a) {
      EarlierCountsLess(b, a);
    } else {
      assert a == b;
    }
  }

  lemma EarlierCountsLess(a: Date, b: Date)
    requires IsDate(a) && IsDate(b) && Earlier(a, b)
    ensures DayNumber(a) < DayNumber(b)
  {
    if a.year < b.year {
      WithinYear(a);
      DaysBeforeYearIncrease(a.year, b.year);
    } else if a.month < b.month {
      DaysBeforeMonthIncrease(a.year, a.month, b.month);
    }
  }

  lemma CivilInverts(d: Date)
    requires IsDate(d)
    ensures Civil(DayNumber(d)) == d
  {
    CivilCountsBack(DayNumber(d));
    DayNumberOrders(Civil(DayNumber(d)), d);
    DayNumberOrders(d, Civil(DayNumber(d)));
  }

  // ----- The 32-bit year cast -----

  // The first day whose year no longer fits in 32 bits: 4294967296-01-01.
  const FIRST_TRUNCATED_DAY: nat := 1_568_703_873_082

  lemma FirstDayOfYear(y: nat)
    requires y == U32_RANGE
    ensures DayNumber(Date(y, 1, 1)) == FIRST_TRUNCATED_DAY
  {
    YearStarts(y, FIRST_TRUNCATED_DAY);
  }

  lemma YearFits(d: Date, y: nat)
    requires IsDate(d) && y == U32_RANGE
    ensures d.year < y <==> DayNumber(d) < FIRST_TRUNCATED_DAY
  {
    FirstDayOfYear(y);
    DayNumberOrders(d, Date(y, 1, 1));
  }

  lemma CastExactlyWhenYearFits(d: Date)
    requires IsDate(d)
    ensures (IsDate(CastYear(d)) && DayNumber(CastYear(d)) == DayNumber(d)) <==> DayNumber(d) < FIRST_TRUNCATED_DAY
    ensures CastYear(d) == d <==> DayNumber(d) < FIRST_TRUNCATED_DAY
  {
    YearFits(d, U32_RANGE);
    if d.year >= U32_RANGE && IsDate(CastYear(d)) {
      DayNumberOrders(CastYear(d), d);
    }
  }

  /** The result is the right date exactly while its year fits in 32 bits. */
  lemma DaysToYmdExactlyWhenYearFits(days: nat)
    requires days + EPOCH_SHIFT < U64_RANGE
    ensures (IsDate(DaysToYmd(days)) && DayNumber(DaysToYmd(days)) == days) <==> days < FIRST_TRUNCATED_DAY
  {
    CivilCountsBack(days);
    CastExactlyWhenYearFits(Civil(days));
  }

  /** Every date from 1970 on whose year fits is the image of its own day number. */
  lemma EveryDateIsHit(d: Date)
    requires IsDate(d) && d.year < U32_RANGE
    ensures DayNumber(d) + EPOCH_SHIFT < U64_RANGE && DaysToYmd(DayNumber(d)) == d
  {
    YearFits(d, U32_RANGE);
    CastExactlyWhenYearFits(d);
    CivilInverts(d);
  }
}
