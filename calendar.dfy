/** Time as the services use it: instants are integer milliseconds since the
    epoch (what `new Date(...)` holds), a day is 86400000 ms. */
module Calendar {

  const DAY_MS: int := 1000 * 60 * 60 * 24

  /** `Math.ceil((checkOut - checkIn) / (1000 * 60 * 60 * 24))`. */
  function Nights(checkIn: int, checkOut: int): (n: int)
    ensures DAY_MS * (n - 1) < checkOut - checkIn <= DAY_MS * n
  {
    -((checkIn - checkOut) / DAY_MS)
  }

  /** The number of nights is the least whole number of days covering the stay. */
  lemma NightsLeast(checkIn: int, checkOut: int, k: int)
    requires checkOut - checkIn <= DAY_MS * k
    ensures Nights(checkIn, checkOut) <= k
  {
  }

  lemma NightsExamples()
    ensures Nights(0, 3 * DAY_MS) == 3
    ensures Nights(0, 3 * DAY_MS + 1) == 4
    ensures Nights(0, 1) == 1
    ensures Nights(0, 0) == 0
    ensures Nights(DAY_MS, 0) == -1
  {
  }

  /** The UTC calendar day of an instant, the day `toISOString()` prints:
      the number of whole days since 1970-01-01. */
  function DayOf(t: int): (d: int)
    ensures DAY_MS * d <= t < DAY_MS * (d + 1)
  {
    t / DAY_MS
  }

  /** The day number is the only d whose day contains the instant. */
  lemma DayOfUnique(t: int, d: int)
    requires DAY_MS * d <= t < DAY_MS * (d + 1)
    ensures DayOf(t) == d
  {
  }

  /** One day later is the next day number. */
  lemma DayOfNext(t: int)
    ensures DayOf(t + DAY_MS) == DayOf(t) + 1
  {
    DayOfUnique(t + DAY_MS, DayOf(t) + 1);
  }

  /** A year and month of the proleptic Gregorian calendar. */
  datatype YearMonth = YearMonth(year: int, month: int)

  /** A position in a year that starts on 1 March: the year number, and the
      day counted from 1 March (0 to 365, the leap day being the last). */
  datatype YearDay = YearDay(year: int, day: int)

  /** The position one day later: the next day of the same year, or the
      first day of the next year after day 364 or 365. */
  predicate PositionStep(p: YearDay, q: YearDay)
  {
    (q.year == p.year && q.day == p.day + 1) || (q.year == p.year + 1 && q.day == 0 && p.day >= 364)
  }

  /** A day of a four-year block: three years of 365 days, then one of 366. */
  function BlockDay(dob: int): (p: YearDay)
    requires 0 <= dob < 1461
    ensures 0 <= p.year < 4 && 0 <= p.day <= 365
  {
    var yob := if dob < 1460 then dob / 365 else 3;
    YearDay(yob, dob - yob * 365)
  }

  /** The next day of a block is the next day of its year, or the first day
      of the next year after day 364. */
  lemma BlockDayStep(dob: int)
    requires 0 <= dob < 1460
    ensures PositionStep(BlockDay(dob), BlockDay(dob + 1))
  {
    if dob + 1 < 1460 {
      var y := dob / 365;
      if (dob + 1) / 365 != y {
        assert (dob + 1) / 365 == y + 1;
      }
    }
  }

  /** A day of a century: four-year blocks of 1461 days. */
  function CenturyDay(doc: int): (p: YearDay)
    requires 0 <= doc < 36525
    ensures 0 <= p.year < 100 && 0 <= p.day <= 365
  {
    var block := doc / 1461;
    var b := BlockDay(doc - block * 1461);
    YearDay(block * 4 + b.year, b.day)
  }

  /** The step inside one century, across its four-year blocks. */
  lemma CenturyDayStep(doc: int)
    requires 0 <= doc < 36524
    ensures PositionStep(CenturyDay(doc), CenturyDay(doc + 1))
  {
    var block := doc / 1461;
    var dob := doc - block * 1461;
    if dob == 1460 {
      assert (doc + 1) / 1461 == block + 1;
      assert BlockDay(1460) == YearDay(3, 365);
      assert BlockDay(0) == YearDay(0, 0);
    } else {
      assert (doc + 1) / 1461 == block;
      BlockDayStep(dob);
    }
  }

  /** The century of day `doe` of a 400-year cycle: three centuries of
      36524 days and a last one of 36525 (the last four-year block of the
      three short centuries lacks its leap day). */
  function CenturyOf(doe: int): int
  {
    if doe < 3 * 36524 then doe / 36524 else 3
  }

  /** A day of the cycle lies in its century. */
  lemma CenturyOfBounds(doe: int)
    requires 0 <= doe < 146097
    ensures var c := CenturyOf(doe);
            0 <= c < 4 && 0 <= doe - c * 36524 < (if c == 3 then 36525 else 36524)
  {
  }

  /** The century of the next day is the same, one day further in, or the
      next one, starting after the last day 36523 of a short century. */
  lemma CenturyOfStep(doe: int)
    requires 0 <= doe < 146096
    ensures var c, c' := CenturyOf(doe), CenturyOf(doe + 1);
            c' == c || (c' == c + 1 && doe - c * 36524 == 36523)
  {
    CenturyOfBounds(doe);
    CenturyOfBounds(doe + 1);
  }

  /** The position of day `doe` of a 400-year cycle that starts on 1 March
      of its year 0. */
  function CycleDay(doe: int): (p: YearDay)
    requires 0 <= doe < 146097
    ensures 0 <= p.year < 400 && 0 <= p.day <= 365
  {
    CenturyOfBounds(doe);
    var cent := CenturyOf(doe);
    var c := CenturyDay(doe - cent * 36524);
    YearDay(cent * 100 + c.year, c.day)
  }

  /** The last day of a short century ends its year. */
  lemma ShortCenturyEnd()
    ensures CenturyDay(36523) == YearDay(99, 364)
  {
    assert BlockDay(1459) == YearDay(3, 364);
  }

  /** Inside a 400-year cycle, the next day is the next day of the same
      March-based year, or the first day of the next year after a last day. */
  lemma CycleDayStep(doe: int)
    requires 0 <= doe < 146096
    ensures PositionStep(CycleDay(doe), CycleDay(doe + 1))
  {
    CenturyOfStep(doe);
    if CenturyOf(doe + 1) == CenturyOf(doe) {
      CycleDayStepInside(doe);
    } else {
      CycleDayStepNextCentury(doe);
    }
  }

  /** The step inside one century. */
  lemma CycleDayStepInside(doe: int)
    requires 0 <= doe < 146096 && CenturyOf(doe + 1) == CenturyOf(doe)
    ensures PositionStep(CycleDay(doe), CycleDay(doe + 1))
  {
    CenturyOfBounds(doe);
    CenturyOfBounds(doe + 1);
    CenturyDayStep(doe - CenturyOf(doe) * 36524);
  }

  /** The step from the last day of a short century to the next century. */
  lemma CycleDayStepNextCentury(doe: int)
    requires 0 <= doe < 146096 && CenturyOf(doe + 1) == CenturyOf(doe) + 1 && doe - CenturyOf(doe) * 36524 == 36523
    ensures PositionStep(CycleDay(doe), CycleDay(doe + 1))
  {
    CenturyOfBounds(doe);
    CenturyOfBounds(doe + 1);
    ShortCenturyEnd();
    assert CenturyDay(0) == YearDay(0, 0) by { assert BlockDay(0) == YearDay(0, 0); }
  }

  /** The March-based position of a day number (days since 1970-01-01,
      which is day 719468 counted from 1 March of year 0). */
  function DayPosition(days: int): (p: YearDay)
    ensures 0 <= p.day <= 365
  {
    var z := days + 719468;
    CyclePosition(z / 146097, z % 146097)
  }

  /** Day `doe` of the 400-year cycle number `era`. */
  function CyclePosition(era: int, doe: int): (p: YearDay)
    requires 0 <= doe < 146097
    ensures 0 <= p.day <= 365
  {
    var c := CycleDay(doe);
    YearDay(era * 400 + c.year, c.day)
  }

  /** The civil year and month of a day number: months are counted from
      March, so January and February belong to the next civil year. */
  function CivilMonth(days: int): (ym: YearMonth)
    ensures 1 <= ym.month <= 12
  {
    var p := DayPosition(days);
    var mp := (5 * p.day + 2) / 153;
    var m := if mp < 10 then mp + 3 else mp - 9;
    YearMonth(if m <= 2 then p.year + 1 else p.year, m)
  }

  /** The month after `ym`. */
  function NextMonth(ym: YearMonth): YearMonth
  {
    if ym.month == 12 then YearMonth(ym.year + 1, 1) else YearMonth(ym.year, ym.month + 1)
  }

  /** Quotient and remainder by the cycle length are the unique split. */
  lemma CycleSplit(z: int, q: int, rem: int)
    requires 0 <= rem < 146097 && z == q * 146097 + rem
    ensures z / 146097 == q && z % 146097 == rem
  {
  }

  /** The first and last days of a 400-year cycle. */
  lemma CycleEnds()
    ensures CycleDay(0) == YearDay(0, 0) && CycleDay(146096) == YearDay(399, 365)
  {
    assert BlockDay(0) == YearDay(0, 0) && BlockDay(1460) == YearDay(3, 365);
    assert CenturyDay(0) == YearDay(0, 0) && CenturyDay(36524) == YearDay(99, 365);
  }

  /** The step inside one cycle. */
  lemma CyclePositionStep(era: int, doe: int)
    requires 0 <= doe < 146096
    ensures PositionStep(CyclePosition(era, doe), CyclePosition(era, doe + 1))
  {
    CycleDayStep(doe);
  }

  /** The step from the last day of a cycle to the first of the next. */
  lemma CyclePositionWrap(era: int)
    ensures var p, q := CyclePosition(era, 146096), CyclePosition(era + 1, 0);
            q.year == p.year + 1 && q.day == 0 && p.day >= 364
  {
    CycleEnds();
  }

  /** The same step across day numbers, the cycle boundary included. */
  lemma DayPositionStep(days: int)
    ensures PositionStep(DayPosition(days), DayPosition(days + 1))
  {
    var era, doe := CycleOf(days);
    if doe < 146096 {
      DayPositionStepInside(days, era, doe);
    } else {
      DayPositionStepWrap(days, era);
    }
  }

  /** The step for a day number inside its cycle. */
  lemma DayPositionStepInside(days: int, era: int, doe: int)
    requires 0 <= doe < 146096 && days + 719468 == era * 146097 + doe
    ensures PositionStep(DayPosition(days), DayPosition(days + 1))
  {
    DayPositionIs(days, era, doe);
    DayPositionIs(days + 1, era, doe + 1);
    CyclePositionStep(era, doe);
  }

  /** The step for the last day number of a cycle. */
  lemma DayPositionStepWrap(days: int, era: int)
    requires days + 719468 == era * 146097 + 146096
    ensures PositionStep(DayPosition(days), DayPosition(days + 1))
  {
    DayPositionIs(days, era, 146096);
    DayPositionIs(days + 1, era + 1, 0);
    CyclePositionWrap(era);
  }

  /** Every day number lies in some 400-year cycle. */
  lemma CycleOf(days: int) returns (era: int, doe: int)
    ensures 0 <= doe < 146097 && days + 719468 == era * 146097 + doe
  {
    era, doe := (days + 719468) / 146097, (days + 719468) % 146097;
  }

  /** A day number is day `doe` of cycle `era` when it splits that way. */
  lemma DayPositionIs(days: int, era: int, doe: int)
    requires 0 <= doe < 146097 && days + 719468 == era * 146097 + doe
    ensures DayPosition(days) == CyclePosition(era, doe)
  {
    CycleSplit(days + 719468, era, doe);
  }

  /** The civil month of the next day is the same month or the next one, so
      the months follow each other without a gap as the days go by. */
  lemma CivilMonthStep(days: int)
    ensures CivilMonth(days + 1) == CivilMonth(days) || CivilMonth(days + 1) == NextMonth(CivilMonth(days))
  {
    DayPositionStep(days);
  }

  /** `getFullYear()` and `getMonth() + 1` in local time, for a fixed local
      offset from UTC in milliseconds. */
  function MonthOf(t: int, localOffset: int): YearMonth
  {
    CivilMonth(DayOf(t + localOffset))
  }

  /** Day 0 is 1970-01-01. */
  lemma CivilMonthEpoch()
    ensures CivilMonth(0) == YearMonth(1970, 1)
  {
    CycleSplit(719468, 4, 135080);
    assert BlockDay(671) == YearDay(1, 306);
    assert CenturyDay(25508) == YearDay(69, 306);
    assert CycleDay(135080) == YearDay(369, 306);
  }

  /** Day 11016 is 2000-02-29, a leap day. */
  lemma CivilMonthLeapDay()
    ensures CivilMonth(11016) == YearMonth(2000, 2)
  {
    CycleSplit(730484, 4, 146096);
    CycleEnds();
  }

  /** Day -1 is 1969-12-31. */
  lemma CivilMonthBeforeEpoch()
    ensures CivilMonth(-1) == YearMonth(1969, 12)
  {
    CycleSplit(719467, 4, 135079);
    assert BlockDay(670) == YearDay(1, 305);
    assert CenturyDay(25507) == YearDay(69, 305);
    assert CycleDay(135079) == YearDay(369, 305);
  }

  /** One day later, the local month key is the same month or the next one. */
  lemma MonthOfNextDay(t: int, localOffset: int)
    ensures MonthOf(t + DAY_MS, localOffset) == MonthOf(t, localOffset)
            || MonthOf(t + DAY_MS, localOffset) == NextMonth(MonthOf(t, localOffset))
  {
    var d := DayOf(t + localOffset);
    DayOfNext(t + localOffset);
    assert t + DAY_MS + localOffset == t + localOffset + DAY_MS;
    assert MonthOf(t + DAY_MS, localOffset) == CivilMonth(d + 1);
    CivilMonthStep(d);
  }
}
