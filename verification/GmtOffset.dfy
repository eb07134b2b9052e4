/** The offset between two broken-down times, by counting intervening leap days. */
module GmtOffset {
  import opened Truncation

  datatype Tm = Tm(sec: int, min: int, hour: int, yday: int, year: int)

  /** An arithmetic shift right by two: division by four, towards minus infinity. */
  function Shift2(a: int): int { a / 4 }

  /** The years are counted from 1900. */
  function CalculateGmtOffset(localTm: Tm, gmTm: Tm): int {
    var localYear := localTm.year + (1900 - 1);
    var gmtYear := gmTm.year + (1900 - 1);
    var days := localTm.yday - gmTm.yday
                + (Shift2(localYear) - Shift2(gmtYear)) - (Quotient(localYear, 100) - Quotient(gmtYear, 100))
                + (Shift2(Quotient(localYear, 100)) - Shift2(Quotient(gmtYear, 100)))
                + (localYear - gmtYear) * 365;
    var hours := 24 * days + (localTm.hour - gmTm.hour);
    var mins := 60 * hours + (localTm.min - gmTm.min);
    60 * mins + (localTm.sec - gmTm.sec)
  }

  // ---------------------------------------------------------------- the calendar

  predicate IsLeap(year: int) { year % 4 == 0 && (year % 100 != 0 || year % 400 == 0) }

  function YearDays(year: int): int { if IsLeap(year) then 366 else 365 }

  /** The days from 1 January of year 1 to 1 January of the given year, which may be before it. */
  function DaysBefore(year: int): int
    decreases if year < 1 then 1 - year else year - 1
  {
    if year == 1 then 0
    else if year > 1 then DaysBefore(year - 1) + YearDays(year - 1)
    else DaysBefore(year + 1) - YearDays(year)
  }

  function Year(tm: Tm): int { tm.year + 1900 }

  /** The seconds since the start of year 1. */
  function SecondCount(tm: Tm): int {
    (((DaysBefore(Year(tm)) + tm.yday) * 24 + tm.hour) * 60 + tm.min) * 60 + tm.sec
  }

  lemma StepBy(y: int, d: nat)
    requires d == 4 || d == 100 || d == 400
    ensures (y + 1) / d == y / d + if (y + 1) % d == 0 then 1 else 0
  {}

  lemma Multiples(y: int)
    ensures y % 400 == 0 ==> y % 100 == 0
    ensures y % 100 == 0 ==> y % 4 == 0
  {
    Hundreds(4 * (y / 400));
    Fours(25 * (y / 100));
    assert y == 400 * (y / 400) + y % 400 && y == 100 * (y / 100) + y % 100;
  }

  lemma Hundreds(k: int)
    ensures (100 * k) % 100 == 0
  {}

  lemma Fours(k: int)
    ensures (4 * k) % 4 == 0
  {}

  lemma LeapDay(y: int)
    ensures YearDays(y) == 365 + (if y % 4 == 0 then 1 else 0) - (if y % 100 == 0 then 1 else 0)
                           + (if y % 400 == 0 then 1 else 0)
  {
    Multiples(y);
  }

  // The days in y years under the 4/100/400 rule.
  function RuleDays(y: int): int { 365 * y + y / 4 - y / 100 + y / 400 }

  lemma RuleStep(y: int)
    ensures RuleDays(y + 1) == RuleDays(y) + YearDays(y + 1)
  {
    LeapDay(y + 1);
    StepBy(y, 4);
    StepBy(y, 100);
    StepBy(y, 400);
  }

  /** Leap years are counted by the 4/100/400 rule, with divisions rounding down. */
  lemma {:induction false} DaysBeforeClosed(year: int)
    ensures DaysBefore(year) == RuleDays(year - 1)
    decreases if year < 1 then 1 - year else year - 1
  {
    if year > 1 {
      DaysBeforeClosed(year - 1);
      RuleStep(year - 2);
    } else if year < 1 {
      DaysBeforeClosed(year + 1);
      RuleStep(year - 1);
    }
  }

  // The same sum as the code forms it, with a century count that rounds towards zero.
  function CodeDays(y: int): int {
    365 * y + Shift2(y) - Quotient(y, 100) + Shift2(Quotient(y, 100))
  }

  /** The years for which rounding the centuries towards zero loses a day: negative ones inside a century
      that does not end in a multiple of 400. */
  predicate LosesADay(year: int) {
    var y := year - 1;
    y < 0 && y % 100 != 0 && (y / 100 + 1) % 4 != 0
  }

  lemma CenturiesOfFour(y: int)
    ensures (y / 100) / 4 == y / 400
  {}

  lemma CodeDaysAre(y: int)
    ensures CodeDays(y) == RuleDays(y) - if LosesADay(y + 1) then 1 else 0
  {
    CenturiesOfFour(y);
    if y < 0 { TowardsZero(y); }
  }

  lemma TowardsZero(y: int)
    requires y < 0
    ensures Quotient(y, 100) == y / 100 + if y % 100 == 0 then 0 else 1
  {}

  // The seconds since the start of the year.
  function InYear(tm: Tm): int { 86400 * tm.yday + 3600 * tm.hour + 60 * tm.min + tm.sec }

  lemma SecondsFromDays(tm: Tm)
    ensures SecondCount(tm) == 86400 * CodeDays(Year(tm) - 1) + InYear(tm) + 86400 * LostDays(Year(tm))
  {
    DaysBeforeClosed(Year(tm));
    CodeDaysAre(Year(tm) - 1);
  }

  lemma OffsetFromDays(l: Tm, g: Tm)
    ensures CalculateGmtOffset(l, g) == 86400 * (CodeDays(Year(l) - 1) - CodeDays(Year(g) - 1)) + InYear(l) - InYear(g)
  {}

  function LostDays(year: int): int { if LosesADay(year) then 1 else 0 }

  /** In all years: the offset is the difference of the two second counts, but for a day where one of the
      years, and only one, loses it. */
  lemma OffsetCountsSeconds(l: Tm, g: Tm)
    ensures CalculateGmtOffset(l, g)
            == SecondCount(l) - SecondCount(g) + 86400 * (LostDays(Year(g)) - LostDays(Year(l)))
    ensures (CalculateGmtOffset(l, g) == SecondCount(l) - SecondCount(g))
            <==> (LosesADay(Year(l)) <==> LosesADay(Year(g)))
  {
    OffsetFromDays(l, g);
    SecondsFromDays(l);
    SecondsFromDays(g);
  }

  /** Year -100 is the last that loses a day. */
  lemma LastLostDay(year: int)
    ensures year >= -99 ==> !LosesADay(year)
    ensures LosesADay(-100)
  {
    if -99 <= year <= 0 { assert (year - 1) / 100 == -1; }
  }

  /** In any year, the offset the other way is the negated one, and offsets over a third time add up. */
  lemma OffsetIsAdditive(a: Tm, b: Tm, c: Tm)
    ensures CalculateGmtOffset(a, b) == -CalculateGmtOffset(b, a)
    ensures CalculateGmtOffset(a, b) + CalculateGmtOffset(b, c) == CalculateGmtOffset(a, c)
  {}

  // ---------------------------------------------------------------- valid times

  predicate Valid(tm: Tm) {
    Year(tm) >= 1 && 0 <= tm.yday < YearDays(Year(tm)) && 0 <= tm.hour < 24 && 0 <= tm.min < 60 && 0 <= tm.sec < 60
  }

  lemma {:induction false} DaysBeforeGrows(y: int, z: int)
    requires 1 <= y < z
    ensures DaysBefore(y) + YearDays(y) <= DaysBefore(z)
    decreases z - y
  {
    if y + 1 < z { DaysBeforeGrows(y, z - 1); }
  }

  predicate Earlier(l: Tm, g: Tm) {
    if l.year != g.year then l.year < g.year
    else if l.yday != g.yday then l.yday < g.yday
    else if l.hour != g.hour then l.hour < g.hour
    else if l.min != g.min then l.min < g.min
    else l.sec < g.sec
  }

  lemma EarlierCountsLess(l: Tm, g: Tm)
    requires Valid(l) && Valid(g) && Earlier(l, g)
    ensures SecondCount(l) < SecondCount(g)
  {
    if l.year < g.year { DaysBeforeGrows(Year(l), Year(g)); }
  }

  /** On valid times the sign of the offset tells which is earlier, and it is 0 only between equal ones. */
  lemma OffsetOrders(l: Tm, g: Tm)
    requires Valid(l) && Valid(g)
    ensures CalculateGmtOffset(l, g) < 0 <==> Earlier(l, g)
    ensures CalculateGmtOffset(l, g) == 0 <==> l == g
  {
    OffsetCountsSeconds(l, g);
    LastLostDay(Year(l));
    LastLostDay(Year(g));
    if Earlier(l, g) { EarlierCountsLess(l, g); }
    else if Earlier(g, l) { EarlierCountsLess(g, l); }
  }
}
