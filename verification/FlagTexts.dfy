/** What each flag of a pattern prints, read back from the printed text. */
module FlagTexts {
  import opened Decimal
  import opened Numerals
  import opened Truncation
  import opened Padding
  import opened Flags
  import opened PatternCompiler
  import FieldSizes

  const BLANK := Out("", 0, 0)

  /** The letters of the flags. */
  const NAME_LETTERS := {'n', 'l', 'L', 'v', 'a', 'A', 'b', 'h', 'B', 't', 'P', 'p'}
  const SOURCE_LETTERS := {'@', 's', 'g', '#', '!'}
  const CLOCK_LETTERS := {'C', 'Y', 'm', 'd', 'H', 'I', 'M', 'S', 'c', 'D', 'x', 'r', 'R', 'T', 'X', 'z'}
  const PART_LETTERS := {'e', 'f', 'F', 'E', 'u', 'i', 'o', 'O'}
  const OTHER_LETTERS := {'+', '^', '$'}

  predicate IsFieldLetter(c: char) {
    c in NAME_LETTERS || c in SOURCE_LETTERS || c in CLOCK_LETTERS || c in PART_LETTERS
  }

  predicate IsFlagLetter(c: char) { IsFieldLetter(c) || c in OTHER_LETTERS }

  lemma ClockLetters(c: char)
    ensures IsClockFlag(c) <==> c in CLOCK_LETTERS
  {}

  lemma NameLetters(c: char)
    ensures IsNameFlag(c) <==> c in NAME_LETTERS
  {}

  /** Exactly these letters are flags. */
  lemma LettersAreFlags(c: char)
    ensures (IsNameFlag(c) <==> c in NAME_LETTERS) && (IsSourceFlag(c) <==> c in SOURCE_LETTERS)
    ensures (IsClockFlag(c) <==> c in CLOCK_LETTERS) && (IsFractionFlag(c) || IsElapsedFlag(c) <==> c in PART_LETTERS)
    ensures (IsFieldFlag(c) <==> IsFieldLetter(c)) && (IsKnownFlag(c) <==> IsFlagLetter(c))
  {
    NameLetters(c);
    ClockLetters(c);
  }

  /** What the pattern of one flag prints. */
  function Printed(c: char, msg: Message, tm: Tm): string { Interpret(['%', c], msg, tm, BLANK).text }

  function TextOf(f: Field): string { if f.Nothing? then "" else f.text }

  lemma OneFlag(c: char, msg: Message, tm: Tm)
    requires IsFieldFlag(c)
    ensures Printed(c, msg, tm) == TextOf(FieldOf(c, msg, tm))
  {
    var p, f := ['%', c], FieldOf(c, msg, tm);
    assert p[1..] == [c] && [c][1..] == "";
    assert PadSpec([c]) == (Pad(0, Left), [c]);
    var out := EmitFlag(c, Pad(0, Left), msg, tm, BLANK);
    assert Interpret("", msg, tm, out) == out;
    assert Interpret(p, msg, tm, BLANK) == out;
    if !f.Nothing? {
      assert Padded(Pad(0, Left), f.size, f.text) == f.text;
      assert out.text == "" + f.text == f.text;
    }
  }

  // ---------------------------------------------------------------- numerals

  lemma AppendIntIsNumeral(n: int)
    ensures Numeral(AppendInt(n), n, 1)
  {
    DigitsAreNumeral(if n < 0 then -n else n);
    DigitsAreDigits(if n < 0 then -n else n);
    if n < 0 {
      assert AppendInt(n) == ['-'] + Digits(-n);
      assert AppendInt(n)[1..] == Digits(-n);
    }
  }

  lemma Pad2IsNumeral(n: int)
    ensures Numeral(Pad2(n), n, 2)
  {
    AppendIntIsNumeral(n);
    if n >= 0 { LengthOfTwo(n); }
    if 0 <= n < 10 {
      ZerosDenoteNothing(1, Digits(n));
      assert Pad2(n) == seq(1, _ => '0') + Digits(n);
    } else if 10 <= n <= 99 {
      assert Digits(n / 10) == [DigitChar(n / 10)];
      assert Pad2(n) == Digits(n);
    }
  }

  lemma LengthOfTwo(n: nat)
    ensures |Digits(n)| == 1 <==> n < 10
    ensures |Digits(n)| <= 2 <==> n < 100
  {
    DigitsReadBack(n);
    Pow10Literals();
    NumDigitsFit(n, 1);
    NumDigitsFit(n, 2);
  }

  lemma {:induction false} ZerosDenoteNothing(k: nat, s: string)
    requires AllDigits(s)
    ensures Value(seq(k, _ => '0') + s) == Value(s) && AllDigits(seq(k, _ => '0') + s)
    decreases k, |s|
  {
    var z := seq(k, _ => '0');
    if s != [] {
      ZerosDenoteNothing(k, s[..|s| - 1]);
      assert (z + s)[..|z + s| - 1] == z + s[..|s| - 1];
    } else if k > 0 {
      ZerosDenoteNothing(k - 1, []);
      assert (z + s)[..k - 1] == seq(k - 1, _ => '0') + [];
    } else {
      assert z + s == [];
    }
  }

  lemma PadUintIsNumeral(n: nat, w: nat)
    requires w > 0
    ensures Numeral(PadUint(n, w), n, w)
  {
    DigitsAreNumeral(n);
    ZerosDenoteNothing(if w > |Digits(n)| then w - |Digits(n)| else 0, Digits(n));
    assert w <= |Digits(n)| ==> PadUint(n, w) == Digits(n);
  }

  // ---------------------------------------------------------------- names

  /** The message and the logger's name are printed as they are; ids in decimal. */
  lemma PayloadAndName(c: char, msg: Message, tm: Tm)
    ensures c == 'v' ==> Printed(c, msg, tm) == msg.payload
    ensures c == 'n' ==> Printed(c, msg, tm) == msg.name
    ensures c == 't' ==> Numeral(Printed(c, msg, tm), msg.thread, 1)
    ensures c == 'P' ==> Numeral(Printed(c, msg, tm), msg.pid, 1)
    ensures c == 'p' ==> Printed(c, msg, tm) == if tm.hour < 12 then "AM" else "PM"
  {
    if IsNameFlag(c) { OneFlag(c, msg, tm); }
    DigitsAreNumeral(msg.thread);
    DigitsAreNumeral(msg.pid);
  }

  /** Reading a level's name, or its short one. */
  function LevelNamed(s: string): Level {
    if s == "trace" || s == "T" then Trace
    else if s == "debug" || s == "D" then Debug
    else if s == "info" || s == "I" then Info
    else if s == "warning" || s == "W" then Warning
    else if s == "error" || s == "E" then Error
    else if s == "critical" || s == "C" then Critical
    else Off
  }

  /** Reading a day's name: Sunday is day 0. */
  function DayNamed(s: string): int {
    if s == "Sunday" || s == "Sun" then 0
    else if s == "Monday" || s == "Mon" then 1
    else if s == "Tuesday" || s == "Tue" then 2
    else if s == "Wednesday" || s == "Wed" then 3
    else if s == "Thursday" || s == "Thu" then 4
    else if s == "Friday" || s == "Fri" then 5
    else if s == "Saturday" || s == "Sat" then 6
    else -1
  }

  /** Reading a month's name: January is month 0. */
  function MonthNamed(s: string): int {
    if s == "January" || s == "Jan" then 0
    else if s == "February" || s == "Feb" then 1
    else if s == "March" || s == "Mar" then 2
    else if s == "April" || s == "Apr" then 3
    else if s == "May" then 4
    else if s == "June" || s == "Jun" then 5
    else if s == "July" || s == "Jul" then 6
    else if s == "August" || s == "Aug" then 7
    else if s == "September" || s == "Sept" then 8
    else if s == "October" || s == "Oct" then 9
    else if s == "November" || s == "Nov" then 10
    else if s == "December" || s == "Dec" then 11
    else -1
  }

  lemma LevelsRead(l: Level)
    ensures LevelNamed(LEVELS[LevelIndex(l)]) == l && LevelNamed(SHORT_LEVELS[LevelIndex(l)]) == l
    ensures (LEVELS[LevelIndex(l)] == "off" <==> l == Off) && (SHORT_LEVELS[LevelIndex(l)] == "O" <==> l == Off)
  {}

  lemma DaysRead(i: nat)
    requires i < 7
    ensures DayNamed(DAYS[i]) == i && DayNamed(FULL_DAYS[i]) == i && |DAYS[i]| == 3 < |FULL_DAYS[i]|
  {}

  lemma MonthsRead(i: nat)
    requires i < 12
    ensures MonthNamed(MONTHS[i]) == i && |MONTHS[i]| == if i == 8 then 4 else 3
  {}

  lemma FullMonthsRead(i: nat)
    requires i < 12
    ensures MonthNamed(FULL_MONTHS[i]) == i && |FULL_MONTHS[i]| >= 3 && (|FULL_MONTHS[i]| == 3 <==> i == 4)
  {}

  /** The level, the day and the month are read off their names. */
  lemma NamesIdentify(c: char, msg: Message, tm: Tm)
    ensures c == 'l' || c == 'L' ==> LevelNamed(Printed(c, msg, tm)) == msg.level
    ensures c == 'a' || c == 'A' ==> DayNamed(Printed(c, msg, tm)) == tm.wday
    ensures c == 'b' || c == 'h' || c == 'B' ==> MonthNamed(Printed(c, msg, tm)) == tm.mon
    ensures (c == 'L' ==> |Printed(c, msg, tm)| == 1) && (c == 'a' ==> |Printed(c, msg, tm)| == 3)
    ensures c == 'b' || c == 'h' ==> |Printed(c, msg, tm)| == if tm.mon == 8 then 4 else 3
  {
    if IsNameFlag(c) { OneFlag(c, msg, tm); }
    LevelsRead(msg.level);
    DaysRead(tm.wday);
    MonthsRead(tm.mon);
    FullMonthsRead(tm.mon);
  }

  // ---------------------------------------------------------------- dates and times

  /** The year of the century, with the sign of the years since 1900. */
  function Century(year: int): int { if year >= 0 then year % 100 else -(-year % 100) }

  function Hour12(hour: int): int { if hour > 12 then hour - 12 else hour }

  ghost predicate DateRead(c: char, s: string, tm: Tm) {
    && (c == 'Y' ==> Numeral(s, tm.year + 1900, 1)) && (c == 'C' ==> Numeral(s, Century(tm.year), 2))
    && (c == 'm' ==> Numeral(s, tm.mon + 1, 2)) && (c == 'd' ==> Numeral(s, tm.mday, 2))
  }

  lemma DateText(c: char, tm: Tm)
    requires IsClockFlag(c)
    ensures DateRead(c, ClockField(c, tm).text, tm)
  {
    if c == 'Y' { AppendIntIsNumeral(tm.year + 1900); }
    if c == 'C' {
      FieldSizes.YearOfCentury(tm.year);
      Pad2IsNumeral(Remainder(tm.year, 100));
    }
    if c == 'm' { Pad2IsNumeral(tm.mon + 1); }
    if c == 'd' { Pad2IsNumeral(tm.mday); }
  }

  ghost predicate TimeRead(c: char, s: string, tm: Tm) {
    && (c == 'H' ==> Numeral(s, tm.hour, 2)) && (c == 'I' ==> Numeral(s, Hour12(tm.hour), 2))
    && (c == 'M' ==> Numeral(s, tm.min, 2)) && (c == 'S' ==> Numeral(s, tm.sec, 2))
  }

  lemma TimeText(c: char, tm: Tm)
    requires IsClockFlag(c)
    ensures TimeRead(c, ClockField(c, tm).text, tm)
  {
    if c == 'H' { Pad2IsNumeral(tm.hour); }
    if c == 'I' { Pad2IsNumeral(To12h(tm)); }
    if c == 'M' { Pad2IsNumeral(tm.min); }
    if c == 'S' { Pad2IsNumeral(tm.sec); }
  }

  /** s is three numbers with separators between them, the last two of at least two characters. */
  ghost predicate Three(s: string, x: int, y: int, z: int, least: nat, sep: string) {
    exists p :: AreThree(p, x, y, z, least) && s == p[0] + sep + p[1] + sep + p[2]
  }

  predicate AreThree(p: seq<string>, x: int, y: int, z: int, least: nat) {
    |p| == 3 && Numeral(p[0], x, least) && Numeral(p[1], y, 2) && Numeral(p[2], z, 2)
  }

  ghost predicate Two(s: string, x: int, y: int, sep: string) {
    exists p :: AreTwo(p, x, y) && s == p[0] + sep + p[1]
  }

  predicate AreTwo(p: seq<string>, x: int, y: int) { |p| == 2 && Numeral(p[0], x, 2) && Numeral(p[1], y, 2) }

  lemma JoinedThree(a: string, b: string, c: string, x: int, y: int, z: int, least: nat, sep: string)
    requires Numeral(a, x, least) && Numeral(b, y, 2) && Numeral(c, z, 2)
    ensures Three(a + sep + b + sep + c, x, y, z, least, sep)
  {
    var p := [a, b, c];
    assert AreThree(p, x, y, z, least);
  }

  lemma JoinedTwo(a: string, b: string, x: int, y: int, sep: string)
    requires Numeral(a, x, 2) && Numeral(b, y, 2)
    ensures Two(a + sep + b, x, y, sep)
  {
    var p := [a, b];
    assert AreTwo(p, x, y);
  }

  lemma ThreeNumbers(x: int, y: int, z: int, sep: string)
    ensures Three(Pad2(x) + sep + Pad2(y) + sep + Pad2(z), x, y, z, 2, sep)
  {
    Pad2IsNumeral(x);
    Pad2IsNumeral(y);
    Pad2IsNumeral(z);
    JoinedThree(Pad2(x), Pad2(y), Pad2(z), x, y, z, 2, sep);
  }

  lemma TwoNumbers(x: int, y: int, sep: string)
    ensures Two(Pad2(x) + sep + Pad2(y), x, y, sep)
  {
    Pad2IsNumeral(x);
    Pad2IsNumeral(y);
    JoinedTwo(Pad2(x), Pad2(y), x, y, sep);
  }

  ghost predicate IsTime(s: string, tm: Tm) { Three(s, tm.hour, tm.min, tm.sec, 2, ":") }

  /** Dates and times in parts, in this order. */
  ghost predicate PartsRead(c: char, s: string, tm: Tm) {
    && (c == 'D' || c == 'x' ==> Three(s, tm.mon + 1, tm.mday, Century(tm.year), 2, "/"))
    && (c == 'T' || c == 'X' ==> IsTime(s, tm)) && (c == 'R' ==> Two(s, tm.hour, tm.min, ":"))
  }

  lemma PartsText(c: char, tm: Tm)
    requires IsLongClockFlag(c)
    ensures PartsRead(c, LongClockField(c, tm).text, tm)
  {
    FieldSizes.YearOfCentury(tm.year);
    ThreeNumbers(tm.mon + 1, tm.mday, Remainder(tm.year, 100), "/");
    ThreeNumbers(tm.hour, tm.min, tm.sec, ":");
    TwoNumbers(tm.hour, tm.min, ":");
  }

  /** The time by the twelve-hour clock and the half of the day. */
  ghost predicate IsTwelveHour(s: string, tm: Tm) {
    exists t :: Three(t, Hour12(tm.hour), tm.min, tm.sec, 2, ":") && s == t + (if tm.hour < 12 then " AM" else " PM")
  }

  lemma WithHalf(t: string, tm: Tm)
    requires Three(t, Hour12(tm.hour), tm.min, tm.sec, 2, ":")
    ensures IsTwelveHour(t + " " + AmPm(tm), tm)
  {
    assert (t + " ") + AmPm(tm) == t + (if tm.hour < 12 then " AM" else " PM");
  }

  lemma TwelveHourText(tm: Tm)
    ensures IsTwelveHour(LongClockField('r', tm).text, tm)
  {
    ThreeNumbers(To12h(tm), tm.min, tm.sec, ":");
    WithHalf(Pad2(To12h(tm)) + ":" + Pad2(tm.min) + ":" + Pad2(tm.sec), tm);
  }

  /** The sign, the hours and the minutes of an offset in whole minutes, rounded towards zero. */
  ghost predicate IsOffset(s: string, gmtoff: int) {
    exists t :: IsHoursAndMinutes(t, Minutes(gmtoff)) && s == (if gmtoff <= -60 then "-" else "+") + t
  }

  function Minutes(gmtoff: int): nat { (if gmtoff < 0 then -gmtoff else gmtoff) / 60 }

  ghost predicate IsHoursAndMinutes(t: string, m: nat) { Two(t, m / 60, m % 60, ":") }

  lemma OffsetText(tm: Tm)
    ensures IsOffset(LongClockField('z', tm).text, tm.gmtoff)
  {
    InMinutes(tm.gmtoff);
    OffsetIsRead(LongClockField('z', tm).text, Quotient(tm.gmtoff, 60), tm.gmtoff);
  }

  lemma InMinutes(gmtoff: int)
    ensures var q := Quotient(gmtoff, 60); Minutes(gmtoff) == (if q < 0 then -q else q) && (q < 0 <==> gmtoff <= -60)
  {}

  lemma OffsetIsRead(s: string, q: int, gmtoff: int)
    requires s == Offset(q)
    requires Minutes(gmtoff) == (if q < 0 then -q else q) && (q < 0 <==> gmtoff <= -60)
    ensures IsOffset(s, gmtoff)
  {
    var m := if q < 0 then -q else q;
    OffsetIsTwo(q, m);
    TwoNumbers(m / 60, m % 60, ":");
    SignedOffset(s, Pad2(m / 60) + ":" + Pad2(m % 60), gmtoff);
  }

  lemma SignedOffset(s: string, t: string, gmtoff: int)
    requires IsHoursAndMinutes(t, Minutes(gmtoff)) && s == (if gmtoff <= -60 then "-" else "+") + t
    ensures IsOffset(s, gmtoff)
  {}

  lemma OffsetIsTwo(minutes: int, m: nat)
    requires m == if minutes < 0 then -minutes else minutes
    ensures Offset(minutes) == (if minutes < 0 then "-" else "+") + (Pad2(m / 60) + ":" + Pad2(m % 60))
  {
    Regroup(if minutes < 0 then "-" else "+", Pad2(m / 60), ":", Pad2(m % 60));
  }

  lemma Regroup(a: string, b: string, c: string, d: string)
    ensures a + b + c + d == a + (b + c + d)
  {}

  /** Day, month, day of the month, time, year. */
  ghost predicate IsCalendar(s: string, tm: Tm) {
    exists day, month, d, t, y :: Dated(day, month, d, t, y, tm)
                                  && s == day + " " + month + " " + d + " " + t + " " + y
  }

  ghost predicate Dated(day: string, month: string, d: string, t: string, y: string, tm: Tm) {
    && DayNamed(day) == tm.wday && |day| == 3
    && MonthNamed(month) == tm.mon && |month| == (if tm.mon == 8 then 4 else 3)
    && Numeral(d, tm.mday, 1) && IsTime(t, tm) && Numeral(y, tm.year + 1900, 1)
  }

  lemma CalendarText(tm: Tm)
    ensures IsCalendar(LongClockField('c', tm).text, tm)
  {
    DaysRead(tm.wday);
    MonthsRead(tm.mon);
    AppendIntIsNumeral(tm.mday);
    AppendIntIsNumeral(tm.year + 1900);
    ThreeNumbers(tm.hour, tm.min, tm.sec, ":");
    assert Dated(DAYS[tm.wday], MONTHS[tm.mon], AppendInt(tm.mday), Time(tm), AppendInt(tm.year + 1900), tm);
  }

  ghost predicate ClockRead(c: char, s: string, tm: Tm) {
    && DateRead(c, s, tm) && TimeRead(c, s, tm) && PartsRead(c, s, tm)
    && (c == 'r' ==> IsTwelveHour(s, tm)) && (c == 'z' ==> IsOffset(s, tm.gmtoff)) && (c == 'c' ==> IsCalendar(s, tm))
  }

  lemma ClockText(c: char, tm: Tm)
    requires IsClockFlag(c)
    ensures ClockRead(c, ClockField(c, tm).text, tm)
  {
    DateText(c, tm);
    TimeText(c, tm);
    if IsLongClockFlag(c) { PartsText(c, tm); }
    if c == 'r' { TwelveHourText(tm); }
    if c == 'z' { OffsetText(tm); }
    if c == 'c' { CalendarText(tm); }
  }

  lemma ClockPrinted(c: char, msg: Message, tm: Tm)
    requires IsClockFlag(c)
    ensures Printed(c, msg, tm) == ClockField(c, tm).text
  {
    OneFlag(c, msg, tm);
  }

  lemma ClockIsRead(c: char, s: string, tm: Tm)
    requires IsClockFlag(c) && s == ClockField(c, tm).text
    ensures ClockRead(c, s, tm)
  {
    ClockText(c, tm);
  }

  /** Every clock flag prints the fields of the broken-down time it is named for, each readable in its place. */
  lemma ClockFlags(c: char, msg: Message, tm: Tm)
    requires c in CLOCK_LETTERS
    ensures ClockRead(c, Printed(c, msg, tm), tm)
  {
    ClockLetters(c);
    ClockPrinted(c, msg, tm);
    ClockIsRead(c, Printed(c, msg, tm), tm);
  }

  // ---------------------------------------------------------------- parts of a second

  /** What is left of a time over whole seconds, in units of so many nanoseconds, towards zero. */
  function Rest(time: int, unit: nat): int
    requires unit > 0
  {
    if time >= 0 then time % 1000000000 / unit else -(-time % 1000000000 / unit)
  }

  lemma FractionIsRest(time: int)
    ensures Fraction(time, 1000000) == Rest(time, 1000000) && Fraction(time, 1000) == Rest(time, 1000)
    ensures Fraction(time, 1) == Rest(time, 1)
  {
    FieldSizes.FractionParts(if time < 0 then -time else time);
  }

  /** A number as its 32 or 64 low bits, which for a negative one is a large one. */
  function LowBits(n: int, range: nat): int
    requires range > 0
  {
    if n >= 0 then n else n + range
  }

  ghost predicate FractionRead(c: char, s: string, time: int) {
    && (c == 'e' ==> Numeral(s, LowBits(Rest(time, 1000000), 0x1_0000_0000), 3))
    && (c == 'f' ==> Numeral(s, LowBits(Rest(time, 1000), 0x1_0000_0000_0000_0000), 6))
    && (c == 'F' ==> Numeral(s, LowBits(Rest(time, 1), 0x1_0000_0000_0000_0000), 9))
    && (c == 'E' ==> Numeral(s, Seconds(time), 1))
  }

  lemma FractionText(c: char, time: int)
    requires IsFractionFlag(c)
    ensures FractionRead(c, FractionField(c, time).text, time)
  {
    if c == 'E' {
      AppendIntIsNumeral(Seconds(time));
    } else {
      FractionIsRest(time);
      FieldSizes.FractionInRange(time);
      WrapsToLowBits(Fraction(time, 1000000), Fraction(time, 1000), Fraction(time, 1));
      if c == 'e' { PadUintIsNumeral(Unsigned32(Fraction(time, 1000000)), 3); }
      if c == 'f' { PadUintIsNumeral(Unsigned64(Fraction(time, 1000)), 6); }
      if c == 'F' { PadUintIsNumeral(Unsigned64(Fraction(time, 1)), 9); }
    }
  }

  lemma FractionIsRead(c: char, s: string, time: int)
    requires IsFractionFlag(c) && s == FractionField(c, time).text
    ensures FractionRead(c, s, time)
  {
    FractionText(c, time);
  }

  /** Milli-, micro- and nanoseconds of the second, in three, six and nine digits, and the whole seconds;
      before the epoch the parts, when they are not 0, wrap around. */
  lemma FractionFlags(c: char, msg: Message, tm: Tm)
    requires c == 'e' || c == 'f' || c == 'F' || c == 'E'
    ensures FractionRead(c, Printed(c, msg, tm), msg.time)
  {
    OneFlag(c, msg, tm);
    FractionIsRead(c, Printed(c, msg, tm), msg.time);
  }

  lemma WrapsToLowBits(ms: int, us: int, ns: int)
    requires -1000 < ms < 1000 && -1000000 < us < 1000000 && -1000000000 < ns < 1000000000
    ensures Unsigned32(ms) == LowBits(ms, 0x1_0000_0000)
    ensures Unsigned64(us) == LowBits(us, 0x1_0000_0000_0000_0000)
    ensures Unsigned64(ns) == LowBits(ns, 0x1_0000_0000_0000_0000)
  {}

  /** Whole seconds, towards zero. */
  lemma SecondsAreWhole(time: int)
    ensures Seconds(time) == if time >= 0 then time / 1000000000 else -(-time / 1000000000)
    ensures time == Seconds(time) * 1000000000 + if time >= 0 then time % 1000000000 else -(-time % 1000000000)
  {}

  function ElapsedUnit(c: char): (unit: nat)
    ensures unit > 0
  {
    if c == 'u' then 1 else if c == 'i' then 1000 else if c == 'o' then 1000000 else 1000000000
  }

  /** In whole units, towards zero. */
  function InUnits(n: int, unit: nat): int
    requires unit > 0
  {
    if n >= 0 then n / unit else -(-n / unit)
  }

  lemma ElapsedInRange(c: char, elapsed: int)
    requires IsElapsedFlag(c) && -0x8000_0000_0000_0000 <= elapsed < 0x8000_0000_0000_0000
    ensures ElapsedUnits(c, elapsed) == InUnits(elapsed, ElapsedUnit(c))
    ensures Unsigned64(ElapsedUnits(c, elapsed)) == LowBits(ElapsedUnits(c, elapsed), 0x1_0000_0000_0000_0000)
  {}

  lemma ElapsedIsRead(n: int, s: string)
    requires s == PadUint(Unsigned64(n), 6) && Unsigned64(n) == LowBits(n, 0x1_0000_0000_0000_0000)
    ensures Numeral(s, LowBits(n, 0x1_0000_0000_0000_0000), 6)
  {
    PadUintIsNumeral(Unsigned64(n), 6);
  }

  /** The time since the previous message in nano-, micro-, milli- and whole seconds; a negative one wraps
      around 64 bits. */
  lemma ElapsedFlags(c: char, msg: Message, tm: Tm)
    requires -0x8000_0000_0000_0000 <= msg.elapsed < 0x8000_0000_0000_0000
    requires c == 'u' || c == 'i' || c == 'o' || c == 'O'
    ensures Numeral(Printed(c, msg, tm), LowBits(InUnits(msg.elapsed, ElapsedUnit(c)), 0x1_0000_0000_0000_0000), 6)
  {
    OneFlag(c, msg, tm);
    ElapsedInRange(c, msg.elapsed);
    ElapsedIsRead(ElapsedUnits(c, msg.elapsed), Printed(c, msg, tm));
  }

  // ---------------------------------------------------------------- sources

  /** The name without its folders. */
  ghost predicate IsBasename(b: string, path: string) {
    '/' !in b && (path == b || exists folder :: path == folder + "/" + b)
  }

  lemma {:induction false} BasenameFound(path: string)
    ensures IsBasename(Basename(path), path)
  {
    if '/' in path {
      BasenameFound(path[1..]);
      var b := Basename(path[1..]);
      if path[1..] == b {
        assert path == [] + "/" + b;
      } else {
        var folder :| path[1..] == folder + "/" + b;
        assert path == ([path[0]] + folder) + "/" + b;
      }
    }
  }

  ghost predicate Located(s: string, path: string, line: int) {
    exists n :: Numeral(n, line, 1) && s == path + ":" + n
  }

  /** The place a message comes from; nothing without a line. */
  ghost predicate SourceRead(c: char, s: string, src: Source) {
    if src.line == 0 then s == ""
    else
      && (c == 'g' ==> s == src.filename) && (c == '!' ==> s == src.funcname)
      && (c == 's' ==> IsBasename(s, src.filename)) && (c == '#' ==> Numeral(s, src.line, 1))
      && (c == '@' ==> Located(s, src.filename, src.line))
  }

  lemma SourceText(c: char, src: Source)
    requires IsSourceFlag(c) && src.line != 0
    ensures SourceRead(c, SourceField(c, src).text, src)
  {
    BasenameFound(src.filename);
    AppendIntIsNumeral(src.line);
    assert Located(src.filename + ":" + AppendInt(src.line), src.filename, src.line);
  }

  lemma SourceFlags(c: char, msg: Message, tm: Tm)
    requires c in SOURCE_LETTERS
    ensures SourceRead(c, Printed(c, msg, tm), msg.source)
  {
    OneFlag(c, msg, tm);
    if msg.source.line != 0 { SourceText(c, msg.source); }
  }
}
