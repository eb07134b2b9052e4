/** The text of each pattern flag, with the size it passes to the padder. */
module Flags {
  import opened Decimal
  import opened Truncation
  import IntegerWriter

  /** A broken-down time; the month and the weekday are used as indices. */
  datatype BrokenDown = BrokenDown(sec: int, min: int, hour: int, mday: int, mon: int, year: int, wday: int,
                                   gmtoff: int)

  type Tm = t: BrokenDown | 0 <= t.mon < 12 && 0 <= t.wday < 7 witness ZERO_TM

  const ZERO_TM := BrokenDown(0, 0, 0, 0, 0, 0, 0, 0)

  datatype Source = Source(filename: string, line: int, funcname: string)

  datatype Level = Trace | Debug | Info | Warning | Error | Critical | Off

  /** Time in nanoseconds since the epoch; `elapsed` is the time since the previous message. */
  datatype Message = Message(
    name: string, level: Level, time: int, elapsed: int, thread: nat, pid: nat, source: Source, payload: string)

  /** What a flag prints: nothing at all, or a text together with the size its padder is told. */
  datatype Field = Nothing | Field(size: nat, text: string)

  function Exactly(text: string): Field { Field(|text|, text) }

  // ---------------------------------------------------------------- numbers

  function Unsigned32(a: int): nat { a % 0x1_0000_0000 }

  function Unsigned64(a: int): nat { a % 0x1_0000_0000_0000_0000 }

  function AppendInt(n: int): (s: string)
    ensures n >= 0 ==> s == Digits(n)
  {
    IntegerWriter.SignedText(n)
  }

  function Pad2(n: int): string {
    if n > 99 then AppendInt(n)
    else if n > 9 then [DigitChar(n / 10), DigitChar(n % 10)]
    else if n >= 0 then ['0', DigitChar(n)]
    else AppendInt(n)
  }

  function PadUint(n: nat, width: nat): string {
    seq(if width > |Digits(n)| then width - |Digits(n)| else 0, _ => '0') + Digits(n)
  }

  function Seconds(time: int): int { Quotient(time, 1000000000) }

  /** The part of a second, in units of `unit` nanoseconds. */
  function Fraction(time: int, unit: int): int
    requires unit > 0
  {
    Quotient(time, unit) - Quotient(Seconds(time) * 1000000000, unit)
  }

  // ---------------------------------------------------------------- names

  const LEVELS := ["trace", "debug", "info", "warning", "error", "critical", "off"]
  const SHORT_LEVELS := ["T", "D", "I", "W", "E", "C", "O"]
  const DAYS := ["Sun", "Mon", "Tue", "Wed", "Thu", "Fri", "Sat"]
  const FULL_DAYS := ["Sunday", "Monday", "Tuesday", "Wednesday", "Thursday", "Friday", "Saturday"]
  const MONTHS := ["Jan", "Feb", "Mar", "Apr", "May", "Jun", "Jul", "Aug", "Sept", "Oct", "Nov", "Dec"]
  const FULL_MONTHS := ["January", "February", "March", "April", "May", "June", "July", "August", "September",
                        "October", "November", "December"]

  function LevelIndex(l: Level): (i: nat)
    ensures i < 7
  {
    match l
    case Trace => 0
    case Debug => 1
    case Info => 2
    case Warning => 3
    case Error => 4
    case Critical => 5
    case Off => 6
  }

  function AmPm(tm: Tm): string { if tm.hour >= 12 then "PM" else "AM" }

  function To12h(tm: Tm): int { if tm.hour > 12 then tm.hour - 12 else tm.hour }

  /** What follows the last folder separator. */
  function Basename(s: string): string {
    if '/' in s then Basename(s[1..]) else s
  }

  // ---------------------------------------------------------------- flags

  predicate IsNameFlag(c: char) {
    c == 'n' || c == 'l' || c == 'L' || c == 'v' || c == 'a' || c == 'A' || c == 'b' || c == 'h' || c == 'B'
    || c == 't' || c == 'P' || c == 'p'
  }

  predicate IsSourceFlag(c: char) { c == '@' || c == 's' || c == 'g' || c == '#' || c == '!' }

  predicate IsClockFlag(c: char) {
    c == 'C' || c == 'Y' || c == 'm' || c == 'd' || c == 'H' || c == 'I' || c == 'M' || c == 'S' || IsLongClockFlag(c)
  }

  predicate IsLongClockFlag(c: char) {
    c == 'c' || c == 'D' || c == 'x' || c == 'r' || c == 'R' || c == 'T' || c == 'X' || c == 'z'
  }

  predicate IsFractionFlag(c: char) { c == 'e' || c == 'f' || c == 'F' || c == 'E' }

  predicate IsElapsedFlag(c: char) { c == 'u' || c == 'i' || c == 'o' || c == 'O' }

  /** The flags that print a padded field. */
  predicate IsFieldFlag(c: char) {
    IsNameFlag(c) || IsSourceFlag(c) || IsClockFlag(c) || IsFractionFlag(c) || IsElapsedFlag(c)
  }

  function NameText(c: char, msg: Message, tm: Tm): string
    requires IsNameFlag(c)
  {
    match c
    case 'n' => msg.name
    case 'l' => LEVELS[LevelIndex(msg.level)]
    case 'L' => SHORT_LEVELS[LevelIndex(msg.level)]
    case 'v' => msg.payload
    case 'a' => DAYS[tm.wday]
    case 'A' => FULL_DAYS[tm.wday]
    case 'b' => MONTHS[tm.mon]
    case 'h' => MONTHS[tm.mon]
    case 'B' => FULL_MONTHS[tm.mon]
    case 't' => Digits(msg.thread)
    case 'P' => Digits(msg.pid)
    case _ => AmPm(tm)
  }

  /** A message without a source line prints none of these, and no padding either. */
  function SourceField(c: char, src: Source): Field
    requires IsSourceFlag(c)
  {
    if src.line == 0 then Nothing
    else match c
      case '@' => Field(|src.filename| + |Digits(Unsigned32(src.line))| + 1, src.filename + ":" + AppendInt(src.line))
      case 's' => Exactly(Basename(src.filename))
      case 'g' => Exactly(src.filename)
      case '#' => Field(|Digits(Unsigned32(src.line))|, AppendInt(src.line))
      case _ => Exactly(src.funcname)
  }

  function ClockField(c: char, tm: Tm): Field
    requires IsClockFlag(c)
  {
    match c
    case 'C' => Field(2, Pad2(Remainder(tm.year, 100)))
    case 'Y' => Field(4, AppendInt(tm.year + 1900))
    case 'm' => Field(2, Pad2(tm.mon + 1))
    case 'd' => Field(2, Pad2(tm.mday))
    case 'H' => Field(2, Pad2(tm.hour))
    case 'I' => Field(2, Pad2(To12h(tm)))
    case 'M' => Field(2, Pad2(tm.min))
    case 'S' => Field(2, Pad2(tm.sec))
    case _ => LongClockField(c, tm)
  }

  function Time(tm: Tm): string { Pad2(tm.hour) + ":" + Pad2(tm.min) + ":" + Pad2(tm.sec) }

  function LongClockField(c: char, tm: Tm): Field
    requires IsLongClockFlag(c)
  {
    match c
    case 'c' => Field(24, DAYS[tm.wday] + " " + MONTHS[tm.mon] + " " + AppendInt(tm.mday) + " " + Time(tm) + " "
                          + AppendInt(tm.year + 1900))
    case 'D' => Field(10, Date(tm))
    case 'x' => Field(10, Date(tm))
    case 'r' => Field(11, Pad2(To12h(tm)) + ":" + Pad2(tm.min) + ":" + Pad2(tm.sec) + " " + AmPm(tm))
    case 'R' => Field(5, Pad2(tm.hour) + ":" + Pad2(tm.min))
    case 'z' => Field(6, Offset(Quotient(tm.gmtoff, 60)))
    case _ => Field(8, Time(tm))
  }

  function Date(tm: Tm): string { Pad2(tm.mon + 1) + "/" + Pad2(tm.mday) + "/" + Pad2(Remainder(tm.year, 100)) }

  function Offset(minutes: int): string {
    var m := if minutes < 0 then -minutes else minutes;
    (if minutes < 0 then "-" else "+") + Pad2(m / 60) + ":" + Pad2(m % 60)
  }

  function FractionField(c: char, time: int): Field
    requires IsFractionFlag(c)
  {
    match c
    case 'e' => Field(3, PadUint(Unsigned32(Fraction(time, 1000000)), 3))
    case 'f' => Field(6, PadUint(Unsigned64(Fraction(time, 1000)), 6))
    case 'F' => Field(9, PadUint(Unsigned64(Fraction(time, 1)), 9))
    case _ => Field(10, AppendInt(Seconds(time)))
  }

  function ElapsedUnits(c: char, elapsed: int): int
    requires IsElapsedFlag(c)
  {
    match c
    case 'u' => elapsed
    case 'i' => Quotient(elapsed, 1000)
    case 'o' => Quotient(elapsed, 1000000)
    case _ => Quotient(elapsed, 1000000000)
  }

  function FieldOf(c: char, msg: Message, tm: Tm): Field
    requires IsFieldFlag(c)
  {
    if IsNameFlag(c) then Exactly(NameText(c, msg, tm))
    else if IsSourceFlag(c) then SourceField(c, msg.source)
    else if IsClockFlag(c) then ClockField(c, tm)
    else if IsFractionFlag(c) then FractionField(c, msg.time)
    else Field(6, PadUint(Unsigned64(ElapsedUnits(c, msg.elapsed)), 6))
  }

  // ---------------------------------------------------------------- the default format

  /** Formatted text, and the range of it to be coloured. */
  datatype Out = Out(text: string, rangeStart: nat, rangeEnd: nat)

  function Append(out: Out, s: string): Out { out.(text := out.text + s) }

  /** The part of the default format that depends on the broken-down time only, which is what gets cached. */
  function DatePart(tm: Tm): (s: string)
    ensures s != ""
  {
    "[" + AppendInt(tm.year + 1900) + "-" + Pad2(tm.mon + 1) + "-" + Pad2(tm.mday) + " " + Time(tm) + "."
  }

  /** The rest of the default format; the level is coloured. */
  function AfterDate(msg: Message, out: Out): Out {
    var head := out.text + PadUint(Unsigned32(Fraction(msg.time, 1000000)), 3) + "] "
                + (if msg.name != "" then "[" + msg.name + "] " else "") + "[";
    var level := LEVELS[LevelIndex(msg.level)];
    var source := if msg.source.line == 0 then ""
                  else "[" + Basename(msg.source.filename) + ":" + AppendInt(msg.source.line) + "] ";
    Out(head + level + "] " + source + msg.payload, |head|, |head| + |level|)
  }

  function Full(msg: Message, tm: Tm, out: Out): Out {
    AfterDate(msg, Append(out, DatePart(tm)))
  }
}
