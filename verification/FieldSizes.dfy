/** Which flags tell the padder the true size of their text. */
module FieldSizes {
  import opened Decimal
  import opened Flags
  import opened Truncation

  predicate TellsTrueSize(f: Field) { f.Nothing? || f.size == |f.text| }

  // ---------------------------------------------------------------- lengths of numbers

  /** The characters of a printed integer. */
  function IntLength(n: int): nat {
    if n < 0 then 1 + NumDigits(-n) else NumDigits(n)
  }

  /** The characters of an integer padded to two: at least two, and two from -9 to 99. */
  function PadLength(n: int): nat {
    if Fits2(n) then 2 else IntLength(n)
  }

  predicate Fits2(n: int) { -9 <= n <= 99 }

  /** The characters of an integer by its range; 7 stands for seven or more. */
  function Chars(n: int): nat {
    if 0 <= n <= 9 then 1
    else if -9 <= n <= 99 then 2
    else if -99 <= n <= 999 then 3
    else if -999 <= n <= 9999 then 4
    else if -9999 <= n <= 99999 then 5
    else if -99999 <= n <= 999999 then 6
    else 7
  }

  function Cell(n: int): nat {
    if Fits2(n) then 2 else Chars(n)
  }

  lemma DigitsByRange(m: nat)
    ensures (NumDigits(m) <= 1 <==> m <= 9) && (NumDigits(m) <= 2 <==> m <= 99) && (NumDigits(m) <= 3 <==> m <= 999)
    ensures (NumDigits(m) <= 4 <==> m <= 9999) && (NumDigits(m) <= 5 <==> m <= 99999)
    ensures NumDigits(m) <= 6 <==> m <= 999999
  {
    Pow10Literals();
    NumDigitsFit(m, 1);
    NumDigitsFit(m, 2);
    NumDigitsFit(m, 3);
    NumDigitsFit(m, 4);
    NumDigitsFit(m, 5);
    NumDigitsFit(m, 6);
  }

  predicate Same(chars: nat, length: nat) { if chars == 7 then length >= 7 else length == chars }

  lemma CharsByRange(n: int)
    ensures Same(Chars(n), IntLength(n)) && Same(Cell(n), PadLength(n))
    ensures Chars(n) >= 1 && Cell(n) >= 2
  {
    var m := if n < 0 then -n else n;
    DigitsByRange(m);
    assert NumDigits(m) >= 1;
  }

  lemma AppendIntLength(n: int)
    ensures |AppendInt(n)| == IntLength(n)
  {
    DigitsReadBack(if n < 0 then -n else n);
  }

  lemma Pad2Length(n: int)
    ensures |Pad2(n)| == PadLength(n) && (PadLength(n) == 2 <==> Fits2(n)) && PadLength(n) >= 2
  {
    AppendIntLength(n);
    Pow10Literals();
    NumDigitsFit(if n < 0 then -n else n, 1);
    NumDigitsFit(if n < 0 then -n else n, 2);
  }

  lemma PadUintLength(n: nat, w: nat)
    requires w > 0
    ensures |PadUint(n, w)| == w <==> n < Pow10(w)
  {
    DigitsReadBack(n);
    NumDigitsFit(n, w);
  }

  // ---------------------------------------------------------------- sources

  /** A line number is counted as an unsigned one, which has ten digits when the line is negative. */
  lemma LineLength(line: int)
    requires -0x8000_0000 <= line < 0x8000_0000
    ensures |Digits(Unsigned32(line))| == |AppendInt(line)| <==> line >= 0 || 100000000 <= -line < 1000000000
  {
    AppendIntLength(line);
    DigitsReadBack(Unsigned32(line));
    if line < 0 {
      NegativeLine(line);
      Pow10Literals();
      NumDigitsFit(-line, 8);
      NumDigitsFit(-line, 9);
    } else {
      assert Unsigned32(line) == line;
    }
  }

  lemma NegativeLine(line: int)
    requires -0x8000_0000 <= line < 0
    ensures NumDigits(Unsigned32(line)) == 10
  {
    Pow10Literals();
    NumDigitsFit(Unsigned32(line), 9);
    NumDigitsFit(Unsigned32(line), 10);
  }

  lemma SourceSizes(c: char, src: Source)
    requires IsSourceFlag(c) && -0x8000_0000 <= src.line < 0x8000_0000
    ensures TellsTrueSize(SourceField(c, src))
            <==> ((c == '@' || c == '#') ==> src.line >= 0 || 100000000 <= -src.line < 1000000000)
  {
    LineLength(src.line);
  }

  // ---------------------------------------------------------------- dates and times

  /** Exactly when a clock flag tells the true size, for any broken-down time. */
  predicate ClockCondition(c: char, tm: Tm)
    requires IsClockFlag(c)
  {
    match c
    case 'C' => ShortYear(tm.year)
    case 'Y' => 1000 <= tm.year + 1900 <= 9999 || -999 <= tm.year + 1900 <= -100
    case 'm' => true
    case 'd' => Fits2(tm.mday)
    case 'H' => Fits2(tm.hour)
    case 'I' => -9 <= tm.hour <= 111
    case 'M' => Fits2(tm.min)
    case 'S' => Fits2(tm.sec)
    case _ => LongClockCondition(c, tm)
  }

  /** The year of the century has two characters: no sign in front of two digits. */
  predicate ShortYear(year: int) { year >= 0 || -year % 100 < 10 }

  /** The other cell of the date makes up for a year of the century that is too long, and the reverse. */
  predicate DateCondition(tm: Tm) {
    if ShortYear(tm.year) then 1000 <= tm.mday <= 9999 || -999 <= tm.mday <= -100
    else 100 <= tm.mday <= 999 || -99 <= tm.mday <= -10
  }

  /** Of the 24 characters of `%c`, nine do not vary. */
  predicate CFormatCondition(mon: nat, mday: int, hour: int, min: int, sec: int, year: int) {
    (if mon == 8 then 4 else 3) + Chars(mday) + Cell(hour) + Cell(min) + Cell(sec) + Chars(year) == 15
  }

  predicate LongClockCondition(c: char, tm: Tm)
    requires IsLongClockFlag(c)
  {
    match c
    case 'c' => CFormatCondition(tm.mon, tm.mday, tm.hour, tm.min, tm.sec, tm.year + 1900)
    case 'D' => DateCondition(tm)
    case 'x' => DateCondition(tm)
    case 'r' => -9 <= tm.hour <= 111 && Fits2(tm.min) && Fits2(tm.sec)
    case 'R' => Fits2(tm.hour) && Fits2(tm.min)
    case 'z' => -360000 < tm.gmtoff < 360000
    case _ => Fits2(tm.hour) && Fits2(tm.min) && Fits2(tm.sec)
  }

  lemma YearLength(y: int)
    ensures IntLength(y) == 4 <==> 1000 <= y <= 9999 || -999 <= y <= -100
  {
    DigitsByRange(if y < 0 then -y else y);
  }

  lemma TimeLength(tm: Tm)
    ensures |Time(tm)| == PadLength(tm.hour) + PadLength(tm.min) + PadLength(tm.sec) + 2
  {
    Pad2Length(tm.hour);
    Pad2Length(tm.min);
    Pad2Length(tm.sec);
  }

  lemma DateLength(tm: Tm)
    ensures |Date(tm)| == 10 <==> DateCondition(tm)
  {
    var y := Remainder(tm.year, 100);
    Pad2Length(tm.mon + 1);
    Pad2Length(tm.mday);
    Pad2Length(y);
    YearOfCentury(tm.year);
    CharsByRange(y);
    CharsByRange(tm.mday);
  }

  lemma YearOfCentury(year: int)
    ensures Remainder(year, 100) == if year >= 0 then year % 100 else -(-year % 100)
    ensures ShortYear(year) <==> Fits2(Remainder(year, 100))
  {}

  lemma OffsetLength(minutes: int)
    ensures |Offset(minutes)| == 6 <==> -6000 < minutes < 6000
  {
    var m := if minutes < 0 then -minutes else minutes;
    Pad2Length(m / 60);
    Pad2Length(m % 60);
  }

  lemma CFormatLength(tm: Tm)
    ensures |LongClockField('c', tm).text|
            == 9 + (if tm.mon == 8 then 4 else 3) + IntLength(tm.mday) + PadLength(tm.hour) + PadLength(tm.min)
               + PadLength(tm.sec) + IntLength(tm.year + 1900)
  {
    AppendIntLength(tm.mday);
    AppendIntLength(tm.year + 1900);
    TimeLength(tm);
    assert |DAYS[tm.wday]| == 3;
    assert |MONTHS[tm.mon]| == if tm.mon == 8 then 4 else 3;
  }

  lemma CFormatSum(mon: nat, mday: int, hour: int, min: int, sec: int, year: int)
    ensures CFormatCondition(mon, mday, hour, min, sec, year)
            <==> 9 + (if mon == 8 then 4 else 3) + IntLength(mday) + PadLength(hour) + PadLength(min) + PadLength(sec)
                 + IntLength(year) == 24
  {
    CharsByRange(mday);
    CharsByRange(hour);
    CharsByRange(min);
    CharsByRange(sec);
    CharsByRange(year);
  }

  lemma LongClockSizes(c: char, tm: Tm)
    requires IsLongClockFlag(c)
    ensures TellsTrueSize(LongClockField(c, tm)) <==> LongClockCondition(c, tm)
  {
    if c == 'c' {
      CFormatLength(tm);
      CFormatSum(tm.mon, tm.mday, tm.hour, tm.min, tm.sec, tm.year + 1900);
    } else if c == 'D' || c == 'x' {
      DateLength(tm);
    } else if c == 'z' {
      OffsetLength(Quotient(tm.gmtoff, 60));
    } else {
      Pad2Length(To12h(tm));
      Pad2Length(tm.hour);
      Pad2Length(tm.min);
      Pad2Length(tm.sec);
    }
  }

  lemma ClockSizes(c: char, tm: Tm)
    requires IsClockFlag(c)
    ensures TellsTrueSize(ClockField(c, tm)) <==> ClockCondition(c, tm)
  {
    if IsLongClockFlag(c) { LongClockSizes(c, tm); }
    else if c == 'Y' {
      AppendIntLength(tm.year + 1900);
      YearLength(tm.year + 1900);
    } else {
      ShortClockSizes(c, tm);
    }
  }

  lemma ShortClockSizes(c: char, tm: Tm)
    requires IsClockFlag(c) && !IsLongClockFlag(c) && c != 'Y'
    ensures TellsTrueSize(ClockField(c, tm)) <==> ClockCondition(c, tm)
  {
    Pad2Length(Remainder(tm.year, 100));
    YearOfCentury(tm.year);
    Pad2Length(tm.mon + 1);
    Pad2Length(tm.mday);
    Pad2Length(tm.hour);
    Pad2Length(To12h(tm));
    Pad2Length(tm.min);
    Pad2Length(tm.sec);
  }

  // ---------------------------------------------------------------- fractions of a second

  // The parts of a time in units of a thousandth, a millionth and a billionth of a second.
  lemma FractionParts(t: nat)
    ensures t / 1000000 - t / 1000000000 * 1000 == t % 1000000000 / 1000000
    ensures t / 1000 - t / 1000000000 * 1000000 == t % 1000000000 / 1000
  {
    var s, r := t / 1000000000, t % 1000000000;
    assert t == s * 1000000000 + r;
    assert t / 1000000 == s * 1000 + r / 1000000;
    assert t / 1000 == s * 1000000 + r / 1000;
  }

  /** A part of a second is below a second, on either side of the epoch, and negative only in whole units. */
  lemma FractionInRange(time: int)
    ensures -1000 < Fraction(time, 1000000) < 1000 && -1000000 < Fraction(time, 1000) < 1000000
    ensures -1000000000 < Fraction(time, 1) < 1000000000
    ensures Fraction(time, 1000000) >= 0 <==> time >= 0 || -time % 1000000000 < 1000000
    ensures Fraction(time, 1000) >= 0 <==> time >= 0 || -time % 1000000000 < 1000
    ensures Fraction(time, 1) >= 0 <==> time >= 0 || -time % 1000000000 == 0
  {
    Milliseconds(time);
    Microseconds(time);
  }

  lemma Milliseconds(time: int)
    ensures -1000 < Fraction(time, 1000000) < 1000
    ensures Fraction(time, 1000000) >= 0 <==> time >= 0 || -time % 1000000000 < 1000000
  {
    FractionParts(if time < 0 then -time else time);
  }

  lemma Microseconds(time: int)
    ensures -1000000 < Fraction(time, 1000) < 1000000
    ensures Fraction(time, 1000) >= 0 <==> time >= 0 || -time % 1000000000 < 1000
  {
    FractionParts(if time < 0 then -time else time);
  }

  lemma FixedWidth32(n: int)
    requires -1000 < n < 1000
    ensures |PadUint(Unsigned32(n), 3)| == 3 <==> n >= 0
  {
    Pow10Literals();
    PadUintLength(Unsigned32(n), 3);
  }

  // A number of at most w digits, or one so large that w are too few.
  lemma FixedWidth(n: int, m: nat, w: nat)
    requires 0 < w <= 9 && n < Pow10(w) && if n >= 0 then m == n else m >= 1000000000
    ensures |PadUint(m, w)| == w <==> n >= 0
  {
    PadUintLength(m, w);
    Pow10Literals();
    Pow10Monotone(w, 9);
  }

  lemma Wrapped64(n: int)
    requires -1000000000 < n < 1000000000
    ensures n >= 0 ==> Unsigned64(n) == n
    ensures n < 0 ==> Unsigned64(n) >= 1000000000
  {}

  lemma FixedWidth64(n: int, w: nat)
    requires 0 < w <= 9 && -1000000000 < n < Pow10(w) && n < 1000000000
    ensures |PadUint(Unsigned64(n), w)| == w <==> n >= 0
  {
    Wrapped64(n);
    FixedWidth(n, Unsigned64(n), w);
  }

  lemma SecondsLength(n: int)
    ensures |AppendInt(n)| == 10 <==> 1000000000 <= n < 10000000000 || -1000000000 < n <= -100000000
  {
    AppendIntLength(n);
    Pow10Literals();
    var m := if n < 0 then -n else n;
    NumDigitsFit(m, 8);
    NumDigitsFit(m, 9);
    NumDigitsFit(m, 10);
  }

  /** Exactly when a fraction of a second, or the seconds since the epoch, have the size told. */
  predicate FractionCondition(c: char, time: int)
    requires IsFractionFlag(c)
  {
    match c
    case 'e' => time >= 0 || -time % 1000000000 < 1000000
    case 'f' => time >= 0 || -time % 1000000000 < 1000
    case 'F' => time >= 0 || -time % 1000000000 == 0
    case _ => 1000000000 <= Seconds(time) < 10000000000 || -1000000000 < Seconds(time) <= -100000000
  }

  lemma FractionSizes(c: char, time: int)
    requires IsFractionFlag(c)
    ensures TellsTrueSize(FractionField(c, time)) <==> FractionCondition(c, time)
  {
    if c == 'E' {
      SecondsLength(Seconds(time));
    } else {
      FractionInRange(time);
      if c == 'e' { FixedWidth32(Fraction(time, 1000000)); }
      else if c == 'f' { FixedWidth64(Fraction(time, 1000), 6); }
      else { FixedWidth64(Fraction(time, 1), 9); }
    }
  }

  lemma ElapsedSize(n: nat)
    ensures |PadUint(n, 6)| == 6 <==> n < 1000000
  {
    Pow10Literals();
    PadUintLength(n, 6);
  }

  // ---------------------------------------------------------------- all flags

  predicate TrueSizeCondition(c: char, msg: Message, tm: Tm)
    requires IsFieldFlag(c)
  {
    if IsNameFlag(c) then true
    else if IsSourceFlag(c) then
      (c == '@' || c == '#') ==> msg.source.line >= 0 || 100000000 <= -msg.source.line < 1000000000
    else if IsClockFlag(c) then ClockCondition(c, tm)
    else if IsFractionFlag(c) then FractionCondition(c, msg.time)
    else Unsigned64(ElapsedUnits(c, msg.elapsed)) < 1000000
  }

  /** Exactly when a flag tells the padder the true size of its text, for every message and every
      broken-down time. */
  lemma WhoTellsTrueSize(c: char, msg: Message, tm: Tm)
    requires IsFieldFlag(c) && -0x8000_0000 <= msg.source.line < 0x8000_0000
    ensures TellsTrueSize(FieldOf(c, msg, tm)) <==> TrueSizeCondition(c, msg, tm)
  {
    if IsNameFlag(c) {
    } else if IsSourceFlag(c) {
      SourceSizes(c, msg.source);
    } else if IsClockFlag(c) {
      ClockSizes(c, tm);
    } else if IsFractionFlag(c) {
      FractionSizes(c, msg.time);
    } else {
      ElapsedSize(Unsigned64(ElapsedUnits(c, msg.elapsed)));
    }
  }

  /** A time after the epoch with a broken-down time in the usual ranges, and a line that is not negative. */
  predicate Ordinary(msg: Message, tm: Tm) {
    && 0 <= tm.sec <= 60 && 0 <= tm.min < 60 && 0 <= tm.hour < 24 && 1 <= tm.mday <= 31
    && 0 <= tm.year <= 8099 && -360000 < tm.gmtoff < 360000
    && 0 <= msg.time && Seconds(msg.time) < 10000000000
    && 0 <= msg.source.line < 0x8000_0000
  }

  /** For ordinary messages: `%D` and `%x` never tell the true size; `%c` does only on a two-digit day,
      except in September, whose short name has four letters, only on a one-digit day; `%E` does only from
      the second 1000000000 on; an elapsed time only below a million units; all other flags always do. */
  lemma OrdinarySizes(c: char, msg: Message, tm: Tm)
    requires IsFieldFlag(c) && Ordinary(msg, tm)
    ensures TellsTrueSize(FieldOf(c, msg, tm)) <==>
            && c != 'D' && c != 'x'
            && (c == 'c' ==> (tm.mon == 8 <==> tm.mday < 10))
            && (c == 'E' ==> Seconds(msg.time) >= 1000000000)
            && (IsElapsedFlag(c) ==> Unsigned64(ElapsedUnits(c, msg.elapsed)) < 1000000)
  {
    WhoTellsTrueSize(c, msg, tm);
    if IsClockFlag(c) { OrdinaryClock(c, tm); }
    FractionInRange(msg.time);
  }

  lemma OrdinaryClock(c: char, tm: Tm)
    requires IsClockFlag(c)
    requires 0 <= tm.sec <= 60 && 0 <= tm.min < 60 && 0 <= tm.hour < 24 && 1 <= tm.mday <= 31
    requires 0 <= tm.year <= 8099 && -360000 < tm.gmtoff < 360000
    ensures ClockCondition(c, tm) <==> c != 'D' && c != 'x' && (c == 'c' ==> (tm.mon == 8 <==> tm.mday < 10))
  {
  }
}
