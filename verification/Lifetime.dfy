/** Time-span options: the access-token lifetime and the logout marker that outlives it. */
module Lifetime {
  import opened Strings

  /** A JavaScript number that is finite or NaN. */
  datatype Seconds = Finite(value: real) | NotANumber

  const TOKEN_EPOCH_RETENTION_SECONDS := 2_592_000.0
  const LOGOUT_PENDING_MIN_TTL_SECONDS := 300.0
  const DEFAULT_ACCESS_EXPIRES_IN := "15m"

  predicate IsMillisecond(u: string) {
    u == "ms" || u == "msec" || u == "msecs" || u == "millisecond" || u == "milliseconds"
  }

  predicate IsSecond(u: string) {
    u == "s" || u == "sec" || u == "secs" || u == "second" || u == "seconds"
  }

  predicate IsMinute(u: string) {
    u == "m" || u == "min" || u == "mins" || u == "minute" || u == "minutes"
  }

  predicate IsHour(u: string) {
    u == "h" || u == "hr" || u == "hrs" || u == "hour" || u == "hours"
  }

  predicate IsDay(u: string) {
    u == "d" || u == "day" || u == "days"
  }

  predicate IsWeek(u: string) {
    u == "w" || u == "week" || u == "weeks"
  }

  predicate IsYear(u: string) {
    u == "y" || u == "yr" || u == "yrs" || u == "year" || u == "years"
  }

  /** Seconds per listed unit. */
  function UnitSeconds(unit: string): Option<real> {
    if IsMillisecond(unit) then Some(0.001)
    else if IsSecond(unit) then Some(1.0)
    else if IsMinute(unit) then Some(60.0)
    else if IsHour(unit) then Some(3_600.0)
    else if IsDay(unit) then Some(86_400.0)
    else if IsWeek(unit) then Some(604_800.0)
    else if IsYear(unit) then Some(31_557_600.0)
    else None
  }

  /** The lower-case names that every object literal inherits: looking one up is not undefined. */
  predicate IsInherited(unit: string) {
    unit == "constructor" || unit == "__proto__"
  }

  /** Lower-casing as far as it can reach the unit table: ASCII, and the Kelvin sign. */
  function LowerChar(c: char): char {
    if c == '\U{212A}' then 'k' else AsciiLowerChar(c)
  }

  function Lower(s: string): (t: string)
    ensures |t| == |s|
  {
    seq(|s|, i requires 0 <= i < |s| => LowerChar(s[i]))
  }

  predicate InAmountRun(c: char) {
    IsDigit(c) || c == '.' || IsSpace(c)
  }

  /** What is left after the leading digits, points and spaces are stripped. */
  function AfterRun(s: string): (rest: string)
    ensures |rest| <= |s|
  {
    if s != [] && InAmountRun(s[0]) then AfterRun(s[1..]) else s
  }

  function DigitCount(s: string): (n: nat)
    ensures n <= |s| && AllDigits(s[..n])
    ensures n < |s| ==> !IsDigit(s[n])
  {
    if s != [] && IsDigit(s[0]) then
      var n := DigitCount(s[1..]);
      assert s[..n + 1] == [s[0]] + s[1..][..n];
      n + 1
    else 0
  }

  /** The value of the digits after a decimal point. */
  function Fraction(digits: string): (r: real)
    requires AllDigits(digits)
    ensures 0.0 <= r < 1.0
  {
    if digits == [] then 0.0
    else ((digits[0] - '0') as int as real + Fraction(digits[1..])) / 10.0
  }

  /**
   * `parseFloat` of the longest decimal literal at the start. A sign, an exponent or `Infinity`
   * would begin the unit, and no listed or inherited unit begins that way.
   */
  function Amount(s: string): Option<real> {
    var whole := DigitCount(s);
    var rest := s[whole..];
    var places := if rest != [] && rest[0] == '.' then DigitCount(rest[1..]) else 0;
    if whole + places == 0 then None
    else Some(DecimalValue(s[..whole]) as real + (if places == 0 then 0.0 else Fraction(rest[1..][..places])))
  }

  function Times(a: real, b: real): real {
    a * b
  }

  function DurationToSeconds(value: string): Option<Seconds> {
    var trimmed := Trim(value);
    var unit := Lower(AfterRun(trimmed));
    var amount := Amount(trimmed);
    if amount.None? || amount.value <= 0.0 then None
    else if UnitSeconds(unit).Some? then Some(Finite(Times(amount.value, UnitSeconds(unit).value)))
    else if IsInherited(unit) then Some(NotANumber)
    else None
  }

  /** The start-up bound: malformed and too long are refused. Every comparison with NaN is false. */
  predicate LifetimeAccepted(accessExpiresIn: Option<string>) {
    var seconds := DurationToSeconds(accessExpiresIn.GetOr(DEFAULT_ACCESS_EXPIRES_IN));
    seconds.Some? && (seconds.value.Finite? ==> seconds.value.value <= TOKEN_EPOCH_RETENTION_SECONDS)
  }

  function Ceil(r: real): int {
    -((-r).Floor)
  }

  function LogoutPendingTtlSeconds(accessExpiresIn: Option<string>): Seconds {
    var lifetime := if accessExpiresIn.None? then None else DurationToSeconds(accessExpiresIn.value);
    match lifetime.GetOr(Finite(0.0))
    case NotANumber => NotANumber
    case Finite(r) =>
      if LOGOUT_PENDING_MIN_TTL_SECONDS < Ceil(r) as real then Finite(Ceil(r) as real)
      else Finite(LOGOUT_PENDING_MIN_TTL_SECONDS)
  }

  // ---- reading back what a person writes ----

  predicate IsRun(s: string) {
    forall i :: 0 <= i < |s| ==> InAmountRun(s[i])
  }

  /** A printed amount: digits, and a point with more digits when there is a fraction. */
  function Printed(whole: string, fraction: string): string {
    if fraction == "" then whole else whole + "." + fraction
  }

  /** What every listed name looks like: it starts with one of six letters and ends with a letter. */
  predicate IsWord(u: string) {
    && u != ""
    && (u[0] == 'm' || u[0] == 's' || u[0] == 'h' || u[0] == 'd' || u[0] == 'w' || u[0] == 'y')
    && 'a' <= u[|u| - 1] <= 'z'
  }

  lemma ShortNamesAreWords(u: string)
    requires IsMillisecond(u) || IsSecond(u)
    ensures IsWord(u)
  {
  }

  lemma MiddleNamesAreWords(u: string)
    requires IsMinute(u) || IsHour(u)
    ensures IsWord(u)
  {
  }

  lemma LongNamesAreWords(u: string)
    requires IsDay(u) || IsWeek(u) || IsYear(u)
    ensures IsWord(u)
  {
  }

  lemma UnitShape(u: string)
    requires UnitSeconds(u).Some?
    ensures IsWord(u) && UnitSeconds(u).value > 0.0
  {
    hide IsMillisecond, IsSecond, IsMinute, IsHour, IsDay, IsWeek, IsYear, IsWord;
    if IsMillisecond(u) || IsSecond(u) {
      ShortNamesAreWords(u);
    } else if IsMinute(u) || IsHour(u) {
      MiddleNamesAreWords(u);
    } else {
      LongNamesAreWords(u);
    }
  }

  lemma WordsAreNotInherited(u: string)
    requires IsWord(u)
    ensures !IsInherited(u)
  {
    assert "constructor"[0] == 'c' && "__proto__"[0] == '_';
  }

  lemma LowerKeepsTheRun(c: char)
    ensures InAmountRun(c) ==> LowerChar(c) == c
  {
  }

  lemma LettersAreNotInTheRun(c: char)
    requires 'a' <= c <= 'z'
    ensures !InAmountRun(c)
  {
  }

  lemma LoweredShape(unit: string)
    requires UnitSeconds(Lower(unit)).Some?
    ensures unit != "" && !InAmountRun(unit[0]) && !IsSpace(unit[|unit| - 1])
  {
    UnitShape(Lower(unit));
    hide UnitSeconds;
    assert Lower(unit)[0] == LowerChar(unit[0]);
    assert Lower(unit)[|unit| - 1] == LowerChar(unit[|unit| - 1]);
    LowerKeepsTheRun(unit[0]);
    LowerKeepsTheRun(unit[|unit| - 1]);
    LettersAreNotInTheRun(LowerChar(unit[0]));
    LettersAreNotInTheRun(LowerChar(unit[|unit| - 1]));
  }

  lemma {:induction false} RunIsStripped(run: string, rest: string)
    requires IsRun(run)
    requires rest == "" || !InAmountRun(rest[0])
    ensures AfterRun(run + rest) == rest
  {
    hide InAmountRun;
    if run == "" {
      assert run + rest == rest;
    } else {
      assert (run + rest)[1..] == run[1..] + rest;
      RunIsStripped(run[1..], rest);
    }
  }

  lemma {:induction false} DigitsThen(digits: string, rest: string)
    requires AllDigits(digits)
    requires rest == "" || !IsDigit(rest[0])
    ensures DigitCount(digits + rest) == |digits|
  {
    if digits == "" {
      assert digits + rest == rest;
    } else {
      assert (digits + rest)[1..] == digits[1..] + rest;
      DigitsThen(digits[1..], rest);
    }
  }

  /** What comes after the amount does not carry it on: no digit, and no point with a digit behind it. */
  predicate Ends(fraction: string, tail: string) {
    tail == "" || (!IsDigit(tail[0]) && (fraction != "" || tail[0] != '.' || |tail| == 1 || !IsDigit(tail[1])))
  }

  function AmountOf(whole: string, fraction: string): real
    requires AllDigits(whole) && AllDigits(fraction)
  {
    DecimalValue(whole) as real + Fraction(fraction)
  }

  /** The number of characters `parseFloat` reads, not counting a point that no digit follows. */
  function PrintedLength(s: string): (n: nat)
    ensures n <= |s|
  {
    var whole := DigitCount(s);
    var places := if whole < |s| && s[whole] == '.' then DigitCount(s[whole + 1..]) else 0;
    if places == 0 then whole else whole + 1 + places
  }

  lemma NoFraction()
    ensures Fraction("") == 0.0
  {
  }

  lemma AmountOfWhole(whole: string, tail: string)
    requires AllDigits(whole) && whole != "" && Ends("", tail)
    ensures Amount(whole + tail) == Some(DecimalValue(whole) as real)
    ensures PrintedLength(whole + tail) == |whole|
  {
    hide Fraction, DecimalValue, DigitCount, IsSpace;
    var s := whole + tail;
    DigitsThen(whole, tail);
    assert s[..|whole|] == whole && s[|whole|..] == tail;
    if tail != "" && tail[0] == '.' {
      assert s[|whole| + 1..] == tail[1..] == "" + tail[1..];
      DigitsThen("", tail[1..]);
    }
  }

  lemma AmountWithPoint(whole: string, fraction: string, tail: string)
    requires AllDigits(whole) && AllDigits(fraction) && fraction != "" && Ends(fraction, tail)
    ensures var s := whole + ("." + (fraction + tail));
      Amount(s) == Some(AmountOf(whole, fraction)) && PrintedLength(s) == |whole| + 1 + |fraction|
  {
    hide Fraction, DecimalValue, DigitCount, IsSpace;
    var rest := "." + (fraction + tail);
    var s := whole + rest;
    DigitsThen(whole, rest);
    DigitsThen(fraction, tail);
    assert s[..|whole|] == whole && s[|whole|..] == rest;
    assert rest[1..] == fraction + tail && (fraction + tail)[..|fraction|] == fraction;
    assert s[|whole| + 1..] == fraction + tail;
    hide AllDigits, Ends;
    assert Amount(s) == Some(DecimalValue(s[..|whole|]) as real + Fraction(rest[1..][..|fraction|]));
  }

  lemma AmountOfPrinted(whole: string, fraction: string, tail: string)
    requires AllDigits(whole) && AllDigits(fraction)
    requires whole != "" || fraction != ""
    requires Ends(fraction, tail)
    ensures var s := Printed(whole, fraction) + tail;
      Amount(s) == Some(AmountOf(whole, fraction)) && PrintedLength(s) == |Printed(whole, fraction)|
  {
    NoFraction();
    hide Fraction, DecimalValue, DigitCount, IsSpace, Amount, PrintedLength;
    if fraction == "" {
      AmountOfWhole(whole, tail);
    } else {
      AmountWithPoint(whole, fraction, tail);
      assert Printed(whole, fraction) + tail == whole + ("." + (fraction + tail));
    }
  }

  lemma NotSpace(c: char)
    requires IsDigit(c) || c == '.'
    ensures !IsSpace(c)
  {
  }

  lemma PrintedIsARun(whole: string, fraction: string)
    requires AllDigits(whole) && AllDigits(fraction)
    requires whole != "" || fraction != ""
    ensures Printed(whole, fraction) != "" && IsRun(Printed(whole, fraction))
    ensures !IsSpace(Printed(whole, fraction)[0])
  {
    hide IsSpace;
    NotSpace(Printed(whole, fraction)[0]);
  }

  lemma TailEnds(fraction: string, run: string, unit: string)
    requires Ends(fraction, run)
    requires unit == "" || !InAmountRun(unit[0])
    ensures Ends(fraction, run + unit)
  {
    hide IsSpace;
    var tail := run + unit;
    assert unit == "" ==> tail == run;
    assert run == "" ==> tail == unit;
    assert run != "" ==> tail[0] == run[0];
    assert |run| == 1 && unit != "" ==> tail[1] == unit[0];
    assert |run| > 1 ==> tail[1] == run[1];
  }

  /**
   * How a trimmed text is read: a printed amount, a run of digits, points and spaces that does not
   * carry the amount on, and a unit that begins with something else.
   */
  predicate IsReading(s: string, whole: string, fraction: string, run: string, unit: string) {
    && AllDigits(whole) && AllDigits(fraction) && (whole != "" || fraction != "")
    && IsRun(run) && Ends(fraction, run)
    && (unit == "" || !InAmountRun(unit[0]))
    && s == Printed(whole, fraction) + (run + unit)
  }

  /** What stands between the amount and the unit. */
  function Between(s: string): string {
    var rest := s[PrintedLength(s)..];
    rest[..|rest| - |AfterRun(rest)|]
  }

  lemma ReadingIsUnique(s: string, whole: string, fraction: string, run: string, unit: string)
    requires IsReading(s, whole, fraction, run, unit)
    ensures Amount(s) == Some(AmountOf(whole, fraction)) && Between(s) == run && AfterRun(s) == unit
  {
    hide InAmountRun, Amount, PrintedLength, AfterRun, Ends, Printed, AmountOf, AllDigits;
    var printed := Printed(whole, fraction);
    PrintedIsARun(whole, fraction);
    TailEnds(fraction, run, unit);
    AmountOfPrinted(whole, fraction, run + unit);
    assert s == (printed + run) + unit;
    RunIsStripped(printed + run, unit);
    RunIsStripped(run, unit);
    assert s[|printed|..] == run + unit && (run + unit)[..|run|] == run;
  }

  lemma {:induction false} AfterRunSplits(s: string)
    ensures var k := |s| - |AfterRun(s)|;
      && s == s[..k] + AfterRun(s) && IsRun(s[..k])
      && (AfterRun(s) == "" || !InAmountRun(AfterRun(s)[0]))
  {
    hide InAmountRun;
    if s != "" && InAmountRun(s[0]) {
      AfterRunSplits(s[1..]);
      var k := |s| - |AfterRun(s)|;
      assert s[..k] == [s[0]] + s[1..][..k - 1];
    }
  }

  lemma ReadingOf(s: string, whole: string, fraction: string, run: string, unit: string)
    requires AllDigits(whole) && AllDigits(fraction) && (whole != "" || fraction != "")
    requires IsRun(run) && (unit == "" || !InAmountRun(unit[0]))
    requires Ends(fraction, run + unit)
    requires s == Printed(whole, fraction) + (run + unit)
    ensures IsReading(s, whole, fraction, run, unit)
  {
    hide IsSpace;
    assert run != "" ==> (run + unit)[0] == run[0];
    assert |run| > 1 ==> (run + unit)[1] == run[1];
  }

  lemma AmountIsPrinted(s: string) returns (whole: string, fraction: string, tail: string)
    requires Amount(s).Some?
    ensures AllDigits(whole) && AllDigits(fraction) && (whole != "" || fraction != "")
    ensures Ends(fraction, tail) && s == Printed(whole, fraction) + tail
  {
    hide DigitCount, DecimalValue, Fraction;
    var n := DigitCount(s);
    whole, fraction, tail := s[..n], "", s[n..];
    if n < |s| && s[n] == '.' {
      assert s[n..][1..] == s[n + 1..];
      var places := DigitCount(s[n + 1..]);
      if places > 0 {
        fraction, tail := s[n + 1..][..places], s[n + 1..][places..];
        assert s == whole + "." + fraction + tail;
      } else {
        assert |tail| > 1 ==> tail[1] == s[n + 1..][0];
      }
    }
  }

  /** Wherever there is an amount there is a reading. */
  lemma EveryAmountIsRead(s: string) returns (whole: string, fraction: string, run: string, unit: string)
    requires Amount(s).Some?
    ensures IsReading(s, whole, fraction, run, unit)
  {
    hide InAmountRun, Printed, AfterRun, IsReading;
    var tail: string;
    whole, fraction, tail := AmountIsPrinted(s);
    var printed := Printed(whole, fraction);
    unit := AfterRun(tail);
    run := tail[..|tail| - |unit|];
    AfterRunSplits(tail);
    ReadingOf(s, whole, fraction, run, unit);
  }

  /** What an amount of a unit comes to: a listed unit, or a name that lookup finds on every object. */
  function Worth(amount: real, unit: string): Option<Seconds> {
    if UnitSeconds(Lower(unit)).Some? then Some(Finite(Times(amount, UnitSeconds(Lower(unit)).value)))
    else if IsInherited(Lower(unit)) then Some(NotANumber)
    else None
  }

  lemma DurationOfReading(value: string, whole: string, fraction: string, run: string, unit: string)
    requires IsReading(Trim(value), whole, fraction, run, unit)
    ensures DurationToSeconds(value) ==
      if AmountOf(whole, fraction) > 0.0 then Worth(AmountOf(whole, fraction), unit) else None
  {
    hide UnitSeconds, Trim, Amount, AfterRun, Lower, IsInherited, Printed, IsRun, Ends, AmountOf, Between;
    ReadingIsUnique(Trim(value), whole, fraction, run, unit);
  }

  /** One way to read a text as so many seconds. */
  predicate ReadsAs(s: string, whole: string, fraction: string, run: string, unit: string, seconds: Seconds) {
    && IsReading(s, whole, fraction, run, unit)
    && AmountOf(whole, fraction) > 0.0
    && Worth(AmountOf(whole, fraction), unit) == Some(seconds)
  }

  lemma ReadingReadsAs(value: string, whole: string, fraction: string, run: string, unit: string, seconds: Seconds)
    requires IsReading(Trim(value), whole, fraction, run, unit)
    requires DurationToSeconds(value) == Some(seconds)
    ensures ReadsAs(Trim(value), whole, fraction, run, unit, seconds)
  {
    hide DurationToSeconds, Trim, AmountOf, Worth, Printed, Ends, IsRun;
    DurationOfReading(value, whole, fraction, run, unit);
  }

  lemma ReadAsHolds(value: string, whole: string, fraction: string, run: string, unit: string, seconds: Seconds)
    requires ReadsAs(Trim(value), whole, fraction, run, unit, seconds)
    ensures DurationToSeconds(value) == Some(seconds)
  {
    hide DurationToSeconds, Trim, AmountOf, Worth, Printed, Ends, IsRun;
    DurationOfReading(value, whole, fraction, run, unit);
  }

  /** Spaces around it make no difference, and a listed unit in any case multiplies the amount. */
  lemma ReadsAmountTimesUnit(before: string, whole: string, fraction: string, run: string, unit: string, after: string)
    requires AllSpaces(before) && AllSpaces(after) && AllDigits(whole) && AllDigits(fraction)
    requires whole != "" || fraction != ""
    requires IsRun(run) && Ends(fraction, run)
    requires UnitSeconds(Lower(unit)).Some?
    ensures var amount := AmountOf(whole, fraction);
      DurationToSeconds(before + (Printed(whole, fraction) + (run + unit)) + after) ==
        if amount > 0.0 then Some(Finite(Times(amount, UnitSeconds(Lower(unit)).value))) else None
  {
    LoweredShape(unit);
    PrintedIsARun(whole, fraction);
    hide UnitSeconds, Trim, Printed, AmountOf, Lower, IsSpace, DurationToSeconds, Ends, IsRun, InAmountRun, AllDigits;
    var s := Printed(whole, fraction) + (run + unit);
    assert s[0] == Printed(whole, fraction)[0] && s[|s| - 1] == unit[|unit| - 1];
    TrimBoth(before, s, after);
    DurationOfReading(before + s + after, whole, fraction, run, unit);
  }

  /** A whole amount that stands at the start of an unpadded text. */
  lemma PlainReading(text: string, whole: string, run: string, unit: string)
    requires text == whole + (run + unit) && AllDigits(whole) && whole != "" && IsRun(run) && Ends("", run)
    requires unit != "" && !InAmountRun(unit[0])
    requires !IsSpace(text[0]) && !IsSpace(unit[|unit| - 1])
    ensures Trim(text) == text && IsReading(text, whole, "", run, unit)
    ensures DecimalValue(whole) > 0 ==> DurationToSeconds(text) == Worth(DecimalValue(whole) as real, unit)
  {
    NoFraction();
    hide UnitSeconds, Lower, IsSpace, DecimalValue, Fraction, InAmountRun, IsRun, Ends, DurationToSeconds, Trim,
      Worth;
    assert text[|text| - 1] == unit[|unit| - 1];
    TrimBoth("", text, "");
    assert "" + text + "" == text;
    DurationOfReading(text, whole, "", run, unit);
  }

  /**
   * Exactly which texts are read, and as what: the trimmed text has a reading whose amount is
   * positive, and the unit says what it is worth.
   */
  lemma DurationIff(value: string, seconds: Seconds)
    ensures DurationToSeconds(value) == Some(seconds) <==>
      exists whole, fraction, run, unit :: ReadsAs(Trim(value), whole, fraction, run, unit, seconds)
  {
    hide ReadsAs, Trim, AfterRun, UnitSeconds, Lower, IsInherited, Amount, IsReading;
    if DurationToSeconds(value) == Some(seconds) {
      var whole, fraction, run, unit := EveryAmountIsRead(Trim(value));
      ReadingReadsAs(value, whole, fraction, run, unit, seconds);
    }
    forall whole, fraction, run, unit | ReadsAs(Trim(value), whole, fraction, run, unit, seconds)
      ensures DurationToSeconds(value) == Some(seconds)
    {
      ReadAsHolds(value, whole, fraction, run, unit, seconds);
    }
  }

  /** Seconds per unit, name by name; nothing else is a unit. */
  function Listed(unit: string): Option<real> {
    if unit in ["ms", "msec", "msecs", "millisecond", "milliseconds"] then Some(0.001)
    else if unit in ["s", "sec", "secs", "second", "seconds"] then Some(1.0)
    else if unit in ["m", "min", "mins", "minute", "minutes"] then Some(60.0)
    else if unit in ["h", "hr", "hrs", "hour", "hours"] then Some(60.0 * 60.0)
    else if unit in ["d", "day", "days"] then Some(24.0 * 60.0 * 60.0)
    else if unit in ["w", "week", "weeks"] then Some(7.0 * 24.0 * 60.0 * 60.0)
    else if unit in ["y", "yr", "yrs", "year", "years"] then Some(365.25 * 24.0 * 60.0 * 60.0)
    else None
  }

  lemma UnitsAreTheListed(unit: string)
    ensures UnitSeconds(unit) == Listed(unit)
  {
  }

  /** A whole amount directly before a unit, in any case, is so many times the listed seconds. */
  lemma UnitsOnTexts(n: nat, unit: string)
    requires n > 0 && Listed(Lower(unit)).Some?
    ensures DurationToSeconds(Decimal(n) + unit) == Some(Finite(Times(n as real, Listed(Lower(unit)).value)))
  {
    UnitsAreTheListed(Lower(unit));
    LoweredShape(unit);
    DecimalReadsBack(n);
    hide UnitSeconds, Listed, Lower, Decimal, DecimalValue, DurationToSeconds, Trim, IsReading, IsSpace, InAmountRun;
    NotSpace(Decimal(n)[0]);
    assert Decimal(n) + unit == Decimal(n) + ("" + unit);
    PlainReading(Decimal(n) + unit, Decimal(n), "", unit);
  }

  /** Lower-casing reaches the ASCII letters and, besides, only the Kelvin sign. */
  lemma LoweredLetter(c: char, letter: char)
    requires 'a' <= letter <= 'z'
    ensures LowerChar(c) == letter <==>
      c == letter || c == letter - 32 as char || (letter == 'k' && c == '\U{212A}')
  {
  }

  function TenTo(k: nat): (n: nat)
    ensures n >= 1
  {
    if k == 0 then 1 else 10 * TenTo(k - 1)
  }

  lemma Shifted(d: nat, p: nat, x: nat, last: nat)
    ensures (d * p + x) * 10 + last == d * (10 * p) + (x * 10 + last)
  {
  }

  lemma {:induction false} LeadingDigit(digits: string)
    requires AllDigits(digits) && digits != ""
    ensures DecimalValue(digits) == (digits[0] - '0') as nat * TenTo(|digits| - 1) + DecimalValue(digits[1..])
  {
    if |digits| == 1 {
      assert digits[..0] == "" && digits[1..] == "";
    } else {
      var (init, rest) := (digits[..|digits| - 1], digits[1..]);
      LeadingDigit(init);
      assert rest[..|rest| - 1] == init[1..] && rest[|rest| - 1] == digits[|digits| - 1];
      assert DecimalValue(rest) == DecimalValue(init[1..]) * 10 + (digits[|digits| - 1] - '0') as nat;
      assert DecimalValue(digits) == DecimalValue(init) * 10 + (digits[|digits| - 1] - '0') as nat;
      hide DecimalValue;
      Shifted((digits[0] - '0') as nat, TenTo(|digits| - 2), DecimalValue(init[1..]),
              (digits[|digits| - 1] - '0') as nat);
    }
  }

  lemma TenthsTimesTen(d: real, f: real, p: real)
    ensures (d + f) / 10.0 * (10.0 * p) == d * p + f * p
  {
    var x := (d + f) / 10.0;
    assert x * (10.0 * p) == (x * 10.0) * p;
  }

  lemma RealProduct(a: nat, b: nat)
    ensures (a * b) as real == a as real * b as real
  {
  }

  lemma OneMorePlace(d: nat, f: real, p: nat, restValue: nat)
    requires Times(f, p as real) == restValue as real
    ensures Times((d as real + f) / 10.0, (10 * p) as real) == (d * p + restValue) as real
  {
    assert (10 * p) as real == 10.0 * p as real;
    TenthsTimesTen(d as real, f, p as real);
    RealProduct(d, p);
  }

  lemma FractionStep(digits: string)
    requires AllDigits(digits) && digits != ""
    requires Times(Fraction(digits[1..]), TenTo(|digits| - 1) as real) == DecimalValue(digits[1..]) as real
    ensures Times(Fraction(digits), TenTo(|digits|) as real) == DecimalValue(digits) as real
  {
    var (d, p) := ((digits[0] - '0') as nat, TenTo(|digits| - 1));
    assert Fraction(digits) == (d as real + Fraction(digits[1..])) / 10.0;
    assert TenTo(|digits|) == 10 * p;
    hide Fraction, DecimalValue, TenTo, Times;
    LeadingDigit(digits);
    OneMorePlace(d, Fraction(digits[1..]), p, DecimalValue(digits[1..]));
  }

  /** The digits behind the point are worth their numeral over the power of ten of their number. */
  lemma {:induction false} FractionIsDecimal(digits: string)
    requires AllDigits(digits)
    ensures Times(Fraction(digits), TenTo(|digits|) as real) == DecimalValue(digits) as real
  {
    if digits != "" {
      FractionIsDecimal(digits[1..]);
      hide Fraction, DecimalValue, Times;
      FractionStep(digits);
    }
  }

  // ---- the documented form ----

  /** A time span as documented: a positive amount, spaces, and a listed unit in any case. */
  predicate IsSpan(s: string, whole: string, fraction: string, gap: string, unit: string) {
    && AllDigits(whole) && AllDigits(fraction) && (whole != "" || fraction != "")
    && AmountOf(whole, fraction) > 0.0
    && AllSpaces(gap)
    && UnitSeconds(Lower(unit)).Some?
    && s == Printed(whole, fraction) + (gap + unit)
  }

  ghost predicate IsTimeSpan(s: string) {
    exists whole, fraction, gap, unit :: IsSpan(s, whole, fraction, gap, unit)
  }

  predicate ReadsAsNumber(value: string) {
    DurationToSeconds(value).Some? && DurationToSeconds(value).value.Finite?
  }

  lemma SpaceIsNoDigit(c: char)
    requires IsSpace(c)
    ensures !IsDigit(c) && c != '.'
  {
  }

  lemma SpanIsAReading(s: string, whole: string, fraction: string, gap: string, unit: string)
    requires IsSpan(s, whole, fraction, gap, unit)
    ensures IsReading(s, whole, fraction, gap, unit)
  {
    LoweredShape(unit);
    hide UnitSeconds, Lower, Printed, AmountOf;
    if gap != "" {
      SpaceIsNoDigit(gap[0]);
    }
  }

  lemma SpanReadsAsNumber(value: string, whole: string, fraction: string, gap: string, unit: string)
    requires IsSpan(Trim(value), whole, fraction, gap, unit)
    ensures ReadsAsNumber(value) && AllSpaces(Between(Trim(value)))
  {
    hide DurationToSeconds, UnitSeconds, Lower, Trim, Between, AmountOf, IsReading, Printed, IsInherited;
    SpanIsAReading(Trim(value), whole, fraction, gap, unit);
    DurationOfReading(value, whole, fraction, gap, unit);
    ReadingIsUnique(Trim(value), whole, fraction, gap, unit);
  }

  lemma NumberIsASpan(value: string, whole: string, fraction: string, run: string, unit: string)
    requires IsReading(Trim(value), whole, fraction, run, unit)
    requires ReadsAsNumber(value) && AllSpaces(Between(Trim(value)))
    ensures IsSpan(Trim(value), whole, fraction, run, unit)
  {
    hide DurationToSeconds, UnitSeconds, Lower, Trim, Between, AmountOf, Printed, IsInherited, Ends, IsRun;
    DurationOfReading(value, whole, fraction, run, unit);
    ReadingIsUnique(Trim(value), whole, fraction, run, unit);
  }

  /**
   * The documented time spans are exactly the texts read as a number with nothing but spaces
   * between amount and unit. Every other text that is read is read against the documentation.
   */
  lemma DocumentedSpanIff(value: string)
    ensures IsTimeSpan(Trim(value)) <==> ReadsAsNumber(value) && AllSpaces(Between(Trim(value)))
  {
    hide IsSpan, IsReading, Trim, Amount, AfterRun, UnitSeconds, Lower, IsInherited, Between, AllSpaces, AmountOf;
    var s := Trim(value);
    if IsTimeSpan(s) {
      var whole, fraction, gap, unit :| IsSpan(s, whole, fraction, gap, unit);
      SpanReadsAsNumber(value, whole, fraction, gap, unit);
    }
    if ReadsAsNumber(value) && AllSpaces(Between(s)) {
      var whole, fraction, run, unit := EveryAmountIsRead(s);
      NumberIsASpan(value, whole, fraction, run, unit);
    }
  }

  lemma SmallFacts()
    ensures DecimalValue("1") == 1 && DecimalValue("5") == 5
    ensures !InAmountRun('h') && InAmountRun(' ') && InAmountRun('2') && InAmountRun('.')
    ensures !IsSpace('h') && !IsSpace('1') && !IsSpace('5') && !IsSpace('2') && !IsSpace('.')
    ensures Lower("h") == "h" && UnitSeconds("h") == Some(3_600.0)
  {
    assert "1"[..0] == "" && "5"[..0] == "";
    LettersAreNotInTheRun('h');
    NotSpace('1');
    NotSpace('5');
    NotSpace('2');
    NotSpace('.');
    assert InAmountRun(' ');
    hide IsSpace, InAmountRun;
    assert IsHour("h");
  }

  /** Two texts that are no documented spans: a second number, and a point with nothing behind it. */
  lemma UndocumentedSpansAreRead()
    ensures DurationToSeconds("1 2h") == Some(Finite(3_600.0)) && !IsTimeSpan("1 2h")
    ensures DurationToSeconds("5.h") == Some(Finite(18_000.0)) && !IsTimeSpan("5.h")
  {
    SmallFacts();
    hide DurationToSeconds, UnitSeconds, Lower, IsSpace, Trim, DecimalValue, InAmountRun, IsTimeSpan, Between,
      IsReading;
    assert "1" + (" 2" + "h") == "1 2h" && "5" + ("." + "h") == "5.h";
    PlainReading("1 2h", "1", " 2", "h");
    PlainReading("5.h", "5", ".", "h");
    ReadingIsUnique("1 2h", "1", "", " 2", "h");
    ReadingIsUnique("5.h", "5", "", ".", "h");
    DocumentedSpanIff("1 2h");
    DocumentedSpanIff("5.h");
  }

  // ---- the bounds ----

  lemma Product(a: real, b: real)
    requires a > 0.0 && b > 0.0
    ensures Times(a, b) > 0.0
  {
  }

  predicate HasInheritedUnit(value: string) {
    IsInherited(Lower(AfterRun(Trim(value))))
  }

  lemma PositiveSeconds(value: string)
    ensures DurationToSeconds(value).Some? && DurationToSeconds(value).value.Finite? ==>
      DurationToSeconds(value).value.value > 0.0
    ensures DurationToSeconds(value).Some? ==>
      (DurationToSeconds(value).value.NotANumber? <==> IsInherited(Lower(AfterRun(Trim(value)))))
  {
    var unit := Lower(AfterRun(Trim(value)));
    hide UnitSeconds, IsInherited, Lower, AfterRun, Amount, Trim, IsWord;
    if DurationToSeconds(value).Some? && UnitSeconds(unit).Some? {
      UnitShape(unit);
      WordsAreNotInherited(unit);
      Product(Amount(Trim(value)).value, UnitSeconds(unit).value);
    }
  }

  /**
   * An accepted lifetime lies in (0, 2592000] seconds exactly when its unit is not one of the two
   * inherited property names; those two are accepted as NaN.
   */
  lemma AcceptedLifetimeIsBoundedIff(value: string)
    requires LifetimeAccepted(Some(value))
    ensures var seconds := DurationToSeconds(value).value;
      seconds.Finite? && 0.0 < seconds.value <= TOKEN_EPOCH_RETENTION_SECONDS
      <==> !HasInheritedUnit(value)
  {
    hide DurationToSeconds, IsInherited, Lower, AfterRun, Trim;
    PositiveSeconds(value);
  }

  lemma InheritedIsNoUnit(u: string)
    requires IsInherited(u)
    ensures UnitSeconds(u).None?
  {
    hide UnitSeconds, IsInherited;
    if UnitSeconds(u).Some? {
      UnitShape(u);
      WordsAreNotInherited(u);
    }
  }

  /** The lifetime that start-up validated: an absent option stands for the default. */
  function ValidatedLifetime(accessExpiresIn: Option<string>): Option<Seconds> {
    DurationToSeconds(accessExpiresIn.GetOr(DEFAULT_ACCESS_EXPIRES_IN))
  }

  lemma FifteenIsFifteen()
    ensures DecimalValue("15") == 15 && Fraction("") == 0.0
    ensures !InAmountRun('m') && InAmountRun('1') && InAmountRun('5') && !IsSpace('m') && !IsSpace('1')
    ensures Lower("m") == "m" && UnitSeconds("m") == Some(60.0)
  {
    assert "15"[..1] == "1" && "1"[..0] == "";
    assert IsMinute("m") && !IsMillisecond("m") && !IsSecond("m");
  }

  lemma DefaultIsFifteenMinutes()
    ensures DurationToSeconds(DEFAULT_ACCESS_EXPIRES_IN) == Some(Finite(900.0))
  {
    FifteenIsFifteen();
    hide DurationToSeconds, UnitSeconds, Lower, IsSpace, Trim, DecimalValue, InAmountRun, IsReading;
    assert "15" + ("" + "m") == DEFAULT_ACCESS_EXPIRES_IN;
    PlainReading(DEFAULT_ACCESS_EXPIRES_IN, "15", "", "m");
  }

  lemma DayIsListed()
    ensures Lower("d") == "d" && Listed("d") == Some(86_400.0)
  {
  }

  /** Whole days are accepted from one to thirty. */
  lemma WholeDaysAcceptedIff(n: nat)
    requires n > 0
    ensures LifetimeAccepted(Some(Decimal(n) + "d")) <==> n <= 30
  {
    DayIsListed();
    hide Lower, Listed, Decimal, DurationToSeconds;
    UnitsOnTexts(n, "d");
  }

  lemma InheritedShape(name: string)
    requires name == "constructor" || name == "__proto__"
    ensures IsInherited(name) && Lower(name) == name && InAmountRun(' ')
    ensures !InAmountRun(name[0]) && !IsSpace(name[|name| - 1])
  {
  }

  /** Both inherited names pass the bound with any whole amount, and leave the marker without a number. */
  lemma InheritedUnitsAreAccepted(n: nat, name: string)
    requires n > 0 && (name == "constructor" || name == "__proto__")
    ensures LifetimeAccepted(Some(Decimal(n) + " " + name))
    ensures LogoutPendingTtlSeconds(Some(Decimal(n) + " " + name)) == NotANumber
  {
    InheritedShape(name);
    InheritedIsNoUnit(name);
    DecimalReadsBack(n);
    hide UnitSeconds, Lower, Decimal, DecimalValue, DurationToSeconds, Trim, IsReading, IsSpace, InAmountRun,
      IsInherited;
    NotSpace(Decimal(n)[0]);
    assert Decimal(n) + " " + name == Decimal(n) + (" " + name);
    PlainReading(Decimal(n) + " " + name, Decimal(n), " ", name);
  }

  /**
   * The marker outlives the tokens exactly when the option was given and its unit is not an
   * inherited name. An explicit `undefined` passes start-up as the default and reaches the marker
   * as nothing, so that the marker lives five minutes and the token fifteen.
   */
  lemma MarkerOutlivesTheTokenIff(accessExpiresIn: Option<string>)
    requires LifetimeAccepted(accessExpiresIn)
    ensures var ttl := LogoutPendingTtlSeconds(accessExpiresIn);
      var lifetime := ValidatedLifetime(accessExpiresIn).value;
      ttl.Finite? && lifetime.Finite? && lifetime.value <= ttl.value
      <==> accessExpiresIn.Some? && !HasInheritedUnit(accessExpiresIn.value)
  {
    if accessExpiresIn.None? {
      DefaultIsFifteenMinutes();
      hide DurationToSeconds;
    } else {
      PositiveSeconds(accessExpiresIn.value);
      hide DurationToSeconds, IsInherited, Lower, AfterRun, Trim;
    }
  }

  /**
   * What the marker's lifetime is: five minutes without the option, no number for an inherited
   * unit, and otherwise a whole number of seconds, the least one that is no shorter than either
   * the lifetime or five minutes, and so never longer than the retention window.
   */
  lemma MarkerLifetime(accessExpiresIn: Option<string>)
    requires LifetimeAccepted(accessExpiresIn)
    ensures var ttl := LogoutPendingTtlSeconds(accessExpiresIn);
      var lifetime := ValidatedLifetime(accessExpiresIn).value;
      if accessExpiresIn.None? then ttl == Finite(300.0)
      else if lifetime.NotANumber? then ttl == NotANumber
      else
        && ttl.Finite?
        && ttl.value.Floor as real == ttl.value
        && lifetime.value <= ttl.value && 300.0 <= ttl.value
        && (ttl.value < lifetime.value + 1.0 || ttl.value == 300.0)
        && ttl.value <= 2_592_000.0
  {
    hide DurationToSeconds;
  }
}
