// The duration texts of the antiflood, antiraid and captcha settings: two printers, two
// parsers and the standard library parser both start with. Durations are 64-bit counts of
// nanoseconds.
module Durations {
  import opened Text

  const SECOND := 1_000_000_000
  const MINUTE := 60 * SECOND
  const HOUR := 60 * MINUTE
  const DAY := 24 * HOUR
  const WEEK := 7 * DAY

  const TWO63 := 0x8000_0000_0000_0000
  const TWO64 := 0x1_0000_0000_0000_0000

  // ---------- time.ParseDuration ----------

  // The nanoseconds that a decimal fraction of a unit adds; floating point in the library.
  type Fraction = (string, nat) -> nat

  function LeadingDigits(s: string): (n: nat)
    ensures n <= |s| && AllDigits(s[..n])
    ensures n < |s| ==> !IsDigit(s[n])
  {
    if s == "" || !IsDigit(s[0]) then 0
    else
      var n := LeadingDigits(s[1..]);
      assert s[..n + 1] == [s[0]] + s[1..][..n];
      n + 1
  }

  function UnitLength(s: string): (n: nat)
    ensures n <= |s|
  {
    if s == "" || s[0] == '.' || IsDigit(s[0]) then 0 else UnitLength(s[1..]) + 1
  }

  function UnitOf(name: string): Option<nat> {
    if name == "ns" then Some(1)
    else if name == "us" || name == "\U{00B5}s" || name == "\U{03BC}s" then Some(1000)
    else if name == "ms" then Some(1_000_000)
    else if name == "s" then Some(SECOND)
    else if name == "m" then Some(MINUTE)
    else if name == "h" then Some(HOUR)
    else None
  }

  // What a number of units comes to, with the fraction after the point; None if it does not
  // fit.
  function GroupValue(whole: nat, part: string, unit: nat, fraction: Fraction): Option<nat> {
    var value := whole * unit;
    var total := if part == "" then value else value + fraction(part, unit);
    if whole > TWO63 || value > TWO63 || total > TWO63 then None else Some(total)
  }

  // One number with its unit, and what follows it.
  function FirstGroup(s: string, fraction: Fraction): (r: Option<(nat, string)>)
    requires s != ""
    ensures r.Some? ==> |r.value.1| < |s|
  {
    if s[0] != '.' && !IsDigit(s[0]) then None
    else
      var n := LeadingDigits(s);
      var rest := s[n..];
      var dotted := rest != "" && rest[0] == '.';
      var m := if dotted then LeadingDigits(rest[1..]) else 0;
      var part := if dotted then rest[1..1 + m] else "";
      var tail := if dotted then rest[1 + m..] else rest;
      var i := UnitLength(tail);
      if (n == 0 && m == 0) || i == 0 || UnitOf(tail[..i]).None? then None
      else
        match GroupValue(DigitsValue(s[..n]), part, UnitOf(tail[..i]).value, fraction)
        case None => None
        case Some(total) => Some((total, tail[i..]))
  }

  // One group after the other, summed up in 64 unsigned bits.
  function ParseGroups(s: string, sum: nat, fraction: Fraction): Option<nat>
    decreases |s|
  {
    if s == "" then Some(sum)
    else
      match FirstGroup(s, fraction)
      case None => None
      case Some((total, rest)) =>
        if (sum + total) % TWO64 > TWO63 then None else ParseGroups(rest, (sum + total) % TWO64, fraction)
  }

  function ParseDuration(s: string, fraction: Fraction): Option<int> {
    var signed := s != "" && (s[0] == '-' || s[0] == '+');
    var body := if signed then s[1..] else s;
    if body == "0" then Some(0)
    else if body == "" then None
    else
      match ParseGroups(body, 0, fraction)
      case None => None
      case Some(d) =>
        var negative := signed && s[0] == '-';
        if d > MAX_INT64 && !negative then None else Some(if negative then 0 - (d as int) else d as int)
  }

  // ---------- The bot's parsers and printers ----------

  // A product of 64-bit durations.
  function Times(a: int, b: int): int {
    Wrap64(a * b)
  }

  // The amount in front of a one-letter unit.
  function Amount(value: string): (r: Option<int>)
    requires value != ""
    ensures r.Some? ==> 0 < r.value <= MAX_INT64 && |value| >= 2
  {
    match ParseInt(value[..|value| - 1])
    case None => None
    case Some(n) => if n <= 0 then None else Some(n)
  }

  function ParseFlexible(text: string, fraction: Fraction): Option<int> {
    var value := Lower(TrimSpace(text));
    if value == "" then None
    else if ParseDuration(value, fraction).Some? then ParseDuration(value, fraction)
    else
      match Amount(value)
      case None => None
      case Some(n) =>
        var unit := value[|value| - 1];
        if unit == 'd' then Some(Times(Times(n, 24), HOUR))
        else if unit == 'w' then Some(Times(Times(Times(n, 7), 24), HOUR))
        else None
  }

  function ParseCaptcha(text: string, fraction: Fraction): Option<int> {
    var value := TrimSpace(Lower(text));
    if value == "" then None
    else if ParseDuration(value, fraction).Some? then ParseDuration(value, fraction)
    else if |value| < 2 then None
    else
      match Amount(value)
      case None => None
      case Some(n) =>
        var unit := value[|value| - 1];
        if unit == 'm' then Some(Times(n, MINUTE))
        else if unit == 'h' then Some(Times(n, HOUR))
        else if unit == 'd' then Some(Times(Times(n, 24), HOUR))
        else if unit == 'w' then Some(Times(Times(Times(n, 7), 24), HOUR))
        else None
  }

  function Humanize(d: int, none: string): string {
    if d <= 0 then none
    else if d % WEEK == 0 then FormatInt(d / WEEK) + "w"
    else if d % DAY == 0 then FormatInt(d / DAY) + "d"
    else if d % HOUR == 0 then FormatInt(d / HOUR) + "h"
    else if d % MINUTE == 0 then FormatInt(d / MINUTE) + "m"
    else FormatInt(d / SECOND) + "s"
  }

  function HumanizeFlexible(d: int): string {
    Humanize(d, "0s")
  }

  function HumanizeCaptcha(d: int): string {
    Humanize(d, "off")
  }

  // ---------- A number with a unit ----------

  lemma {:induction false} LeadingDigitsOf(digits: string, rest: string)
    requires AllDigits(digits) && (rest == "" || !IsDigit(rest[0]))
    ensures LeadingDigits(digits + rest) == |digits|
  {
    if digits == "" {
      assert digits + rest == rest;
    } else {
      assert (digits + rest)[1..] == digits[1..] + rest;
      LeadingDigitsOf(digits[1..], rest);
    }
  }

  predicate IsLetter(c: char) {
    c != '.' && !IsDigit(c)
  }

  // What the loop finds first: digits, perhaps a point and more digits, a unit.
  lemma FoundFirst(s: string, fraction: Fraction, whole: string, rest: string, part: string, tail: string, name: string, after: string)
    requires s != "" && (s[0] == '.' || IsDigit(s[0]))
    requires LeadingDigits(s) == |whole| && s[..|whole|] == whole && s[|whole|..] == rest && AllDigits(whole)
    requires if rest != "" && rest[0] == '.' then LeadingDigits(rest[1..]) == |part| && rest[1..1 + |part|] == part && rest[1 + |part|..] == tail
             else part == "" && rest == tail
    requires UnitLength(tail) == |name| > 0 && tail[..|name|] == name && tail[|name|..] == after && UnitOf(name).Some?
    requires whole != "" || part != ""
    ensures FirstGroup(s, fraction) ==
      match GroupValue(DigitsValue(whole), part, UnitOf(name).value, fraction)
      case None => None
      case Some(total) => Some((total, after))
  {
    hide LeadingDigits, UnitLength, UnitOf, DigitsValue, AllDigits, GroupValue;
  }

  lemma SmallSum(n: nat)
    requires n <= TWO63
    ensures n % TWO64 == n
  {
  }

  lemma AddOne(s: string, rest: string, total: nat, sum: nat, fraction: Fraction)
    requires s != "" && FirstGroup(s, fraction) == Some((total, rest)) && sum + total <= TWO63
    ensures ParseGroups(s, sum, fraction) == ParseGroups(rest, sum + total, fraction)
  {
    hide FirstGroup;
    SmallSum(sum + total);
  }

  // A whole number followed by one letter is read as that many units, unless it is too large.
  lemma ParseOneGroup(digits: string, unit: char, fraction: Fraction)
    requires digits != "" && AllDigits(digits) && IsLetter(unit)
    ensures ParseGroups(digits + [unit], 0, fraction) ==
      match UnitOf([unit])
      case None => None
      case Some(u) => if DigitsValue(digits) * u <= TWO63 then Some(DigitsValue(digits) * u) else None
  {
    var s := digits + [unit];
    LeadingDigitsOf(digits, [unit]);
    assert s[|digits|..] == [unit] && s[..|digits|] == digits && s[0] == digits[0];
    OneLetter(unit);
    hide LeadingDigits, DigitsValue, UnitLength;
    if UnitOf([unit]).Some? {
      FoundFirst(s, fraction, digits, [unit], "", [unit], [unit], "");
      hide FirstGroup;
      OneValue(DigitsValue(digits), UnitOf([unit]).value, fraction);
      if DigitsValue(digits) * UnitOf([unit]).value <= TWO63 {
        AddOne(s, "", DigitsValue(digits) * UnitOf([unit]).value, 0, fraction);
        Finished(DigitsValue(digits) * UnitOf([unit]).value, fraction);
      }
    }
  }

  lemma Finished(sum: nat, fraction: Fraction)
    ensures ParseGroups("", sum, fraction) == Some(sum)
  {
  }

  lemma OneLetter(unit: char)
    requires IsLetter(unit)
    ensures UnitLength([unit]) == 1 && [unit][..1] == [unit] && [unit][1..] == ""
  {
    assert UnitLength([unit][1..]) == 0;
  }

  lemma OneValue(v: nat, unit: nat, fraction: Fraction)
    requires unit > 0
    ensures GroupValue(v, "", unit, fraction) == if v * unit <= TWO63 then Some(v * unit) else None
  {
    assert v * unit == v + v * (unit - 1);
    assert v * (unit - 1) >= 0;
  }

  lemma {:induction false} LowerFixed(s: string)
    requires forall i :: 0 <= i < |s| ==> LowerChar(s[i]) == s[i]
    ensures Lower(s) == s
  {
  }

  function SizeOf(unit: char): nat {
    if unit == 'w' then WEEK
    else if unit == 'd' then DAY
    else if unit == 'h' then HOUR
    else if unit == 'm' then MINUTE
    else SECOND
  }

  lemma UnitOfLetter(unit: char)
    requires unit in "wdhms"
    ensures UnitOf([unit]) == if unit == 'w' || unit == 'd' then None else Some(SizeOf(unit))
  {
  }

  lemma PrintedText(n: nat, unit: char)
    requires n <= MAX_INT64 && unit in "wdhms"
    ensures var value := FormatInt(n) + [unit];
      && Lower(TrimSpace(value)) == value && TrimSpace(Lower(value)) == value
      && Amount(value) == if n == 0 then None else Some(n)
  {
    hide Digits, DigitsValue, ParseInt, TrimSpace, Lower;
    var digits, value := Digits(n), FormatInt(n) + [unit];
    assert value == digits + [unit] && value[..|value| - 1] == digits;
    ParseFormatInt(n);
    TrimSpaceTrimmed(value);
    LowerFixed(value);
  }

  lemma PrintedParse(n: nat, unit: char, fraction: Fraction)
    requires unit in "wdhms"
    ensures ParseDuration(FormatInt(n) + [unit], fraction) ==
      if unit == 'w' || unit == 'd' || n * SizeOf(unit) > MAX_INT64 then None else Some(n * SizeOf(unit))
  {
    hide Digits, DigitsValue, ParseGroups, UnitOf, SizeOf;
    var digits, value := Digits(n), FormatInt(n) + [unit];
    assert value == digits + [unit];
    assert IsDigit(digits[0]) && value[0] == digits[0];
    DigitsRoundTrip(n);
    UnitOfLetter(unit);
    ParseOneGroup(digits, unit, fraction);
  }

  // ---------- Round trips ----------

  lemma WrapTwice(a: int, b: int)
    ensures Wrap64(Wrap64(a) * b) == Wrap64(a * b)
  {
    var k := (Wrap64(a) - a) / TWO64;
    assert Wrap64(a) == a + k * TWO64;
    assert Wrap64(a) * b == a * b + (k * b) * TWO64;
    WrapShift(a * b, k * b);
  }

  lemma WrapShift(n: int, k: int)
    ensures Wrap64(n + k * TWO64) == Wrap64(n)
  {
    var a := n + TWO64 / 2;
    assert a + k * TWO64 == (a / TWO64 + k) * TWO64 + a % TWO64;
    assert (a + k * TWO64) % TWO64 == a % TWO64;
  }

  lemma DaysAndWeeksWrap(n: int)
    ensures Times(Times(n, 24), HOUR) == Wrap64(n * DAY)
    ensures Times(Times(Times(n, 7), 24), HOUR) == Wrap64(n * WEEK)
  {
    WrapTwice(n * 24, HOUR);
    WrapTwice(n * 7, 24);
    WrapTwice(n * 7 * 24, HOUR);
  }

  lemma FlexibleReads(n: nat, unit: char, fraction: Fraction)
    requires n <= MAX_INT64 && unit in "wdhms"
    ensures var text := FormatInt(n) + [unit];
      ParseFlexible(text, fraction) ==
        if unit == 'w' then if n == 0 then None else Some(Wrap64(n * WEEK))
        else if unit == 'd' then if n == 0 then None else Some(Wrap64(n * DAY))
        else if n * SizeOf(unit) <= MAX_INT64 then Some(n * SizeOf(unit))
        else None
  {
    hide FormatInt, TrimSpace, Lower, ParseDuration, Amount, Wrap64, Times;
    PrintedText(n, unit);
    PrintedParse(n, unit, fraction);
    DaysAndWeeksWrap(n);
    var text := FormatInt(n) + [unit];
    assert text[|text| - 1] == unit;
  }

  lemma CaptchaReads(n: nat, unit: char, fraction: Fraction)
    requires 0 < n <= MAX_INT64 && unit in "wdhms"
    ensures var text := FormatInt(n) + [unit];
      ParseCaptcha(text, fraction) ==
        if unit == 'w' then Some(Wrap64(n * WEEK))
        else if unit == 'd' then Some(Wrap64(n * DAY))
        else if unit == 's' then if n * SECOND <= MAX_INT64 then Some(n * SECOND) else None
        else Some(Wrap64(n * SizeOf(unit)))
  {
    hide FormatInt, TrimSpace, Lower, ParseDuration, Amount;
    PrintedText(n, unit);
    PrintedParse(n, unit, fraction);
    DaysAndWeeksWrap(n);
    var text := FormatInt(n) + [unit];
    assert text[|text| - 1] == unit && |text| >= 2;
  }

  // How the printers write a positive duration: its whole seconds, in the largest unit that
  // divides it.
  lemma Printed(d: int, none: string) returns (n: nat, unit: char)
    requires 0 < d <= MAX_INT64
    ensures n <= MAX_INT64 && unit in "wdhms" && Humanize(d, none) == FormatInt(n) + [unit]
    ensures n * SizeOf(unit) == d - d % SECOND && (unit != 's' ==> n > 0)
  {
    unit := LargestUnit(d);
    n := d / SizeOf(unit);
    PrintedInUnit(d, none);
    if unit != 's' {
      Whole(d, SizeOf(unit));
    }
  }

  function LargestUnit(d: int): (unit: char)
    ensures unit in "wdhms"
    ensures unit != 's' ==> d % SizeOf(unit) == 0
  {
    if d % WEEK == 0 then 'w'
    else if d % DAY == 0 then 'd'
    else if d % HOUR == 0 then 'h'
    else if d % MINUTE == 0 then 'm'
    else 's'
  }

  lemma PrintedInUnit(d: int, none: string)
    requires d > 0
    ensures Humanize(d, none) == FormatInt(d / SizeOf(LargestUnit(d))) + [LargestUnit(d)]
  {
    hide FormatInt;
  }

  lemma Whole(d: nat, size: nat)
    requires size > 0 && size % SECOND == 0 && d % size == 0
    ensures (d / size) * size == d && d % SECOND == 0
    ensures d > 0 ==> d / size > 0
  {
    var n, k := d / size, size / SECOND;
    assert d == n * size && size == k * SECOND;
    assert n * size == (n * k) * SECOND;
  }

  lemma ZeroSeconds()
    ensures FormatInt(0) + "s" == "0s"
  {
  }

  // Parsing what was printed gives the duration without its broken part of a second, and
  // zero for what is not positive; never an overflow.
  lemma FlexiblePrintThenParse(d: int, fraction: Fraction)
    requires MIN_INT64 <= d <= MAX_INT64
    ensures ParseFlexible(HumanizeFlexible(d), fraction) == Some(if d <= 0 then 0 else d - d % SECOND)
  {
    hide ParseFlexible, FormatInt;
    if d <= 0 {
      ZeroSeconds();
      FlexibleReads(0, 's', fraction);
    } else {
      var n, unit := Printed(d, "0s");
      FlexibleReads(n, unit, fraction);
    }
  }

  // So the text brings a duration back iff it is not negative and counts whole seconds.
  lemma FlexibleRoundTripIff(d: int, fraction: Fraction)
    requires MIN_INT64 <= d <= MAX_INT64
    ensures ParseFlexible(HumanizeFlexible(d), fraction) == Some(d) <==> d >= 0 && d % SECOND == 0
  {
    hide ParseFlexible, HumanizeFlexible;
    FlexiblePrintThenParse(d, fraction);
  }

  // Different whole seconds are printed differently.
  lemma PrintingIsInjective(d: int, e: int, fraction: Fraction)
    requires 0 <= d <= MAX_INT64 && d % SECOND == 0 && 0 <= e <= MAX_INT64 && e % SECOND == 0
    ensures HumanizeFlexible(d) == HumanizeFlexible(e) ==> d == e
  {
    hide ParseFlexible, HumanizeFlexible;
    FlexibleRoundTripIff(d, fraction);
    FlexibleRoundTripIff(e, fraction);
  }

  // The captcha texts: the same for positive durations, while "off" is not read back.
  lemma CaptchaPrintThenParse(d: int, fraction: Fraction)
    requires MIN_INT64 <= d <= MAX_INT64
    ensures ParseCaptcha(HumanizeCaptcha(d), fraction) == if d <= 0 then None else Some(d - d % SECOND)
  {
    hide FormatInt, ParseCaptcha, SizeOf;
    if d <= 0 {
      OffIsNoDuration(HumanizeCaptcha(d), fraction);
    } else {
      var n, unit := Printed(d, "off");
      hide Humanize;
      assert HumanizeCaptcha(d) == FormatInt(n) + [unit];
      if n == 0 {
        CaptchaReadsZero(fraction);
      } else {
        CaptchaReads(n, unit, fraction);
        CaptchaSize(n, unit);
      }
    }
  }

  lemma CaptchaSize(n: nat, unit: char)
    requires unit in "wdhms"
    ensures SizeOf('w') == WEEK && SizeOf('d') == DAY && SizeOf('s') == SECOND
    ensures n * SizeOf(unit) <= MAX_INT64 ==> Wrap64(n * SizeOf(unit)) == n * SizeOf(unit)
  {
  }

  lemma OffIsNoDuration(text: string, fraction: Fraction)
    requires text == "off"
    ensures ParseCaptcha(text, fraction) == None
  {
    hide TrimSpace, Lower, DigitsValue;
    LowerFixed(text);
    TrimSpaceTrimmed(text);
    assert text[..2][0] == 'o';
  }

  lemma CaptchaReadsZero(fraction: Fraction)
    ensures ParseCaptcha(FormatInt(0) + "s", fraction) == Some(0)
  {
    hide FormatInt, TrimSpace, Lower, ParseDuration, Amount;
    PrintedText(0, 's');
    PrintedParse(0, 's', fraction);
  }

  lemma CaptchaRoundTripIff(d: int, fraction: Fraction)
    requires MIN_INT64 <= d <= MAX_INT64
    ensures ParseCaptcha(HumanizeCaptcha(d), fraction) == Some(d) <==> d > 0 && d % SECOND == 0
  {
    hide ParseCaptcha, HumanizeCaptcha;
    CaptchaPrintThenParse(d, fraction);
  }

  // ---------- Where parsing is exact ----------

  const MAX_DAYS := 106_751
  const MAX_WEEKS := 15_250
  const MAX_HOURS := 2_562_047
  const MAX_MINUTES := 153_722_867

  // Days and weeks are exact up to these counts; beyond, the product wraps around.
  lemma DaysAndWeeksExactIff(n: nat, fraction: Fraction)
    requires 0 < n <= MAX_INT64
    ensures ParseFlexible(FormatInt(n) + "d", fraction) == Some(n * DAY) <==> n <= MAX_DAYS
    ensures ParseFlexible(FormatInt(n) + "w", fraction) == Some(n * WEEK) <==> n <= MAX_WEEKS
    ensures ParseFlexible(FormatInt(n) + "d", fraction).Some? && ParseFlexible(FormatInt(n) + "w", fraction).Some?
  {
    hide ParseFlexible, FormatInt;
    FlexibleReads(n, 'd', fraction);
    FlexibleReads(n, 'w', fraction);
  }

  // 213504 days are taken for less than half an hour.
  lemma WrappedDays(fraction: Fraction)
    ensures ParseFlexible(FormatInt(213_504) + "d", fraction) == Some(1_526_290_448_384)
    ensures 1_526_290_448_384 < 30 * MINUTE
  {
    hide ParseFlexible, FormatInt;
    FlexibleReads(213_504, 'd', fraction);
  }

  // Too many minutes or hours are an error for the one parser and wrap around in the other.
  lemma MinutesAndHoursExactIff(n: nat, fraction: Fraction)
    requires 0 < n <= MAX_INT64
    ensures ParseFlexible(FormatInt(n) + "m", fraction) == if n <= MAX_MINUTES then Some(n * MINUTE) else None
    ensures ParseFlexible(FormatInt(n) + "h", fraction) == if n <= MAX_HOURS then Some(n * HOUR) else None
    ensures ParseCaptcha(FormatInt(n) + "m", fraction) == Some(n * MINUTE) <==> n <= MAX_MINUTES
    ensures ParseCaptcha(FormatInt(n) + "h", fraction) == Some(n * HOUR) <==> n <= MAX_HOURS
  {
    hide ParseFlexible, ParseCaptcha, FormatInt;
    FlexibleReads(n, 'm', fraction);
    FlexibleReads(n, 'h', fraction);
    CaptchaReads(n, 'm', fraction);
    CaptchaReads(n, 'h', fraction);
  }

  // ---------- The two parsers compared ----------

  lemma {:induction false} LowerTrimStart(s: string)
    ensures TrimStart(Lower(s)) == Lower(TrimStart(s))
  {
    if s != "" && IsSpace(s[0]) {
      assert Lower(s)[1..] == Lower(s[1..]);
      LowerTrimStart(s[1..]);
    }
  }

  lemma {:induction false} LowerTrimEnd(s: string)
    ensures TrimEnd(Lower(s)) == Lower(TrimEnd(s))
  {
    if s != "" && IsSpace(s[|s| - 1]) {
      assert Lower(s)[..|s| - 1] == Lower(s[..|s| - 1]);
      LowerTrimEnd(s[..|s| - 1]);
    }
  }

  lemma LowerTrim(s: string)
    ensures TrimSpace(Lower(s)) == Lower(TrimSpace(s))
  {
    LowerTrimStart(s);
    LowerTrimEnd(TrimStart(s));
  }

  // A whole positive number, possibly with a plus sign, and one of the library's units.
  lemma AmountWithUnit(value: string, fraction: Fraction)
    requires value != "" && Amount(value).Some? && UnitOf(value[|value| - 1..]).Some?
    ensures var n, u := Amount(value).value, UnitOf(value[|value| - 1..]).value;
      ParseDuration(value, fraction) == if n * u <= MAX_INT64 then Some(n * u) else None
  {
    hide ParseGroups, DigitsValue;
    var prefix, unit := value[..|value| - 1], value[|value| - 1];
    assert value[|value| - 1..] == [unit];
    assert prefix != "" && value[0] == prefix[0];
    var signed := prefix[0] == '-' || prefix[0] == '+';
    var digits := if signed then prefix[1..] else prefix;
    assert (if signed then value[1..] else value) == digits + [unit];
    ParseOneGroup(digits, unit, fraction);
  }

  predicate OverflowsLibrary(value: string) {
    && value != "" && Amount(value).Some?
    && ((value[|value| - 1] == 'm' && Amount(value).value > MAX_MINUTES) || (value[|value| - 1] == 'h' && Amount(value).value > MAX_HOURS))
  }

  // On every text the two parsers agree, except on counts of minutes or hours that do not fit.
  lemma ParsersAgreeIff(text: string, fraction: Fraction)
    ensures ParseCaptcha(text, fraction) == ParseFlexible(text, fraction) <==> !OverflowsLibrary(Lower(TrimSpace(text)))
  {
    hide TrimSpace, Lower, ParseDuration, Amount, Times;
    LowerTrim(text);
    var value := Lower(TrimSpace(text));
    if value != "" && Amount(value).Some? {
      var unit := value[|value| - 1];
      assert value[|value| - 1..] == [unit];
      if unit == 'm' || unit == 'h' {
        UnitOfLetter(unit);
        AmountWithUnit(value, fraction);
      }
    }
  }
}
