// What a duration text means: the sum of its groups, with blanks and letter case ignored,
// and what the printers choose to write.
module DurationTexts {
  import opened Text
  import opened Durations

  // ---------- Units ----------

  // Each unit by the next smaller one.
  lemma UnitsMean()
    ensures UnitOf("ns") == Some(1) && UnitOf("us") == Some(1000) && UnitOf("ms") == Some(1000 * 1000)
    ensures UnitOf("s") == Some(1000 * 1000 * 1000) && UnitOf("m") == Some(60 * UnitOf("s").value) && UnitOf("h") == Some(60 * UnitOf("m").value)
    ensures DAY == 24 * UnitOf("h").value && WEEK == 7 * DAY
  {
  }

  lemma UnitNames(unit: string)
    requires UnitOf(unit).Some?
    ensures unit != "" && UnitOf(unit).value > 0 && forall i :: 0 <= i < |unit| ==> IsLetter(unit[i])
  {
  }

  // ---------- Groups ----------

  // A number with its unit; the fraction may be missing, with or without its point.
  datatype Group = Group(whole: string, dotted: bool, part: string, unit: string) {
    predicate Ok() {
      && AllDigits(whole) && AllDigits(part) && (dotted || part == "") && (whole != "" || part != "")
      && UnitOf(unit).Some?
    }

    function AfterWhole(): string {
      if dotted then ['.'] + (part + unit) else unit
    }

    function Text(): string {
      whole + AfterWhole()
    }

    function Value(fraction: Fraction): nat
      requires Ok()
    {
      DigitsValue(whole) * UnitOf(unit).value + if part == "" then 0 else fraction(part, UnitOf(unit).value)
    }
  }

  predicate AllOk(groups: seq<Group>) {
    forall i :: 0 <= i < |groups| ==> groups[i].Ok()
  }

  function TextOf(groups: seq<Group>): string {
    if groups == [] then "" else groups[0].Text() + TextOf(groups[1..])
  }

  function Sum(groups: seq<Group>, fraction: Fraction): nat
    requires AllOk(groups)
  {
    if groups == [] then 0 else groups[0].Value(fraction) + Sum(groups[1..], fraction)
  }

  lemma {:induction false} UnitEnds(unit: string, rest: string)
    requires forall i :: 0 <= i < |unit| ==> IsLetter(unit[i])
    requires rest == "" || !IsLetter(rest[0])
    ensures UnitLength(unit + rest) == |unit|
  {
    if unit == "" {
      assert unit + rest == rest;
    } else {
      assert (unit + rest)[1..] == unit[1..] + rest;
      UnitEnds(unit[1..], rest);
    }
  }

  lemma GroupsStart(groups: seq<Group>)
    requires AllOk(groups)
    ensures TextOf(groups) == "" || !IsLetter(TextOf(groups)[0])
  {
    if groups != [] {
      var g := groups[0];
      assert g.Ok();
      assert TextOf(groups)[0] == g.Text()[0] by { assert g.Text() != ""; }
      if g.whole != "" {
        assert g.Text()[0] == g.whole[0];
      }
    }
  }

  lemma CutDigits(digits: string, after: string)
    requires AllDigits(digits) && (after == "" || !IsDigit(after[0]))
    ensures var s := digits + after;
      LeadingDigits(s) == |digits| && s[..|digits|] == digits && s[|digits|..] == after
  {
    LeadingDigitsOf(digits, after);
  }

  lemma CutUnit(unit: string, rest: string)
    requires UnitOf(unit).Some? && (rest == "" || !IsLetter(rest[0]))
    ensures var s := unit + rest;
      s != "" && s[0] != '.' && !IsDigit(s[0]) && UnitLength(s) == |unit| && s[..|unit|] == unit && s[|unit|..] == rest
  {
    UnitNames(unit);
    UnitEnds(unit, rest);
    hide UnitOf;
    assert (unit + rest)[0] == unit[0] && IsLetter(unit[0]);
  }

  lemma FirstPlain(whole: string, unit: string, rest: string, fraction: Fraction)
    requires AllDigits(whole) && whole != "" && UnitOf(unit).Some? && (rest == "" || !IsLetter(rest[0]))
    ensures FirstGroup(whole + (unit + rest), fraction) ==
      match GroupValue(DigitsValue(whole), "", UnitOf(unit).value, fraction)
      case None => None
      case Some(total) => Some((total, rest))
  {
    hide LeadingDigits, UnitLength, UnitOf, DigitsValue, FirstGroup, GroupValue;
    CutUnit(unit, rest);
    var tail := unit + rest;
    var s := whole + tail;
    CutDigits(whole, tail);
    UnitNames(unit);
    assert s[0] == whole[0];
    FoundFirst(s, fraction, whole, tail, "", tail, unit, rest);
  }

  lemma FirstDotted(whole: string, part: string, unit: string, rest: string, fraction: Fraction)
    requires AllDigits(whole) && AllDigits(part) && (whole != "" || part != "")
    requires UnitOf(unit).Some? && (rest == "" || !IsLetter(rest[0]))
    ensures FirstGroup(whole + (['.'] + (part + (unit + rest))), fraction) ==
      match GroupValue(DigitsValue(whole), part, UnitOf(unit).value, fraction)
      case None => None
      case Some(total) => Some((total, rest))
  {
    hide LeadingDigits, UnitLength, UnitOf, DigitsValue, FirstGroup, GroupValue;
    CutUnit(unit, rest);
    var tail := unit + rest;
    CutDigits(part, tail);
    var after := ['.'] + (part + tail);
    var inner := part + tail;
    assert after[1..] == inner;
    assert after[1..1 + |part|] == inner[..|part|] && after[1 + |part|..] == inner[|part|..];
    var s := whole + after;
    CutDigits(whole, after);
    UnitNames(unit);
    assert s[0] == if whole == "" then '.' else whole[0];
    FoundFirst(s, fraction, whole, after, part, tail, unit, rest);
  }

  lemma FirstOfGroups(g: Group, rest: string, fraction: Fraction)
    requires g.Ok() && (rest == "" || !IsLetter(rest[0]))
    ensures g.Text() + rest != ""
    ensures FirstGroup(g.Text() + rest, fraction) ==
      match GroupValue(DigitsValue(g.whole), g.part, UnitOf(g.unit).value, fraction)
      case None => None
      case Some(total) => Some((total, rest))
  {
    UnitNames(g.unit);
    Regrouped(g, rest);
    hide FirstGroup, GroupValue, UnitOf, DigitsValue, Group.Text, Group.AfterWhole;
    if g.dotted {
      FirstDotted(g.whole, g.part, g.unit, rest, fraction);
    } else {
      FirstPlain(g.whole, g.unit, rest, fraction);
    }
  }

  lemma ValueFits(g: Group, fraction: Fraction)
    requires g.Ok() && g.Value(fraction) <= TWO63
    ensures GroupValue(DigitsValue(g.whole), g.part, UnitOf(g.unit).value, fraction) == Some(g.Value(fraction))
  {
    UnitNames(g.unit);
    WholeFits(DigitsValue(g.whole), UnitOf(g.unit).value, g.Value(fraction));
    hide UnitOf, DigitsValue;
  }

  lemma OneGroupMore(g: Group, rest: string, sum: nat, fraction: Fraction)
    requires g.Ok() && (rest == "" || !IsLetter(rest[0])) && sum + g.Value(fraction) <= TWO63
    ensures ParseGroups(g.Text() + rest, sum, fraction) == ParseGroups(rest, sum + g.Value(fraction), fraction)
  {
    hide FirstGroup, GroupValue, ParseGroups, UnitOf, DigitsValue, Group.Text, Group.Value;
    FirstOfGroups(g, rest, fraction);
    ValueFits(g, fraction);
    AddOne(g.Text() + rest, rest, g.Value(fraction), sum, fraction);
  }

  lemma Regrouped(g: Group, rest: string)
    ensures g.Text() + rest == g.whole + if g.dotted then ['.'] + (g.part + (g.unit + rest)) else g.unit + rest
  {
  }

  lemma WholeFits(v: nat, unit: nat, total: nat)
    requires unit > 0 && v * unit <= total <= TWO63
    ensures v <= TWO63
  {
    assert v * unit == v + v * (unit - 1);
    assert v * (unit - 1) >= 0;
  }

  // A text of groups is read as their sum, as long as it fits.
  lemma {:induction false} GroupsAddUp(groups: seq<Group>, sum: nat, fraction: Fraction)
    requires AllOk(groups) && sum + Sum(groups, fraction) <= TWO63
    ensures ParseGroups(TextOf(groups), sum, fraction) == Some(sum + Sum(groups, fraction))
    decreases |groups|
  {
    hide Group.Ok, Group.Value, Group.Text, ParseGroups;
    if groups == [] {
      Finished(sum, fraction);
    } else {
      assert groups[0].Ok();
      GroupsStart(groups[1..]);
      OneGroupMore(groups[0], TextOf(groups[1..]), sum, fraction);
      GroupsAddUp(groups[1..], sum + groups[0].Value(fraction), fraction);
    }
  }

  lemma FirstFails(s: string, sum: nat, fraction: Fraction)
    requires s != "" && FirstGroup(s, fraction) == None
    ensures ParseGroups(s, sum, fraction) == None
  {
    hide FirstGroup;
  }

  lemma PastTheEnd(s: string, rest: string, total: nat, sum: nat, fraction: Fraction)
    requires s != "" && FirstGroup(s, fraction) == Some((total, rest)) && TWO63 < sum + total < TWO64
    ensures ParseGroups(s, sum, fraction) == None
  {
    hide FirstGroup;
    assert (sum + total) % TWO64 == sum + total;
  }

  lemma ValueTooLarge(g: Group, fraction: Fraction)
    requires g.Ok() && g.Value(fraction) > TWO63
    ensures GroupValue(DigitsValue(g.whole), g.part, UnitOf(g.unit).value, fraction) == None
  {
    hide UnitOf, DigitsValue;
  }

  // If the sum does not fit nothing is read, unless a single group is 2^63 nanoseconds.
  lemma {:induction false} SumDoesNotFit(groups: seq<Group>, sum: nat, fraction: Fraction)
    requires AllOk(groups) && sum <= TWO63 < sum + Sum(groups, fraction)
    requires forall i :: 0 <= i < |groups| ==> groups[i].Value(fraction) != TWO63
    ensures ParseGroups(TextOf(groups), sum, fraction) == None
    decreases |groups|
  {
    hide Group.Ok, Group.Value, Group.Text, ParseGroups, GroupValue, FirstGroup, UnitOf, DigitsValue;
    var g, rest := groups[0], TextOf(groups[1..]);
    assert g.Ok();
    var value := g.Value(fraction);
    GroupsStart(groups[1..]);
    FirstOfGroups(g, rest, fraction);
    if value > TWO63 {
      ValueTooLarge(g, fraction);
      FirstFails(g.Text() + rest, sum, fraction);
    } else if sum + value > TWO63 {
      ValueFits(g, fraction);
      PastTheEnd(g.Text() + rest, rest, value, sum, fraction);
    } else {
      OneGroupMore(g, rest, sum, fraction);
      SumDoesNotFit(groups[1..], sum + value, fraction);
    }
  }

  // A group of 2^63 nanoseconds written twice wraps around to nothing, and that is read.
  lemma TwoHalvesWrapAround(whole: string, fraction: Fraction)
    requires whole != "" && AllDigits(whole) && DigitsValue(whole) == TWO63
    ensures var half := whole + "ns"; ParseDuration(half + half, fraction) == Some(0)
  {
    hide DigitsValue, ParseGroups, ParseDuration, GroupValue, FirstGroup;
    var unit := "ns";
    var half := whole + unit;
    OneValue(TWO63, 1, fraction);
    FirstPlain(whole, unit, half, fraction);
    FirstPlain(whole, unit, "", fraction);
    ConcatAssoc(whole, unit, half);
    assert whole + (unit + "") == half;
    AddOne(half + half, half, TWO63, 0, fraction);
    HalfMore(half, fraction);
    assert (half + half)[0] == whole[0] && |half + half| > 1;
    SignOf("", half + half, fraction);
    assert "" + (half + half) == half + half;
  }

  lemma HalfMore(half: string, fraction: Fraction)
    requires half != "" && FirstGroup(half, fraction) == Some((TWO63, ""))
    ensures ParseGroups(half, TWO63, fraction) == Some(0)
  {
    hide FirstGroup;
    Finished(0, fraction);
    assert (TWO63 + TWO63) % TWO64 == 0;
  }

  lemma ReadOn(s: string, sum: nat, fraction: Fraction)
    requires s != "" && ParseGroups(s, sum, fraction).Some?
    ensures FirstGroup(s, fraction).Some?
    ensures ParseGroups(FirstGroup(s, fraction).value.1, (sum + FirstGroup(s, fraction).value.0) % TWO64, fraction).Some?
  {
    hide FirstGroup;
  }

  lemma OneTextMore(g: Group, more: seq<Group>)
    ensures TextOf([g] + more) == g.Text() + TextOf(more)
  {
    assert ([g] + more)[1..] == more;
  }

  // What is read is made of groups.
  lemma {:induction false} OnlyGroups(s: string, sum: nat, fraction: Fraction) returns (groups: seq<Group>)
    requires ParseGroups(s, sum, fraction).Some?
    ensures AllOk(groups) && TextOf(groups) == s
    decreases |s|
  {
    hide FirstGroup, Group.Ok, Group.Text, ParseGroups;
    groups := [];
    if s != "" {
      ReadOn(s, sum, fraction);
      var total, rest := FirstGroup(s, fraction).value.0, FirstGroup(s, fraction).value.1;
      var g := OnlyGroup(s, rest, fraction);
      var more := OnlyGroups(rest, (sum + total) % TWO64, fraction);
      OneTextMore(g, more);
      groups := [g] + more;
      hide TextOf;
    }
  }

  lemma OnlyGroup(s: string, rest: string, fraction: Fraction) returns (g: Group)
    requires s != "" && FirstGroup(s, fraction).Some? && FirstGroup(s, fraction).value.1 == rest
    ensures g.Ok() && s == g.Text() + rest
  {
    hide LeadingDigits, UnitLength, UnitOf, DigitsValue, GroupValue, AllDigits;
    var n := LeadingDigits(s);
    var whole, after := s[..n], s[n..];
    var dotted := after != "" && after[0] == '.';
    var part, tail := AfterPoint(after);
    var i := UnitLength(tail);
    g := Group(whole, dotted, part, tail[..i]);
    assert rest == tail[i..] && g.Ok();
    hide FirstGroup, Group.Ok;
    Regrouped(g, rest);
    Rejoined(s, n);
    Rejoined(tail, i);
  }

  lemma Rejoined(s: string, n: nat)
    requires n <= |s|
    ensures s[..n] + s[n..] == s
  {
  }

  lemma AfterPoint(after: string) returns (part: string, tail: string)
    ensures var dotted := after != "" && after[0] == '.';
      var m := if dotted then LeadingDigits(after[1..]) else 0;
      && AllDigits(part)
      && part == (if dotted then after[1..1 + m] else "") && tail == (if dotted then after[1 + m..] else after)
      && after == if dotted then ['.'] + (part + tail) else tail
  {
    hide LeadingDigits, AllDigits;
    part, tail := "", after;
    if after != "" && after[0] == '.' {
      var m := LeadingDigits(after[1..]);
      part, tail := after[1..1 + m], after[1 + m..];
      assert after[1..][..m] == part;
      assert after == ['.'] + (part + tail);
    } else {
      assert AllDigits("") by {
        NoDigits();
      }
    }
  }

  lemma NoDigits()
    ensures AllDigits("")
  {
  }

  lemma SignOf(sign: string, body: string, fraction: Fraction)
    requires sign == "" || sign == "+" || sign == "-"
    requires body != "" && body != "0" && body[0] != '+' && body[0] != '-'
    ensures ParseDuration(sign + body, fraction) ==
      match ParseGroups(body, 0, fraction)
      case None => None
      case Some(d) => if d > MAX_INT64 && sign != "-" then None else Some(if sign == "-" then 0 - (d as int) else d as int)
  {
    hide ParseGroups;
    assert sign != "" ==> (sign + body)[0] == sign[0] && (sign + body)[1..] == body;
    assert sign == "" ==> sign + body == body;
  }

  // With a sign in front it is that sum or its negative. "1h30m" is an hour and thirty
  // minutes, "-5s" five seconds less than nothing.
  lemma SignedGroups(sign: string, groups: seq<Group>, fraction: Fraction)
    requires sign == "" || sign == "+" || sign == "-"
    requires AllOk(groups) && groups != [] && Sum(groups, fraction) <= MAX_INT64
    ensures ParseDuration(sign + TextOf(groups), fraction)
      == Some(if sign == "-" then 0 - (Sum(groups, fraction) as int) else Sum(groups, fraction) as int)
  {
    hide ParseDuration, ParseGroups, TextOf, Group.Value;
    GroupsAddUp(groups, 0, fraction);
    GroupsStart(groups);
    NotZeroText(groups);
    SignOf(sign, TextOf(groups), fraction);
  }

  lemma NotZeroText(groups: seq<Group>)
    requires AllOk(groups) && groups != []
    ensures TextOf(groups) != "" && TextOf(groups) != "0"
  {
    var g := groups[0];
    assert g.Ok();
    UnitNames(g.unit);
    hide UnitOf;
    assert |g.Text()| >= 2 && |TextOf(groups)| >= 2;
  }

  // ---------- Blanks and letter case ----------

  lemma CaseKeepsBlanks(s: string, t: string)
    requires SameLetters(s, t)
    ensures Trimmed(s) <==> Trimmed(t)
  {
    LowerForgetsCase(s, t);
    assert |s| == |t|;
    assert forall i :: 0 <= i < |s| ==> LowerChar(s[i]) == LowerChar(t[i]) by {
      assert forall i :: 0 <= i < |s| ==> Lower(s)[i] == Lower(t)[i];
    }
  }

  // Both parsers take a text without its outer blanks, in any letter case.
  lemma CaseAndBlanksIgnored(before: string, text: string, after: string, other: string, fraction: Fraction)
    requires Blank(before) && Blank(after) && Trimmed(text) && SameLetters(text, other)
    ensures ParseFlexible(before + text + after, fraction) == ParseFlexible(other, fraction)
    ensures ParseCaptcha(before + text + after, fraction) == ParseCaptcha(other, fraction)
  {
    hide TrimSpace, Lower, ParseDuration, Amount, Times, SameLetters, Blank, Trimmed;
    TrimSpaceCore(before, text, after);
    CaseKeepsBlanks(text, other);
    TrimSpaceTrimmed(other);
    LowerForgetsCase(text, other);
    LowerTrim(before + text + after);
    LowerTrim(other);
  }

  predicate PlainText(s: string) {
    forall i :: 0 <= i < |s| ==> !IsSpace(s[i]) && LowerChar(s[i]) == s[i]
  }

  lemma UnitsArePlain(unit: string)
    requires UnitOf(unit).Some?
    ensures PlainText(unit)
  {
  }

  lemma {:induction false} GroupsArePlain(groups: seq<Group>)
    requires AllOk(groups)
    ensures PlainText(TextOf(groups))
  {
    if groups != [] {
      var g := groups[0];
      assert g.Ok();
      UnitsArePlain(g.unit);
      GroupsArePlain(groups[1..]);
      hide UnitOf;
      assert PlainText(g.Text());
    }
  }

  lemma PlainIsRead(text: string, d: int, fraction: Fraction)
    requires text != "" && PlainText(text) && ParseDuration(text, fraction) == Some(d)
    ensures ParseFlexible(text, fraction) == Some(d) && ParseCaptcha(text, fraction) == Some(d)
  {
    TrimSpaceTrimmed(text);
    LowerFixed(text);
    hide TrimSpace, Lower, ParseDuration, Amount, Times, PlainText;
  }

  // A text of groups that is not too long is what both parsers read.
  lemma GroupsInParsers(sign: string, groups: seq<Group>, fraction: Fraction)
    requires sign == "" || sign == "+" || sign == "-"
    requires AllOk(groups) && groups != [] && Sum(groups, fraction) <= MAX_INT64
    ensures var d := if sign == "-" then 0 - (Sum(groups, fraction) as int) else Sum(groups, fraction) as int;
      ParseFlexible(sign + TextOf(groups), fraction) == Some(d) && ParseCaptcha(sign + TextOf(groups), fraction) == Some(d)
  {
    hide ParseDuration, ParseFlexible, ParseCaptcha, TextOf, Sum, AllOk;
    SignedGroups(sign, groups, fraction);
    NotZeroText(groups);
    GroupsArePlain(groups);
    var text := sign + TextOf(groups);
    assert PlainText(text) && text != "";
    PlainIsRead(text, if sign == "-" then 0 - (Sum(groups, fraction) as int) else Sum(groups, fraction) as int, fraction);
  }

  // ---------- What is printed ----------

  // Whole seconds are written as a number of the largest unit that divides them.
  lemma LargestUnitWritten(n: nat, unit: char)
    requires n > 0 && unit in "wdhms"
    requires forall larger :: larger in "wdhm" && SizeOf(larger) > SizeOf(unit) ==> (n * SizeOf(unit)) % SizeOf(larger) != 0
    ensures HumanizeFlexible(n * SizeOf(unit)) == FormatInt(n) + [unit] && HumanizeCaptcha(n * SizeOf(unit)) == FormatInt(n) + [unit]
  {
    var d := n * SizeOf(unit);
    UnitDivides(n, unit);
    SmallerUnits(unit);
    PrintedInUnit(d, "0s");
    PrintedInUnit(d, "off");
    hide FormatInt, Humanize;
    assert LargestUnit(d) == unit;
  }

  lemma UnitDivides(n: nat, unit: char)
    requires n > 0 && unit in "wdhms"
    ensures n * SizeOf(unit) > 0 && (n * SizeOf(unit)) % SizeOf(unit) == 0 && (n * SizeOf(unit)) / SizeOf(unit) == n
  {
    if unit == 'w' {
      assert (n * WEEK) % WEEK == 0 && (n * WEEK) / WEEK == n;
    } else if unit == 'd' {
      assert (n * DAY) % DAY == 0 && (n * DAY) / DAY == n;
    } else if unit == 'h' {
      assert (n * HOUR) % HOUR == 0 && (n * HOUR) / HOUR == n;
    } else if unit == 'm' {
      assert (n * MINUTE) % MINUTE == 0 && (n * MINUTE) / MINUTE == n;
    } else {
      assert (n * SECOND) % SECOND == 0 && (n * SECOND) / SECOND == n;
    }
  }

  lemma SmallerUnits(unit: char)
    requires unit in "wdhms"
    ensures forall larger :: larger in "wdhm" && larger != unit ==> SizeOf(larger) > SizeOf(unit) || SizeOf(larger) < SizeOf(unit)
    ensures SizeOf('w') > SizeOf('d') > SizeOf('h') > SizeOf('m') > SizeOf('s')
  {
  }

  // Nothing is written for what is not positive but the words for it.
  lemma NothingWritten(d: int)
    requires d <= 0
    ensures HumanizeFlexible(d) == "0s" && HumanizeCaptcha(d) == "off"
  {
  }
}
