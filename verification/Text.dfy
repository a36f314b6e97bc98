// The string operations the bot relies on (Go's strings and strconv packages),
// written over sequences of Unicode characters.
module Text {

  datatype Option<+T> = None | Some(value: T)

  const MAX_INT64: int := 0x7fff_ffff_ffff_ffff
  const MIN_INT64: int := -0x8000_0000_0000_0000

  // Two's complement wrap-around of a 64-bit signed integer.
  function Wrap64(n: int): (r: int)
    ensures MIN_INT64 <= r <= MAX_INT64
    ensures MIN_INT64 <= n <= MAX_INT64 <==> r == n
  {
    (n + 0x8000_0000_0000_0000) % 0x1_0000_0000_0000_0000 - 0x8000_0000_0000_0000
  }

  lemma ConcatAssoc<T>(a: seq<T>, b: seq<T>, c: seq<T>)
    ensures (a + b) + c == a + (b + c)
  {
  }

  lemma SomeMember(s: set<int>)
    requires s != {}
    ensures exists x :: x in s
  {
    assert (forall x :: x !in s) ==> s == {};
  }

  // unicode.IsSpace
  predicate IsSpace(c: char) {
    var r := c as int;
    || 0x9 <= r <= 0xD || r == 0x20 || r == 0x85 || r == 0xA0
    || r == 0x1680 || 0x2000 <= r <= 0x200A || r == 0x2028 || r == 0x2029
    || r == 0x202F || r == 0x205F || r == 0x3000
  }

  predicate IsDigit(c: char) {
    '0' <= c <= '9'
  }

  // strings.ToLower on ASCII letters; every other character is kept.
  function LowerChar(c: char): (r: char)
    ensures !('A' <= r <= 'Z')
    ensures IsSpace(c) <==> IsSpace(r)
  {
    if 'A' <= c <= 'Z' then (c as int + 32) as char else c
  }

  function Lower(s: string): (r: string)
    ensures |r| == |s|
    ensures forall i :: 0 <= i < |s| ==> r[i] == LowerChar(s[i])
  {
    seq(|s|, i requires 0 <= i < |s| => LowerChar(s[i]))
  }

  // The same letter of the ASCII alphabet in another case.
  predicate OtherCase(upper: char, lower: char) {
    'A' <= upper <= 'Z' && lower as int - 'a' as int == upper as int - 'A' as int
  }

  predicate SameLetter(c: char, d: char) {
    c == d || OtherCase(c, d) || OtherCase(d, c)
  }

  predicate SameLetters(s: string, t: string) {
    |s| == |t| && forall i :: 0 <= i < |s| ==> SameLetter(s[i], t[i])
  }

  lemma LowerForgetsCase(s: string, t: string)
    ensures Lower(s) == Lower(t) <==> SameLetters(s, t)
    ensures SameLetters(Lower(s), s)
  {
    if Lower(s) == Lower(t) {
      assert |s| == |Lower(s)| == |t|;
      forall i | 0 <= i < |s| ensures SameLetter(s[i], t[i]) {
        assert Lower(s)[i] == Lower(t)[i];
      }
    }
  }

  predicate HasPrefix(s: string, prefix: string) {
    prefix <= s
  }

  predicate HasSuffix(s: string, suffix: string) {
    |suffix| <= |s| && s[|s| - |suffix|..] == suffix
  }

  // strings.Index for a one-character separator; None stands for -1.
  function IndexOf(s: string, c: char): (r: Option<nat>)
    ensures r.Some? ==> r.value < |s| && s[r.value] == c && c !in s[..r.value]
    ensures r.None? <==> c !in s
  {
    if s == "" then None
    else if s[0] == c then Some(0)
    else
      match IndexOf(s[1..], c)
      case None => None
      case Some(k) => assert s[..k + 1] == [s[0]] + s[1..][..k]; Some(k + 1)
  }

  lemma {:induction false} IndexOfFirst(s: string, c: char, k: nat)
    requires k < |s| && s[k] == c && c !in s[..k]
    ensures IndexOf(s, c) == Some(k)
  {
    if k > 0 {
      assert s[..k][0] == s[0];
      assert s[..k] == [s[0]] + s[1..][..k - 1];
      IndexOfFirst(s[1..], c, k - 1);
    }
  }

  // ---------- Trimming ----------

  function TrimStart(s: string): (r: string)
    ensures |r| <= |s| && r == s[|s| - |r|..]
    ensures r == "" || !IsSpace(r[0])
    ensures forall i :: 0 <= i < |s| - |r| ==> IsSpace(s[i])
  {
    if s == "" || !IsSpace(s[0]) then s else TrimStart(s[1..])
  }

  function TrimEnd(s: string): (r: string)
    ensures |r| <= |s| && r == s[..|r|]
    ensures r == "" || !IsSpace(r[|r| - 1])
    ensures forall i :: |r| <= i < |s| ==> IsSpace(s[i])
  {
    if s == "" || !IsSpace(s[|s| - 1]) then s else TrimEnd(s[..|s| - 1])
  }

  // strings.TrimSpace
  function TrimSpace(s: string): (r: string)
    ensures r == "" || (!IsSpace(r[0]) && !IsSpace(r[|r| - 1]))
    ensures forall c :: c in r ==> c in s
  {
    TrimEnd(TrimStart(s))
  }

  // Text that TrimSpace leaves alone.
  predicate Trimmed(s: string) {
    s == "" || (!IsSpace(s[0]) && !IsSpace(s[|s| - 1]))
  }

  predicate Blank(s: string) {
    forall i :: 0 <= i < |s| ==> IsSpace(s[i])
  }

  lemma {:induction false} TrimStartSkips(before: string, rest: string)
    requires Blank(before) && (rest == "" || !IsSpace(rest[0]))
    ensures TrimStart(before + rest) == rest
  {
    if before == "" {
      assert before + rest == rest;
    } else {
      assert (before + rest)[1..] == before[1..] + rest;
      TrimStartSkips(before[1..], rest);
    }
  }

  lemma {:induction false} TrimEndSkips(rest: string, after: string)
    requires Blank(after) && (rest == "" || !IsSpace(rest[|rest| - 1]))
    ensures TrimEnd(rest + after) == rest
  {
    if after == "" {
      assert rest + after == rest;
    } else {
      assert (rest + after)[..|rest + after| - 1] == rest + after[..|after| - 1];
      TrimEndSkips(rest, after[..|after| - 1]);
    }
  }

  // Whatever white space surrounds a trimmed core, TrimSpace finds the core.
  lemma TrimSpaceCore(before: string, core: string, after: string)
    requires Blank(before) && Blank(after) && Trimmed(core)
    ensures TrimSpace(before + core + after) == core
  {
    if core == "" {
      assert before + core + after == (before + after) + "";
      TrimStartSkips(before + after, "");
    } else {
      assert before + core + after == before + (core + after);
      TrimStartSkips(before, core + after);
      TrimEndSkips(core, after);
    }
  }

  lemma TrimSpaceTrimmed(s: string)
    requires Trimmed(s)
    ensures TrimSpace(s) == s
  {
    TrimSpaceCore("", s, "");
    assert "" + s + "" == s;
  }

  // strings.TrimLeft(s, " ")
  function TrimLeftBlanks(s: string): (r: string)
    ensures |r| <= |s| && r == s[|s| - |r|..]
    ensures r == "" || r[0] != ' '
  {
    if s == "" || s[0] != ' ' then s else TrimLeftBlanks(s[1..])
  }

  // ---------- Lines ----------

  // strings.Split on one character; never empty.
  function Split(s: string, sep: char): (r: seq<string>)
    ensures |r| >= 1
    ensures forall i :: 0 <= i < |r| ==> sep !in r[i]
  {
    if s == "" then [""]
    else
      var rest := Split(s[1..], sep);
      if s[0] == sep then [""] + rest
      else [[s[0]] + rest[0]] + rest[1..]
  }

  // strings.Join with one character between.
  function Join(parts: seq<string>, sep: char): string {
    if |parts| == 0 then ""
    else if |parts| == 1 then parts[0]
    else parts[0] + [sep] + Join(parts[1..], sep)
  }

  lemma {:induction false} SplitHead(a: string, rest: string, sep: char)
    requires sep !in a
    ensures Split(a + [sep] + rest, sep) == [a] + Split(rest, sep)
    ensures Split(a, sep) == [a]
  {
    if a == "" {
      assert a + [sep] + rest == [sep] + rest;
      assert ([sep] + rest)[1..] == rest;
    } else {
      SplitHead(a[1..], rest, sep);
      var s := a + [sep] + rest;
      assert s[1..] == a[1..] + [sep] + rest;
      assert a == [a[0]] + a[1..];
    }
  }

  // Splitting what was joined gives the parts back.
  lemma {:induction false} SplitJoin(parts: seq<string>, sep: char)
    requires |parts| >= 1
    requires forall i :: 0 <= i < |parts| ==> sep !in parts[i]
    ensures Split(Join(parts, sep), sep) == parts
  {
    if |parts| == 1 {
      SplitHead(parts[0], "", sep);
    } else {
      SplitJoin(parts[1..], sep);
      SplitHead(parts[0], Join(parts[1..], sep), sep);
    }
  }

  // Joining what was split gives the text back.
  lemma {:induction false} JoinSplit(s: string, sep: char)
    ensures Join(Split(s, sep), sep) == s
  {
    if s != "" {
      JoinSplit(s[1..], sep);
      var rest := Split(s[1..], sep);
      if s[0] == sep {
        assert ([""] + rest)[1..] == rest;
        assert "" + [sep] + s[1..] == s;
      } else {
        var r := Split(s, sep);
        assert r[1..] == rest[1..];
        assert s == [s[0]] + s[1..];
        if |rest| > 1 {
          assert [s[0]] + (rest[0] + [sep] + Join(rest[1..], sep)) == ([s[0]] + rest[0]) + [sep] + Join(rest[1..], sep);
        }
      }
    }
  }

  lemma {:induction false} SplitAppend(a: string, b: string, sep: char)
    ensures Split(a + [sep] + b, sep) == Split(a, sep) + Split(b, sep)
    decreases |a|
  {
    match IndexOf(a, sep)
    case None =>
      SplitHead(a, b, sep);
    case Some(k) =>
      var head, tail := a[..k], a[k + 1..];
      assert a == head + [sep] + tail;
      assert a + [sep] + b == head + [sep] + (tail + [sep] + b);
      SplitHead(head, tail, sep);
      SplitHead(head, tail + [sep] + b, sep);
      SplitAppend(tail, b, sep);
      assert [head] + (Split(tail, sep) + Split(b, sep)) == ([head] + Split(tail, sep)) + Split(b, sep);
  }

  // ---------- Decimal integers ----------

  function Digit(d: nat): (c: char)
    requires d < 10
    ensures IsDigit(c) && DigitValue(c) == d
  {
    ('0' as int + d) as char
  }

  function DigitValue(c: char): nat
    requires IsDigit(c)
  {
    c as int - '0' as int
  }

  predicate AllDigits(s: string) {
    forall i :: 0 <= i < |s| ==> IsDigit(s[i])
  }

  // Decimal digits of a natural number, without leading zeros.
  function Digits(n: nat): (s: string)
    ensures s != "" && AllDigits(s)
  {
    if n < 10 then [Digit(n)] else Digits(n / 10) + [Digit(n % 10)]
  }

  function DigitsValue(s: string): nat
    requires AllDigits(s)
  {
    if s == "" then 0
    else DigitsValue(s[..|s| - 1]) * 10 + DigitValue(s[|s| - 1])
  }

  lemma {:induction false} DigitsRoundTrip(n: nat)
    ensures DigitsValue(Digits(n)) == n
  {
    var s := Digits(n);
    if n < 10 {
      assert s[..|s| - 1] == "";
    } else {
      DigitsRoundTrip(n / 10);
      assert s[..|s| - 1] == Digits(n / 10);
    }
  }

  // strconv.FormatInt(n, 10)
  function FormatInt(n: int): (s: string)
    ensures s != "" && Trimmed(s)
    ensures forall c :: c in s ==> c == '-' || IsDigit(c)
  {
    if n < 0 then "-" + Digits(-n) else Digits(n)
  }

  // strconv.ParseInt(s, 10, 64) and, on a 64-bit platform, strconv.Atoi.
  function ParseInt(s: string): (r: Option<int>)
    ensures r.Some? ==> MIN_INT64 <= r.value <= MAX_INT64
  {
    var signed := s != "" && (s[0] == '-' || s[0] == '+');
    var digits := if signed then s[1..] else s;
    if digits == "" || !AllDigits(digits) then None
    else
      var magnitude: int := DigitsValue(digits);
      var n := if signed && s[0] == '-' then -magnitude else magnitude;
      if MIN_INT64 <= n <= MAX_INT64 then Some(n) else None
  }

  lemma ParseFormatInt(n: int)
    requires MIN_INT64 <= n <= MAX_INT64
    ensures ParseInt(FormatInt(n)) == Some(n)
  {
    var s := FormatInt(n);
    if n < 0 {
      assert s[1..] == Digits(-n);
      DigitsRoundTrip(-n);
    } else {
      assert IsDigit(s[0]);
      DigitsRoundTrip(n);
    }
  }
}
