// The blocklist's wildcard patterns: `?` is one non-space character, `*` a run of
// them, `**` anything on one line. A byte loop compiles a pattern to a regular
// expression, which is then used unanchored, as a prefix or on the whole text.
module Wildcard {
  import opened Text

  // ---------- Normalization of patterns and texts ----------

  function WordEnd(s: string): (k: nat)
    ensures k <= |s|
    ensures forall i :: 0 <= i < k ==> !IsSpace(s[i])
    ensures k < |s| ==> IsSpace(s[k])
  {
    if s == "" || IsSpace(s[0]) then 0 else 1 + WordEnd(s[1..])
  }

  // strings.Fields
  function Fields(s: string): (words: seq<string>)
    ensures forall w :: w in words ==> w != "" && !HasSpace(w)
    decreases |s|
  {
    if s == "" then []
    else if IsSpace(s[0]) then Fields(s[1..])
    else [s[..WordEnd(s)]] + Fields(s[WordEnd(s)..])
  }

  predicate HasSpace(s: string) {
    exists i :: 0 <= i < |s| && IsSpace(s[i])
  }

  function Normalize(s: string): string {
    Lower(Join(Fields(TrimSpace(s)), ' '))
  }

  lemma {:induction false} FieldsOfWord(w: string, rest: string)
    requires w != "" && !HasSpace(w)
    requires rest == "" || IsSpace(rest[0])
    ensures Fields(w + rest) == [w] + Fields(rest)
  {
    WordEndOf(w, rest);
    assert !IsSpace(w[0]);
    assert (w + rest)[..|w|] == w && (w + rest)[|w|..] == rest;
  }

  lemma {:induction false} WordEndOf(w: string, rest: string)
    requires !HasSpace(w)
    requires rest == "" || IsSpace(rest[0])
    ensures WordEnd(w + rest) == |w|
  {
    if w == "" {
      assert w + rest == rest;
    } else {
      assert !IsSpace(w[0]);
      assert (w + rest)[1..] == w[1..] + rest;
      assert forall i :: 0 <= i < |w[1..]| ==> w[1..][i] == w[i + 1];
      WordEndOf(w[1..], rest);
    }
  }

  lemma {:induction false} FieldsOfJoin(words: seq<string>)
    requires forall w :: w in words ==> w != "" && !HasSpace(w)
    ensures Fields(Join(words, ' ')) == words
    ensures Trimmed(Join(words, ' '))
  {
    hide Fields;
    NoFields();
    if words != [] {
      assert words[0] in words;
      NoOuterSpace(words[0]);
    }
    if |words| == 1 {
      FieldsOfWord(words[0], "");
      assert words[0] + "" == words[0];
    } else if |words| > 1 {
      var rest := Join(words[1..], ' ');
      assert forall w :: w in words[1..] ==> w in words;
      FieldsOfJoin(words[1..]);
      FieldsOfSpace(rest);
      hide HasSpace;
      assert Join(words, ' ') == words[0] + ([' '] + rest);
      FieldsOfWord(words[0], [' '] + rest);
      assert rest != "" by { NoFields(); }
    }
  }

  lemma NoFields()
    ensures Fields("") == []
  {
  }

  lemma FieldsOfSpace(rest: string)
    ensures Fields([' '] + rest) == Fields(rest)
  {
    assert ([' '] + rest)[1..] == rest;
  }

  lemma NoOuterSpace(w: string)
    requires w != "" && !HasSpace(w)
    ensures Trimmed(w) && !IsSpace(w[0])
  {
  }

  function LowerAll(words: seq<string>): (r: seq<string>)
    ensures |r| == |words|
    ensures forall i :: 0 <= i < |words| ==> r[i] == Lower(words[i])
  {
    seq(|words|, i requires 0 <= i < |words| => Lower(words[i]))
  }

  lemma {:induction false} LowerJoin(words: seq<string>)
    ensures Lower(Join(words, ' ')) == Join(LowerAll(words), ' ')
  {
    if |words| == 1 {
    } else if |words| > 1 {
      LowerJoin(words[1..]);
      assert LowerAll(words)[1..] == LowerAll(words[1..]);
      assert Lower(words[0] + [' '] + Join(words[1..], ' '))
          == Lower(words[0]) + [' '] + Lower(Join(words[1..], ' '));
    }
  }

  lemma LowerKeepsWords(words: seq<string>)
    requires forall w :: w in words ==> w != "" && !HasSpace(w)
    ensures forall w :: w in LowerAll(words) ==> w != "" && !HasSpace(w)
    ensures LowerAll(LowerAll(words)) == LowerAll(words)
  {
    var lowered := LowerAll(words);
    forall i | 0 <= i < |words|
      ensures lowered[i] != "" && !HasSpace(lowered[i]) && Lower(lowered[i]) == lowered[i]
    {
      assert words[i] in words;
      assert forall k :: 0 <= k < |words[i]| ==> !IsSpace(words[i][k]);
    }
  }

  // Normalizing twice changes nothing: the compiler may normalize what its callers
  // already did.
  lemma NormalizeIdempotent(s: string)
    ensures Normalize(Normalize(s)) == Normalize(s)
  {
    var raw := Fields(TrimSpace(s));
    var words := LowerAll(raw);
    LowerJoin(raw);
    LowerKeepsWords(raw);
    FieldsOfJoin(words);
    TrimSpaceTrimmed(Join(words, ' '));
    LowerJoin(words);
  }

  // ---------- The wildcard language ----------

  datatype Token = Lit(c: char) | One | Word | Any

  function Tokens(p: string): seq<Token> {
    if p == "" then []
    else if p[0] == '*' then
      if |p| > 1 && p[1] == '*' then [Any] + Tokens(p[2..]) else [Word] + Tokens(p[1..])
    else if p[0] == '?' then [One] + Tokens(p[1..])
    else [Lit(p[0])] + Tokens(p[1..])
  }

  // The regular expression class \S, which counts vertical tab as visible.
  predicate Visible(c: char) {
    c != ' ' && c != '\t' && c != '\n' && c != '\r' && c != '\U{0C}'
  }

  predicate AllVisible(s: string) {
    forall i :: 0 <= i < |s| ==> Visible(s[i])
  }

  predicate OneLine(s: string) {
    forall i :: 0 <= i < |s| ==> s[i] != '\n'
  }

  predicate Fits(t: Token, s: string) {
    match t
    case Lit(c) => s == [c]
    case One => |s| == 1 && Visible(s[0])
    case Word => AllVisible(s)
    case Any => OneLine(s)
  }

  // The text s can be cut into pieces that fit the tokens one by one.
  predicate InLanguage(tokens: seq<Token>, s: string)
    decreases |tokens|
  {
    if tokens == [] then s == ""
    else exists k :: 0 <= k <= |s| && Fits(tokens[0], s[..k]) && InLanguage(tokens[1..], s[k..])
  }

  // Some substring of the text is in the language.
  predicate Contains(tokens: seq<Token>, text: string) {
    exists i, j :: 0 <= i <= j <= |text| && InLanguage(tokens, text[i..j])
  }

  predicate StartsWith(tokens: seq<Token>, text: string) {
    exists j :: 0 <= j <= |text| && InLanguage(tokens, text[..j])
  }

  // ---------- The compiler ----------

  // UTF-8, one character per byte: the compiler turns every byte into a character.
  function Utf8(c: char): (bytes: string)
    ensures c as int < 0x80 ==> bytes == [c]
    ensures c as int >= 0x80 ==> |bytes| >= 2 && forall b :: b in bytes ==> 0x80 <= b as int <= 0xFF
  {
    var r := c as int;
    if r < 0x80 then [c]
    else if r < 0x800 then [(0xC0 + r / 0x40) as char, (0x80 + r % 0x40) as char]
    else if r < 0x1_0000 then
      [(0xE0 + r / 0x1000) as char, (0x80 + r / 0x40 % 0x40) as char, (0x80 + r % 0x40) as char]
    else
      [(0xF0 + r / 0x4_0000) as char, (0x80 + r / 0x1000 % 0x40) as char,
       (0x80 + r / 0x40 % 0x40) as char, (0x80 + r % 0x40) as char]
  }

  function Bytes(s: string): string {
    if s == "" then "" else Utf8(s[0]) + Bytes(s[1..])
  }

  predicate IsMeta(c: char) {
    || c == '\\' || c == '.' || c == '+' || c == '*' || c == '?' || c == '(' || c == ')'
    || c == '|' || c == '[' || c == ']' || c == '{' || c == '}' || c == '^' || c == '$'
  }

  // regexp.QuoteMeta of one character
  function QuoteMeta(c: char): string {
    if IsMeta(c) then ['\\', c] else [c]
  }

  function Emit(t: Token): string {
    match t
    case Lit(c) => QuoteMeta(c)
    case One => "\\S"
    case Word => "\\S*"
    case Any => ".*"
  }

  function EmitAll(tokens: seq<Token>): string {
    if tokens == [] then "" else Emit(tokens[0]) + EmitAll(tokens[1..])
  }

  function WildcardRegex(pattern: string): string {
    EmitAll(Tokens(Bytes(Normalize(pattern))))
  }

  // How many characters the token at position i covers.
  function WidthAt(p: string, i: nat): (n: nat)
    requires i < |p|
    ensures 1 <= n <= |p| - i
  {
    if i + 1 < |p| && p[i] == '*' && p[i + 1] == '*' then 2 else 1
  }

  lemma EmitAt(p: string, i: nat, done: string)
    requires i < |p|
    ensures
      var piece :=
        if WidthAt(p, i) == 2 then ".*"
        else if p[i] == '*' then "\\S*"
        else if p[i] == '?' then "\\S"
        else QuoteMeta(p[i]);
      done + EmitAll(Tokens(p[i..])) == (done + piece) + EmitAll(Tokens(p[i + WidthAt(p, i)..]))
  {
    var rest, n := p[i..], WidthAt(p, i);
    assert rest[n..] == p[i + n..];
    assert Tokens(rest)[1..] == Tokens(rest[n..]);
    ConcatAssoc(done, Emit(Tokens(rest)[0]), EmitAll(Tokens(rest[n..])));
  }

  method BlocklistWildcardRegex(pattern: string) returns (regex: string)
    ensures regex == WildcardRegex(pattern)
  {
    regex := CompileBytes(Bytes(Normalize(pattern)));
  }

  // The loop of BlocklistWildcardRegex.
  method CompileBytes(p: string) returns (regex: string)
    ensures regex == EmitAll(Tokens(p))
  {
    ghost var goal := EmitAll(Tokens(p));
    regex := "";
    var i := 0;
    assert p[0..] == p && regex + goal == goal;
    while i < |p|
      invariant 0 <= i <= |p|
      invariant regex + EmitAll(Tokens(p[i..])) == goal
    {
      EmitAt(p, i, regex);
      if i + 1 < |p| && p[i] == '*' && p[i + 1] == '*' {
        regex := regex + ".*";
        i := i + 1;
      } else if p[i] == '*' {
        regex := regex + "\\S*";
      } else if p[i] == '?' {
        regex := regex + "\\S";
      } else {
        regex := regex + QuoteMeta(p[i]);
      }
      i := i + 1;
    }
    assert p[i..] == "" && regex + "" == regex;
  }

  // ---------- The fragment of regular expressions the compiler emits ----------

  datatype Atom = Char(c: char) | NonSpace | Dot | Begin | End
  datatype Item = Item(atom: Atom, star: bool)

  predicate IsAlnum(c: char) {
    'a' <= c <= 'z' || 'A' <= c <= 'Z' || '0' <= c <= '9'
  }

  // The first atom of an expression and how many characters it takes.
  function ParseAtom(re: string): (r: Option<(Atom, nat)>)
    requires re != ""
    ensures r.Some? ==> 1 <= r.value.1 <= |re|
  {
    var c := re[0];
    if c == '\\' then
      if |re| < 2 then None
      else if re[1] == 'S' then Some((NonSpace, 2))
      else if re[1] as int < 0x80 && !IsAlnum(re[1]) then Some((Char(re[1]), 2))
      else None
    else if c == '.' then Some((Dot, 1))
    else if c == '^' then Some((Begin, 1))
    else if c == '$' then Some((End, 1))
    else if IsMeta(c) then None
    else Some((Char(c), 1))
  }

  // Regular expressions made of characters, \S, dot, anchors and star; None for
  // everything else, such as a star on a star or on an anchor.
  function Parse(re: string): Option<seq<Item>>
    decreases |re|
  {
    if re == "" then Some([])
    else
      match ParseAtom(re)
      case None => None
      case Some((atom, n)) =>
        var starred := n < |re| && re[n] == '*';
        if starred && (atom.Begin? || atom.End?) then None
        else
          var rest := Parse(re[if starred then n + 1 else n..]);
          if rest.None? then None else Some([Item(atom, starred)] + rest.value)
  }

  predicate AtomMatches(a: Atom, c: char) {
    match a
    case Char(x) => c == x
    case NonSpace => Visible(c)
    case Dot => c != '\n'
    case Begin => false
    case End => false
  }

  predicate RunMatches(a: Atom, s: string) {
    forall i :: 0 <= i < |s| ==> AtomMatches(a, s[i])
  }

  // The items can consume exactly text[i..j].
  predicate Matches(items: seq<Item>, text: string, i: nat, j: nat)
    requires i <= j <= |text|
    decreases |items|
  {
    if items == [] then i == j
    else
      var a := items[0].atom;
      if items[0].star then
        exists k :: i <= k <= j && RunMatches(a, text[i..k]) && Matches(items[1..], text, k, j)
      else if a.Begin? then i == 0 && Matches(items[1..], text, i, j)
      else if a.End? then i == |text| && Matches(items[1..], text, i, j)
      else i < j && AtomMatches(a, text[i]) && Matches(items[1..], text, i + 1, j)
  }

  // regexp.Compile succeeds and MatchString finds a match somewhere in the text.
  predicate MatchString(re: string, text: string) {
    var items := Parse(re);
    items.Some? && exists i, j :: 0 <= i <= j <= |text| && Matches(items.value, text, i, j)
  }

  // ---------- The three ways a pattern is used ----------

  predicate HasWildcard(pattern: string) {
    '?' in pattern || '*' in pattern
  }

  predicate MatchExactPattern(text: string, pattern: string) {
    if HasWildcard(pattern) then MatchString("^" + WildcardRegex(pattern) + "$", text)
    else text == pattern
  }

  predicate MatchPrefixPattern(text: string, pattern: string) {
    if HasWildcard(pattern) then MatchString("^" + WildcardRegex(pattern), text)
    else HasPrefix(text, pattern)
  }

  predicate MatchWildcardPattern(text: string, pattern: string) {
    if text == "" || pattern == "" then false
    else MatchString(WildcardRegex(pattern), text)
  }

  datatype MatchMode = Exact | Prefix | Wild

  // The blocklist normalizes text and pattern before it looks at the mode.
  predicate MatchesBlocklist(mode: MatchMode, rulePattern: string, message: string) {
    var text := Normalize(message);
    var pattern := Normalize(rulePattern);
    match mode
    case Exact => MatchExactPattern(text, pattern)
    case Prefix => MatchPrefixPattern(text, pattern)
    case Wild => MatchWildcardPattern(text, pattern)
  }

  // ---------- The emitted text parses back to the tokens ----------

  function ItemOf(t: Token): Item {
    match t
    case Lit(c) => Item(Char(c), false)
    case One => Item(NonSpace, false)
    case Word => Item(NonSpace, true)
    case Any => Item(Dot, true)
  }

  function ItemsOf(tokens: seq<Token>): (items: seq<Item>)
    ensures |items| == |tokens|
    ensures forall i :: 0 <= i < |tokens| ==> items[i] == ItemOf(tokens[i])
  {
    seq(|tokens|, i requires 0 <= i < |tokens| => ItemOf(tokens[i]))
  }

  lemma ParseOneItem(t: Token, rest: string)
    requires rest == "" || rest[0] != '*'
    ensures Parse(Emit(t) + rest) ==
            if Parse(rest).None? then None else Some([ItemOf(t)] + Parse(rest).value)
  {
    var e := Emit(t) + rest;
    var n := if t.Any? then 1 else if t.Lit? then |QuoteMeta(t.c)| else 2;
    assert ParseAtom(e) == Some((ItemOf(t).atom, n));
    assert e[|Emit(t)|..] == rest;
  }

  lemma {:induction false} EmitNeverStartsWithStar(tokens: seq<Token>, rest: string)
    requires rest == "" || rest[0] != '*'
    ensures var e := EmitAll(tokens) + rest; e == "" || e[0] != '*'
  {
  }

  lemma {:induction false} ParseEmitThen(tokens: seq<Token>, rest: string)
    requires rest == "" || rest[0] != '*'
    requires Parse(rest).Some?
    ensures Parse(EmitAll(tokens) + rest) == Some(ItemsOf(tokens) + Parse(rest).value)
  {
    var after := Parse(rest).value;
    if tokens == [] {
      assert EmitAll(tokens) + rest == rest;
      assert ItemsOf(tokens) + after == after;
    } else {
      var tail := EmitAll(tokens[1..]) + rest;
      ParseEmitThen(tokens[1..], rest);
      EmitNeverStartsWithStar(tokens[1..], rest);
      ParseOneItem(tokens[0], tail);
      ConcatAssoc(Emit(tokens[0]), EmitAll(tokens[1..]), rest);
      assert ItemsOf(tokens) == [ItemOf(tokens[0])] + ItemsOf(tokens[1..]);
      ConcatAssoc([ItemOf(tokens[0])], ItemsOf(tokens[1..]), after);
    }
  }

  // The compiler is inverted by the regular expression parser.
  lemma ParseEmit(tokens: seq<Token>)
    ensures Parse(EmitAll(tokens)) == Some(ItemsOf(tokens))
  {
    ParseEmitThen(tokens, "");
    assert EmitAll(tokens) + "" == EmitAll(tokens);
    assert ItemsOf(tokens) + [] == ItemsOf(tokens);
  }

  lemma ParseAnchoredAtStart(re: string)
    requires Parse(re).Some? && (re == "" || re[0] != '*')
    ensures Parse("^" + re) == Some([Item(Begin, false)] + Parse(re).value)
  {
    assert ("^" + re)[1..] == re;
    assert ParseAtom("^" + re) == Some((Begin, 1));
  }

  // ---------- The emitted expression means what the tokens mean ----------

  lemma StepMeansFit(t: Token, rest: seq<Item>, text: string, i: nat, j: nat)
    requires i <= j <= |text|
    ensures Matches([ItemOf(t)] + rest, text, i, j) <==>
            exists k :: i <= k <= j && Fits(t, text[i..k]) && Matches(rest, text, k, j)
  {
    assert ([ItemOf(t)] + rest)[1..] == rest;
    assert forall k :: i <= k <= j ==> (RunMatches(ItemOf(t).atom, text[i..k]) <==>
      forall m :: 0 <= m < k - i ==> AtomMatches(ItemOf(t).atom, text[i..k][m]));
    if i < j {
      assert text[i..i + 1] == [text[i]];
    }
    if t.Lit? || t.One? {
      forall k | i <= k <= j && Fits(t, text[i..k]) ensures k == i + 1 {
        assert |text[i..k]| == 1;
      }
    }
  }

  lemma {:induction false} ItemsMeanTokens(tokens: seq<Token>, text: string, i: nat, j: nat)
    requires i <= j <= |text|
    ensures Matches(ItemsOf(tokens), text, i, j) <==> InLanguage(tokens, text[i..j])
    decreases |tokens|
  {
    if tokens != [] {
      var s, rest := text[i..j], tokens[1..];
      assert ItemsOf(tokens) == [ItemOf(tokens[0])] + ItemsOf(rest);
      StepMeansFit(tokens[0], ItemsOf(rest), text, i, j);
      forall k | i <= k <= j
        ensures s[..k - i] == text[i..k]
        ensures Matches(ItemsOf(rest), text, k, j) <==> InLanguage(rest, s[k - i..])
      {
        ItemsMeanTokens(rest, text, k, j);
        assert s[k - i..] == text[k..j];
      }
      if InLanguage(tokens, s) {
        var k :| 0 <= k <= |s| && Fits(tokens[0], s[..k]) && InLanguage(rest, s[k..]);
        assert s[..(i + k) - i] == text[i..i + k];
      }
    }
  }

  lemma {:induction false} MatchesThenEnd(items: seq<Item>, text: string, i: nat, j: nat)
    requires i <= j <= |text|
    ensures Matches(items + [Item(End, false)], text, i, j) <==> j == |text| && Matches(items, text, i, j)
    decreases |items|
  {
    var anchored := items + [Item(End, false)];
    if items == [] {
      assert anchored[1..] == [];
    } else {
      assert anchored[1..] == items[1..] + [Item(End, false)];
      forall k | i <= k <= j
        ensures Matches(anchored[1..], text, k, j) <==> j == |text| && Matches(items[1..], text, k, j)
      {
        MatchesThenEnd(items[1..], text, k, j);
      }
    }
  }

  lemma MatchStringUnanchored(tokens: seq<Token>, text: string)
    ensures MatchString(EmitAll(tokens), text) <==> Contains(tokens, text)
  {
    ParseEmit(tokens);
    forall i, j | 0 <= i <= j <= |text|
      ensures Matches(ItemsOf(tokens), text, i, j) <==> InLanguage(tokens, text[i..j])
    {
      ItemsMeanTokens(tokens, text, i, j);
    }
  }

  lemma MatchStringFromStart(tokens: seq<Token>, text: string)
    ensures MatchString("^" + EmitAll(tokens), text) <==> StartsWith(tokens, text)
  {
    ParseEmit(tokens);
    EmitNeverStartsWithStar(tokens, "");
    assert EmitAll(tokens) + "" == EmitAll(tokens);
    ParseAnchoredAtStart(EmitAll(tokens));
    var items := [Item(Begin, false)] + ItemsOf(tokens);
    assert items[1..] == ItemsOf(tokens);
    forall i, j | 0 <= i <= j <= |text|
      ensures Matches(items, text, i, j) <==> i == 0 && InLanguage(tokens, text[..j])
    {
      ItemsMeanTokens(tokens, text, i, j);
      assert text[0..j] == text[..j];
    }
    if StartsWith(tokens, text) {
      var j :| 0 <= j <= |text| && InLanguage(tokens, text[..j]);
      assert Matches(items, text, 0, j);
    }
  }

  lemma MatchStringWhole(tokens: seq<Token>, text: string)
    ensures MatchString("^" + EmitAll(tokens) + "$", text) <==> InLanguage(tokens, text)
  {
    assert Parse("$") == Some([Item(End, false)]) by {
      assert "$"[1..] == "" && Parse("") == Some([]);
      assert [Item(End, false)] + [] == [Item(End, false)];
    }
    ParseEmitThen(tokens, "$");
    EmitNeverStartsWithStar(tokens, "$");
    ParseAnchoredAtStart(EmitAll(tokens) + "$");
    ConcatAssoc("^", EmitAll(tokens), "$");
    var inner := ItemsOf(tokens) + [Item(End, false)];
    var items := [Item(Begin, false)] + inner;
    assert items[1..] == inner;
    assert Parse("^" + EmitAll(tokens) + "$") == Parse("^" + (EmitAll(tokens) + "$"));
    assert Parse("^" + EmitAll(tokens) + "$") == Some(items);
    forall i, j | 0 <= i <= j <= |text|
      ensures Matches(items, text, i, j) <==> i == 0 && j == |text| && InLanguage(tokens, text)
    {
      MatchesThenEnd(ItemsOf(tokens), text, i, j);
      ItemsMeanTokens(tokens, text, i, j);
      assert text[0..|text|] == text;
    }
    if InLanguage(tokens, text) {
      assert Matches(items, text, 0, |text|);
    }
  }

  // ---------- Main results ----------

  predicate IsAscii(s: string) {
    forall i :: 0 <= i < |s| ==> s[i] as int < 0x80
  }

  lemma {:induction false} BytesOfAscii(s: string)
    requires IsAscii(s)
    ensures Bytes(s) == s
  {
    if s != "" {
      BytesOfAscii(s[1..]);
    }
  }

  // Unanchored use: the pattern matches exactly the texts with a substring in its language.
  lemma WildcardPatternMeaning(text: string, pattern: string)
    requires IsAscii(Normalize(pattern))
    ensures MatchWildcardPattern(text, pattern) <==>
            text != "" && pattern != "" && Contains(Tokens(Normalize(pattern)), text)
  {
    BytesOfAscii(Normalize(pattern));
    MatchStringUnanchored(Tokens(Normalize(pattern)), text);
  }

  // A pattern without wildcards is its own language.
  lemma {:induction false} PlainLanguage(p: string, s: string)
    requires !HasWildcard(p)
    ensures InLanguage(Tokens(p), s) <==> s == p
  {
    if p != "" {
      assert p[0] in p;
      assert forall c :: c in p[1..] ==> c in p;
      if s != "" {
        PlainLanguage(p[1..], s[1..]);
        assert s[..1] == [s[0]] && s == [s[0]] + s[1..] && p == [p[0]] + p[1..];
      }
    }
  }

  lemma PlainPrefix(p: string, text: string)
    requires !HasWildcard(p)
    ensures StartsWith(Tokens(p), text) <==> HasPrefix(text, p)
  {
    forall j | 0 <= j <= |text| ensures InLanguage(Tokens(p), text[..j]) <==> text[..j] == p {
      PlainLanguage(p, text[..j]);
    }
    if HasPrefix(text, p) {
      assert text[..|p|] == p;
    }
  }

  lemma {:induction false} JoinOfWords(words: seq<string>)
    requires forall w :: w in words ==> !HasSpace(w)
    ensures forall c :: c in Join(words, ' ') && IsSpace(c) ==> c == ' '
  {
    if words != [] {
      assert words[0] in words;
      assert forall c :: c in words[0] ==> !IsSpace(c);
      assert forall w :: w in words[1..] ==> w in words;
      JoinOfWords(words[1..]);
    }
  }

  // On the texts the blocklist looks at, the classes of the expression are those of its
  // documentation: visible is not white space, and a dot is any character at all.
  lemma DocumentedClasses(message: string)
    ensures forall c :: c in Normalize(message) ==> c != '\n' && (Visible(c) <==> !IsSpace(c))
  {
    hide TrimSpace, Fields;
    var words := Fields(TrimSpace(message));
    JoinOfWords(words);
    hide Join;
    var joined := Join(words, ' ');
    forall c | c in Lower(joined) ensures c != '\n' && (Visible(c) <==> !IsSpace(c)) {
      var i :| 0 <= i < |joined| && Lower(joined)[i] == c;
      assert joined[i] in joined && c == LowerChar(joined[i]);
    }
  }

  // ---------- What reading a pattern byte by byte costs ----------

  // The number of characters outside ASCII.
  function High(s: string): nat {
    if s == "" then 0 else (if s[0] as int >= 0x80 then 1 else 0) + High(s[1..])
  }

  lemma {:induction false} HighConcat(s: string, t: string)
    ensures High(s + t) == High(s) + High(t)
  {
    if s == "" {
      assert s + t == t;
    } else {
      assert (s + t)[1..] == s[1..] + t;
      HighConcat(s[1..], t);
    }
  }

  lemma {:induction false} HighOfAscii(s: string)
    ensures High(s) == 0 <==> IsAscii(s)
  {
    if s != "" {
      HighOfAscii(s[1..]);
      assert s == [s[0]] + s[1..];
    }
  }

  lemma HighSplit(s: string, k: nat)
    requires k <= |s|
    ensures High(s) == High(s[..k]) + High(s[k..])
  {
    HighConcat(s[..k], s[k..]);
    assert s[..k] + s[k..] == s;
  }

  lemma HighOfPart(s: string, i: nat, j: nat)
    requires i <= j <= |s|
    ensures High(s[i..j]) <= High(s)
  {
    hide High;
    HighSplit(s, i);
    HighSplit(s[i..], j - i);
    assert s[i..][..j - i] == s[i..j];
  }

  lemma {:induction false} HighBytes(bytes: string)
    requires forall b :: b in bytes ==> b as int >= 0x80
    ensures High(bytes) == |bytes|
  {
    if bytes != "" {
      assert bytes[0] in bytes;
      assert forall b :: b in bytes[1..] ==> b in bytes;
      HighBytes(bytes[1..]);
    }
  }

  // Every character outside ASCII becomes at least two bytes outside ASCII.
  lemma {:induction false} BytesDoubleHigh(p: string)
    ensures High(Bytes(p)) >= 2 * High(p)
  {
    if p != "" {
      HighConcat(Utf8(p[0]), Bytes(p[1..]));
      BytesDoubleHigh(p[1..]);
      if p[0] as int >= 0x80 {
        HighBytes(Utf8(p[0]));
      }
    }
  }

  lemma TokenNeedsHigh(q: string, piece: string)
    requires q != "" && Fits(Tokens(q)[0], piece)
    ensures High(piece) >= High(q[..WidthAt(q, 0)])
  {
    if WidthAt(q, 0) == 2 {
      assert q[..2] == "**";
    } else {
      assert q[..1] == [q[0]];
    }
  }

  lemma FirstPiece(q: string, s: string) returns (k: nat)
    requires q != "" && InLanguage(Tokens(q), s)
    ensures k <= |s| && Fits(Tokens(q)[0], s[..k]) && InLanguage(Tokens(q[WidthAt(q, 0)..]), s[k..])
  {
    var tokens := Tokens(q);
    assert tokens[1..] == Tokens(q[WidthAt(q, 0)..]);
    k :| 0 <= k <= |s| && Fits(tokens[0], s[..k]) && InLanguage(tokens[1..], s[k..]);
  }

  // A text in the language of a pattern holds all its literal characters.
  lemma {:induction false} LanguageNeedsHigh(q: string, s: string)
    requires InLanguage(Tokens(q), s)
    ensures High(s) >= High(q)
    decreases |q|
  {
    if q != "" {
      var k := FirstPiece(q, s);
      var n := WidthAt(q, 0);
      TokenNeedsHigh(q, s[..k]);
      LanguageNeedsHigh(q[n..], s[k..]);
      hide *;
      HighSplit(s, k);
      HighSplit(q, n);
    }
  }

  function PlainChar(c: char): char {
    if c == '?' || c == '*' then 'x' else c
  }

  // The pattern with a letter for every wildcard character: a text in its language.
  function Plain(p: string): (s: string)
    ensures |s| == |p|
    ensures forall i :: 0 <= i < |p| ==> s[i] == PlainChar(p[i])
  {
    seq(|p|, i requires 0 <= i < |p| => PlainChar(p[i]))
  }

  lemma {:induction false} PlainInLanguage(p: string)
    ensures InLanguage(Tokens(p), Plain(p))
    decreases |p|
  {
    if p != "" {
      var s, n := Plain(p), WidthAt(p, 0);
      PlainInLanguage(p[n..]);
      assert s[n..] == Plain(p[n..]);
      assert Tokens(p)[1..] == Tokens(p[n..]);
      assert Fits(Tokens(p)[0], s[..n]);
    }
  }

  lemma {:induction false} HighOfPlain(p: string)
    ensures High(Plain(p)) == High(p)
  {
    if p != "" {
      HighOfPlain(p[1..]);
      assert Plain(p)[1..] == Plain(p[1..]);
    }
  }

  // Outside ASCII no part of that text is in the language of the bytes.
  lemma BytesMissPlain(p: string)
    requires !IsAscii(p)
    ensures !Contains(Tokens(Bytes(p)), Plain(p))
    ensures !InLanguage(Tokens(Bytes(p)), Plain(p))
    ensures !StartsWith(Tokens(Bytes(p)), Plain(p))
  {
    var s := Plain(p);
    HighOfAscii(p);
    HighOfPlain(p);
    BytesDoubleHigh(p);
    forall i, j | 0 <= i <= j <= |s| ensures !InLanguage(Tokens(Bytes(p)), s[i..j]) {
      HighOfPart(s, i, j);
      if InLanguage(Tokens(Bytes(p)), s[i..j]) {
        LanguageNeedsHigh(Bytes(p), s[i..j]);
        assert false;
      }
    }
    assert s[0..|s|] == s;
    assert forall j :: 0 <= j <= |s| ==> s[0..j] == s[..j];
  }

  lemma PlainKeepsWords(words: seq<string>)
    requires forall w :: w in words ==> w != "" && !HasSpace(w)
    requires LowerAll(words) == words
    ensures forall w :: w in PlainAll(words) ==> w != "" && !HasSpace(w)
    ensures LowerAll(PlainAll(words)) == PlainAll(words)
  {
    var plain := PlainAll(words);
    forall i | 0 <= i < |words|
      ensures plain[i] != "" && !HasSpace(plain[i]) && Lower(plain[i]) == plain[i]
    {
      var w := words[i];
      assert w in words && Lower(w) == w;
      assert forall k :: 0 <= k < |w| ==> !IsSpace(w[k]);
      assert forall k :: 0 <= k < |w| ==> Lower(w)[k] == w[k];
    }
  }

  // That text is one the blocklist can meet: normalizing it changes nothing.
  lemma PlainIsNormal(raw: string)
    ensures var s := Plain(Normalize(raw)); Normalize(s) == s
  {
    hide TrimSpace, Fields, Plain, Lower, Join;
    var fields := Fields(TrimSpace(raw));
    var words := LowerAll(fields);
    LowerJoin(fields);
    LowerKeepsWords(fields);
    PlainJoin(words);
    PlainKeepsWords(words);
    FieldsOfJoin(PlainAll(words));
    TrimSpaceTrimmed(Join(PlainAll(words), ' '));
    LowerJoin(PlainAll(words));
  }

  function PlainAll(words: seq<string>): (r: seq<string>)
    ensures |r| == |words|
    ensures forall i :: 0 <= i < |words| ==> r[i] == Plain(words[i])
  {
    seq(|words|, i requires 0 <= i < |words| => Plain(words[i]))
  }

  lemma {:induction false} PlainJoin(words: seq<string>)
    ensures Plain(Join(words, ' ')) == Join(PlainAll(words), ' ')
  {
    if |words| == 1 {
    } else if |words| > 1 {
      PlainJoin(words[1..]);
      assert PlainAll(words)[1..] == PlainAll(words[1..]);
      assert Plain(words[0] + [' '] + Join(words[1..], ' '))
          == Plain(words[0]) + [' '] + Plain(Join(words[1..], ' '));
    }
  }

  // ---------- Exactly when each mode is right ----------

  // What a rule is documented to match, in each mode.
  predicate Means(mode: MatchMode, pattern: string, text: string) {
    match mode
    case Exact => InLanguage(Tokens(pattern), text)
    case Prefix => StartsWith(Tokens(pattern), text)
    case Wild => text != "" && pattern != "" && Contains(Tokens(pattern), text)
  }

  predicate MatchesPattern(mode: MatchMode, pattern: string, text: string) {
    match mode
    case Exact => MatchExactPattern(text, pattern)
    case Prefix => MatchPrefixPattern(text, pattern)
    case Wild => MatchWildcardPattern(text, pattern)
  }

  // Comparing strings is right for every alphabet, the byte loop for ASCII only.
  predicate ModeRight(mode: MatchMode, pattern: string) {
    IsAscii(pattern) || (mode != Wild && !HasWildcard(pattern))
  }

  lemma PatternMeaning(mode: MatchMode, pattern: string, text: string)
    requires Normalize(pattern) == pattern && ModeRight(mode, pattern)
    ensures MatchesPattern(mode, pattern, text) <==> Means(mode, pattern, text)
  {
    if mode != Wild && !HasWildcard(pattern) {
      PlainLanguage(pattern, text);
      PlainPrefix(pattern, text);
    } else {
      BytesOfAscii(pattern);
      MatchStringWhole(Tokens(pattern), text);
      MatchStringFromStart(Tokens(pattern), text);
      MatchStringUnanchored(Tokens(pattern), text);
    }
  }

  lemma WholeIsPart(tokens: seq<Token>, text: string)
    requires InLanguage(tokens, text)
    ensures StartsWith(tokens, text) && Contains(tokens, text)
  {
    assert text[..|text|] == text && text[0..|text|] == text;
  }

  // In the other cases the pattern with letters for its wildcards is a text it misses.
  lemma PatternMisses(mode: MatchMode, pattern: string)
    requires Normalize(pattern) == pattern && !ModeRight(mode, pattern)
    ensures !MatchesPattern(mode, pattern, Plain(pattern)) && Means(mode, pattern, Plain(pattern))
  {
    hide MatchString, InLanguage, StartsWith, Contains, Normalize, EmitAll, Tokens, Bytes, HasPrefix, HasWildcard;
    var text, tokens := Plain(pattern), Tokens(Bytes(pattern));
    BytesMissPlain(pattern);
    MatchStringWhole(tokens, text);
    MatchStringFromStart(tokens, text);
    MatchStringUnanchored(tokens, text);
    PlainInLanguage(pattern);
    WholeIsPart(Tokens(pattern), text);
    assert pattern != "" && text != "";
  }

  // Over all texts: a mode is right for a pattern if and only if the pattern is ASCII or,
  // in exact and prefix mode, has no wildcard.
  lemma PatternMeaningIff(mode: MatchMode, pattern: string)
    requires Normalize(pattern) == pattern
    ensures (forall text :: MatchesPattern(mode, pattern, text) <==> Means(mode, pattern, text))
       <==> ModeRight(mode, pattern)
  {
    if ModeRight(mode, pattern) {
      forall text ensures MatchesPattern(mode, pattern, text) <==> Means(mode, pattern, text) {
        PatternMeaning(mode, pattern, text);
      }
    } else {
      PatternMisses(mode, pattern);
    }
  }

  // Over all messages and whatever the spacing and letter case of the rule: the three modes
  // are the three readings of one language under the same condition.
  lemma BlocklistModesAgreeIff(mode: MatchMode, rulePattern: string)
    ensures
      var pattern := Normalize(rulePattern);
      (forall message :: MatchesBlocklist(mode, rulePattern, message)
                    <==> Means(mode, pattern, Normalize(message)))
      <==> ModeRight(mode, pattern)
  {
    var pattern := Normalize(rulePattern);
    NormalizeIdempotent(rulePattern);
    if ModeRight(mode, pattern) {
      forall message
        ensures MatchesBlocklist(mode, rulePattern, message) <==> Means(mode, pattern, Normalize(message))
      {
        PatternMeaning(mode, pattern, Normalize(message));
      }
    } else {
      PatternMisses(mode, pattern);
      PlainIsNormal(rulePattern);
      assert MatchesBlocklist(mode, rulePattern, Plain(pattern))
        == MatchesPattern(mode, pattern, Normalize(Plain(pattern)));
    }
  }

  lemma AsciiFastPath(pattern: string, text: string)
    requires Normalize(pattern) == pattern && IsAscii(pattern)
    ensures MatchExactPattern(text, pattern) <==> MatchString("^" + WildcardRegex(pattern) + "$", text)
    ensures MatchPrefixPattern(text, pattern) <==> MatchString("^" + WildcardRegex(pattern), text)
  {
    hide MatchString, MatchExactPattern, MatchPrefixPattern, InLanguage, StartsWith, Normalize, EmitAll, Tokens;
    BytesOfAscii(pattern);
    PatternMeaning(Exact, pattern, text);
    PatternMeaning(Prefix, pattern, text);
    MatchStringWhole(Tokens(pattern), text);
    MatchStringFromStart(Tokens(pattern), text);
  }

  lemma AccentedFastPath(pattern: string)
    requires Normalize(pattern) == pattern && !IsAscii(pattern) && !HasWildcard(pattern)
    ensures MatchExactPattern(pattern, pattern) && MatchPrefixPattern(pattern, pattern)
    ensures !MatchString("^" + WildcardRegex(pattern) + "$", pattern)
    ensures !MatchString("^" + WildcardRegex(pattern), pattern)
  {
    hide MatchString, InLanguage, StartsWith, Contains, Normalize, EmitAll, Tokens, Bytes;
    assert forall i :: 0 <= i < |pattern| ==> pattern[i] in pattern;
    assert Plain(pattern) == pattern;
    BytesMissPlain(pattern);
    MatchStringWhole(Tokens(Bytes(pattern)), pattern);
    MatchStringFromStart(Tokens(Bytes(pattern)), pattern);
  }

  // The comparison of strings gives the answers of the anchored expression exactly for
  // ASCII patterns; with a wildcard the expression itself is asked.
  lemma FastPathIff(pattern: string)
    requires Normalize(pattern) == pattern
    ensures
      (forall text :: MatchExactPattern(text, pattern) <==> MatchString("^" + WildcardRegex(pattern) + "$", text))
      <==> IsAscii(pattern) || HasWildcard(pattern)
    ensures
      (forall text :: MatchPrefixPattern(text, pattern) <==> MatchString("^" + WildcardRegex(pattern), text))
      <==> IsAscii(pattern) || HasWildcard(pattern)
  {
    hide MatchString, IsAscii, Normalize, WildcardRegex, HasPrefix;
    if IsAscii(pattern) {
      forall text { AsciiFastPath(pattern, text); }
    } else if !HasWildcard(pattern) {
      AccentedFastPath(pattern);
    }
  }

  // The compiled language is the wildcard language if and only if the normalized pattern
  // is ASCII.
  lemma CompilerCorrectIffAscii(pattern: string)
    ensures
      var p := Normalize(pattern);
      (forall s :: InLanguage(Tokens(Bytes(p)), s) <==> InLanguage(Tokens(p), s)) <==> IsAscii(p)
  {
    var p := Normalize(pattern);
    if IsAscii(p) {
      BytesOfAscii(p);
    } else {
      PlainInLanguage(p);
      BytesMissPlain(p);
    }
  }

  // Outside ASCII the difference shows: a word matches itself as an exact rule and does not
  // as a wildcard rule.
  lemma AccentedWordFails(p: string)
    requires Normalize(p) == p && !IsAscii(p) && !HasWildcard(p)
    ensures MatchesBlocklist(Exact, p, p) && !MatchesBlocklist(Wild, p, p)
  {
    hide Normalize, IsAscii, HasWildcard, MatchWildcardPattern, Means;
    PatternMisses(Wild, p);
    PlainOfPlain(p);
  }

  lemma PlainOfPlain(p: string)
    requires !HasWildcard(p)
    ensures Plain(p) == p
  {
    assert forall i :: 0 <= i < |p| ==> p[i] in p;
  }

  // So it is for the letter U+00E9.
  lemma AccentedPatternFails(words: seq<string>)
    requires words == ["\U{E9}"]
    ensures var p := words[0]; Normalize(p) == p && MatchesBlocklist(Exact, p, p) && !MatchesBlocklist(Wild, p, p)
  {
    hide Fields, TrimSpace, MatchesBlocklist;
    assert Join(words, ' ') == words[0];
    assert forall w :: w in words ==> w == words[0];
    FieldsOfJoin(words);
    TrimSpaceTrimmed(words[0]);
    assert Lower(words[0]) == words[0];
    AccentedWordFails(words[0]);
  }
}
