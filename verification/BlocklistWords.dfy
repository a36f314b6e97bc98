// What a blocklist rule does not look at, letter case and white space, and what the wildcard
// characters of a pattern stand for.
module BlocklistWords {
  import opened Text
  import opened Wildcard

  // ---------- Letter case ----------

  predicate SameWords(words: seq<string>, others: seq<string>) {
    |words| == |others| && forall i :: 0 <= i < |words| ==> SameLetters(words[i], others[i])
  }

  // ---------- White space ----------

  // Words with blanks in front, between and behind.
  function Spaced(blanks: seq<string>, words: seq<string>): string
    requires |blanks| == |words| + 1
  {
    if words == [] then blanks[0] else blanks[0] + words[0] + Spaced(blanks[1..], words[1..])
  }

  predicate IsWord(w: string) {
    w != "" && forall i :: 0 <= i < |w| ==> !IsSpace(w[i])
  }

  // Any white space will do, and there is some between two words.
  predicate WellSpaced(blanks: seq<string>, words: seq<string>) {
    && |blanks| == |words| + 1
    && (forall i :: 0 <= i < |blanks| ==> Blank(blanks[i]))
    && (forall i :: 0 < i < |words| ==> blanks[i] != "")
    && (forall i :: 0 <= i < |words| ==> IsWord(words[i]))
  }

  lemma {:induction false} FieldsSkipBlank(blank: string, rest: string)
    requires Blank(blank)
    ensures Fields(blank + rest) == Fields(rest)
  {
    if blank == "" {
      assert blank + rest == rest;
    } else {
      assert (blank + rest)[1..] == blank[1..] + rest;
      FieldsSkipBlank(blank[1..], rest);
    }
  }

  // A text has exactly the words it is made of.
  lemma {:induction false} FieldsOfSpaced(blanks: seq<string>, words: seq<string>)
    requires WellSpaced(blanks, words)
    ensures Fields(Spaced(blanks, words)) == words
    decreases |words|
  {
    if words == [] {
      FieldsSkipBlank(blanks[0], "");
      assert blanks[0] + "" == blanks[0];
    } else {
      var rest := Spaced(blanks[1..], words[1..]);
      FieldsOfSpaced(blanks[1..], words[1..]);
      RestStartsBlank(blanks, words);
      hide Fields;
      FieldsOfWord(words[0], rest);
      FieldsSkipBlank(blanks[0], words[0] + rest);
      ConcatAssoc(blanks[0], words[0], rest);
    }
  }

  lemma RestStartsBlank(blanks: seq<string>, words: seq<string>)
    requires WellSpaced(blanks, words) && words != []
    ensures var rest := Spaced(blanks[1..], words[1..]); rest == "" || IsSpace(rest[0])
    ensures words[0] != "" && !HasSpace(words[0])
  {
    assert blanks[1..][0] == blanks[1];
    if |words| > 1 {
      assert blanks[1] != "";
    }
  }

  lemma BlankInFront(blanks: seq<string>, words: seq<string>)
    requires WellSpaced(blanks, words)
    ensures words != [] && (Spaced(blanks, words) == "" || IsSpace(Spaced(blanks, words)[0])) ==> blanks[0] != ""
  {
    if words != [] && blanks[0] == "" {
      assert IsWord(words[0]) && Spaced(blanks, words)[0] == words[0][0];
    }
  }

  // Every text is made of words and blanks like that.
  lemma {:induction false} EveryTextIsSpaced(s: string) returns (blanks: seq<string>, words: seq<string>)
    ensures WellSpaced(blanks, words) && Spaced(blanks, words) == s && words == Fields(s)
    decreases |s|
  {
    if s == "" {
      blanks, words := [""], [];
    } else if IsSpace(s[0]) {
      blanks, words := EveryTextIsSpaced(s[1..]);
      var longer := [s[0]] + blanks[0];
      assert [s[0]] + s[1..] == s;
      if words != [] {
        ConcatAssoc([s[0]], blanks[0], words[0]);
        ConcatAssoc([s[0]], blanks[0] + words[0], Spaced(blanks[1..], words[1..]));
      }
      blanks := [longer] + blanks[1..];
    } else {
      var n := WordEnd(s);
      var word, rest := s[..n], s[n..];
      assert word + rest == s;
      assert n > 0;
      var more, others := EveryTextIsSpaced(rest);
      BlankInFront(more, others);
      blanks, words := [""] + more, [word] + others;
      assert blanks[1..] == more && words[1..] == others;
      assert "" + word == word;
    }
  }

  lemma {:induction false} FieldsOfTrimmed(s: string)
    ensures Fields(TrimSpace(s)) == Fields(s)
  {
    var core := TrimSpace(s);
    var before, after := TrimParts(s);
    hide TrimSpace;
    FieldsSkipBlank(before, core + after);
    ConcatAssoc(before, core, after);
    FieldsDropBlankEnd(core, after);
  }

  lemma TrimParts(s: string) returns (before: string, after: string)
    ensures Blank(before) && Blank(after) && before + TrimSpace(s) + after == s
  {
    hide TrimStart, TrimEnd;
    var start := TrimStart(s);
    var core := TrimEnd(start);
    before, after := s[..|s| - |start|], start[|core|..];
    assert before + start == s;
    assert core + after == start;
    ConcatAssoc(before, core, after);
  }

  lemma {:induction false} FieldsDropBlankEnd(s: string, blank: string)
    requires Blank(blank)
    ensures Fields(s + blank) == Fields(s)
  {
    var blanks, words := EveryTextIsSpaced(s);
    var n := |words|;
    var more := blanks[n := blanks[n] + blank];
    SpacedThenBlank(blanks, words, blank);
    hide Fields, Spaced;
    FieldsOfSpaced(more, words);
  }

  lemma {:induction false} SpacedThenBlank(blanks: seq<string>, words: seq<string>, blank: string)
    requires |blanks| == |words| + 1
    ensures Spaced(blanks[|words| := blanks[|words|] + blank], words) == Spaced(blanks, words) + blank
    decreases |words|
  {
    var more := blanks[|words| := blanks[|words|] + blank];
    if words != [] {
      SpacedThenBlank(blanks[1..], words[1..], blank);
      assert more[1..] == blanks[1..][|words| - 1 := blanks[1..][|words| - 1] + blank];
      ConcatAssoc(blanks[0] + words[0], Spaced(blanks[1..], words[1..]), blank);
    }
  }

  // ---------- Normalization ----------

  // A normalized text has the words of the text, letter by letter up to case.
  lemma NormalizeKeepsWords(s: string)
    ensures SameWords(Fields(Normalize(s)), Fields(s))
    ensures Fields(Normalize(s)) == LowerAll(Fields(s)) && Normalize(s) == Join(LowerAll(Fields(s)), ' ')
  {
    FieldsOfTrimmed(s);
    var raw := Fields(s);
    LowerJoin(raw);
    LowerKeepsWords(raw);
    hide Fields, TrimSpace, Join;
    FieldsOfJoin(LowerAll(raw));
    forall i | 0 <= i < |raw| ensures SameLetters(LowerAll(raw)[i], raw[i]) {
      LowerForgetsCase(raw[i], raw[i]);
    }
  }

  // Two texts are normalized alike iff they have the same words up to case.
  lemma NormalizedAlikeIff(s: string, t: string)
    ensures Normalize(s) == Normalize(t) <==> SameWords(Fields(s), Fields(t))
  {
    NormalizeKeepsWords(s);
    NormalizeKeepsWords(t);
    hide Normalize, Fields, Join;
    var words, others := Fields(s), Fields(t);
    if Normalize(s) == Normalize(t) {
      forall i | 0 <= i < |words| ensures SameLetters(words[i], others[i]) {
        assert LowerAll(words)[i] == LowerAll(others)[i];
        LowerForgetsCase(words[i], others[i]);
      }
    }
    if SameWords(words, others) {
      forall i | 0 <= i < |words| ensures Lower(words[i]) == Lower(others[i]) {
        LowerForgetsCase(words[i], others[i]);
      }
      assert LowerAll(words) == LowerAll(others);
    }
  }

  // A text given by its words and the white space around and between them.
  datatype Written = Written(blanks: seq<string>, words: seq<string>) {
    predicate Ok() {
      WellSpaced(blanks, words)
    }

    function Text(): string
      requires Ok()
    {
      Spaced(blanks, words)
    }
  }

  // So whether a rule matches a message depends on the words of both up to case, and on
  // nothing else: not on letter case, nor on the white space around and between the words.
  lemma CaseAndSpaceIgnored(mode: MatchMode, rule: Written, otherRule: Written, message: Written, otherMessage: Written)
    requires rule.Ok() && otherRule.Ok() && message.Ok() && otherMessage.Ok()
    requires SameWords(rule.words, otherRule.words) && SameWords(message.words, otherMessage.words)
    ensures MatchesBlocklist(mode, rule.Text(), message.Text()) <==> MatchesBlocklist(mode, otherRule.Text(), otherMessage.Text())
  {
    FieldsOfSpaced(rule.blanks, rule.words);
    FieldsOfSpaced(otherRule.blanks, otherRule.words);
    FieldsOfSpaced(message.blanks, message.words);
    FieldsOfSpaced(otherMessage.blanks, otherMessage.words);
    hide Fields, Spaced, Normalize, SameWords;
    NormalizedAlikeIff(rule.Text(), otherRule.Text());
    NormalizedAlikeIff(message.Text(), otherMessage.Text());
  }

  // An exact rule without wildcards matches the messages with exactly its words up to case.
  lemma PlainRuleIff(rule: string, message: string)
    requires !HasWildcard(rule)
    ensures MatchesBlocklist(Exact, rule, message) <==> SameWords(Fields(rule), Fields(message))
  {
    NormalizedAlikeIff(rule, message);
    PlainStaysPlain(rule);
    hide Normalize, Fields, MatchString;
  }

  lemma {:induction false} JoinedChars(words: seq<string>)
    ensures forall c :: c in Join(words, ' ') ==> c == ' ' || exists i :: 0 <= i < |words| && c in words[i]
  {
    if words != [] {
      JoinedChars(words[1..]);
      assert forall i :: 0 <= i < |words[1..]| ==> words[1..][i] == words[i + 1];
    }
  }

  lemma {:induction false} FieldChars(s: string)
    ensures forall i, c :: 0 <= i < |Fields(s)| && c in Fields(s)[i] ==> c in s
    decreases |s|
  {
    if s == "" {
    } else if IsSpace(s[0]) {
      FieldChars(s[1..]);
      assert forall c :: c in s[1..] ==> c in s;
    } else {
      var n := WordEnd(s);
      FieldChars(s[n..]);
      assert forall c :: c in s[..n] || c in s[n..] ==> c in s;
    }
  }

  lemma PlainStaysPlain(rule: string)
    requires !HasWildcard(rule)
    ensures !HasWildcard(Normalize(rule))
  {
    NormalizeKeepsWords(rule);
    var words := Fields(rule);
    FieldChars(rule);
    JoinedChars(LowerAll(words));
    hide Fields, Normalize, Join;
    forall i, c | 0 <= i < |words| && c in LowerAll(words)[i] ensures c != '?' && c != '*' {
      var k :| 0 <= k < |words[i]| && c == LowerChar(words[i][k]);
      assert words[i][k] in words[i];
    }
  }

  // ---------- What the characters of a pattern stand for ----------

  // A letter stands for itself, `?` for one visible character, `*` for any number of them and
  // `**` for anything on one line.
  lemma PatternMeans(c: char, p: string, s: string)
    ensures InLanguage(Tokens(""), s) <==> s == ""
    ensures c != '?' && c != '*' ==>
      (InLanguage(Tokens([c] + p), s) <==> s != "" && s[0] == c && InLanguage(Tokens(p), s[1..]))
    ensures InLanguage(Tokens(['?'] + p), s) <==> s != "" && Visible(s[0]) && InLanguage(Tokens(p), s[1..])
    ensures p == "" || p[0] != '*' ==>
      (InLanguage(Tokens(['*'] + p), s) <==>
        exists k :: 0 <= k <= |s| && AllVisible(s[..k]) && InLanguage(Tokens(p), s[k..]))
    ensures InLanguage(Tokens(['*', '*'] + p), s) <==>
      exists k :: 0 <= k <= |s| && OneLine(s[..k]) && InLanguage(Tokens(p), s[k..])
  {
    TokensOf(c, p);
    TokensOf('?', p);
    TokensOf('*', p);
    hide Tokens;
    assert s != "" ==> s[..1] == [s[0]];
    if c != '?' && c != '*' {
      OnePiece(Lit(c), Tokens(p), s);
    }
    OnePiece(One, Tokens(p), s);
  }

  lemma TokensOf(c: char, p: string)
    ensures Tokens("") == []
    ensures c != '?' && c != '*' ==> Tokens([c] + p) == [Lit(c)] + Tokens(p)
    ensures Tokens(['?'] + p) == [One] + Tokens(p)
    ensures p == "" || p[0] != '*' ==> Tokens(['*'] + p) == [Word] + Tokens(p)
    ensures Tokens(['*', '*'] + p) == [Any] + Tokens(p)
  {
    assert ([c] + p)[1..] == p && (['?'] + p)[1..] == p && (['*'] + p)[1..] == p && (['*', '*'] + p)[2..] == p;
  }

  lemma OnePiece(t: Token, rest: seq<Token>, s: string)
    requires t.Lit? || t.One?
    ensures InLanguage([t] + rest, s) <==> s != "" && Fits(t, s[..1]) && InLanguage(rest, s[1..])
  {
    assert ([t] + rest)[1..] == rest;
    assert forall k :: 0 <= k <= |s| && Fits(t, s[..k]) ==> k == |s[..k]| == 1;
  }
}
