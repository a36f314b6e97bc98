// The lines of a ban import as people write them: blanks anywhere around the parts, with or
// without the dash that an export puts in front.
module ImportLines {
  import opened Text
  import opened FederationRegistry
  import opened BanExchange

  // What stands in front of the user id.
  predicate InFront(outer: string, dash: string, before: string) {
    Blank(outer) && Blank(before) && (dash == "" || dash == "-")
  }

  lemma BlankConcat(a: string, b: string)
    requires Blank(a) && Blank(b)
    ensures Blank(a + b)
  {
  }

  // What is left of a line when blanks and one dash are cut.
  lemma BodyOfLine(outer: string, dash: string, before: string, body: string, after: string)
    requires InFront(outer, dash, before) && Blank(after)
    requires Trimmed(body) && body != "" && (dash == "" ==> body[0] != '-')
    ensures
      var trimmed := TrimSpace(outer + dash + before + body + after);
      TrimSpace(if HasPrefix(trimmed, "-") then trimmed[1..] else trimmed) == body
  {
    hide TrimSpace;
    var line := outer + dash + before + body + after;
    if dash == "" {
      BlankConcat(outer, before);
      assert line == (outer + before) + body + after;
      TrimSpaceCore(outer + before, body, after);
      TrimSpaceTrimmed(body);
    } else {
      var core := dash + before + body;
      assert core[0] == '-' && core[|core| - 1] == body[|body| - 1];
      assert line == outer + core + after;
      TrimSpaceCore(outer, core, after);
      assert core[1..] == before + body + "";
      TrimSpaceCore(before, body, "");
    }
  }

  // A reason without its outer blanks.
  lemma ReasonParts(reason: string) returns (b: string, core: string, e: string)
    ensures Blank(b) && Blank(e) && Trimmed(core) && reason == b + core + e && core == TrimSpace(reason)
  {
    hide TrimStart, TrimEnd;
    var start := TrimStart(reason);
    core := TrimEnd(start);
    b, e := reason[..|reason| - |start|], start[|core|..];
    assert core + e == start && b + start == reason;
    ConcatAssoc(b, core, e);
  }

  lemma UserAndReason(user: string, mid: string, reason: string, actor: int)
    requires user != "" && Trimmed(user) && ':' !in user && Blank(mid) && (reason == "" || !IsSpace(reason[|reason| - 1]))
    ensures var body := user + mid + ":" + reason;
      Trimmed(body) && Cut(body) == (user + mid, reason) && TrimSpace(user + mid) == user
  {
    hide TrimSpace, IndexOf;
    var body := user + mid + ":" + reason;
    var k := |user + mid|;
    assert ':' !in user + mid;
    assert body[..k] == user + mid && body[k] == ':' && body[k + 1..] == reason;
    IndexOfFirst(body, ':', k);
    assert "" + user + mid == user + mid;
    TrimSpaceCore("", user, mid);
  }

  lemma ParseBody(line: string, body: string, actor: int)
    requires body != ""
    requires var trimmed := TrimSpace(line); TrimSpace(if HasPrefix(trimmed, "-") then trimmed[1..] else trimmed) == body
    ensures ParseLine(line, actor) ==
      match ParseInt(TrimSpace(Cut(body).0))
      case None => Invalid
      case Some(id) => Entry(Ban(id, TrimSpace(Cut(body).1), actor))
  {
    hide TrimSpace, ParseInt, IndexOf;
  }

  // The reason as it is left when the line has been trimmed, and what was trimmed away.
  lemma ShownReason(reason: string, after: string) returns (shown: string, tail: string)
    requires Blank(after)
    ensures shown + tail == reason + after && Blank(tail) && TrimSpace(shown) == TrimSpace(reason)
    ensures shown == "" || !IsSpace(shown[|shown| - 1])
  {
    hide TrimSpace;
    var b, core, e := ReasonParts(reason);
    BlankConcat(b, e);
    BlankConcat(b + e, after);
    BlankConcat(e, after);
    if core == "" {
      shown, tail := "", b + e + after;
      TrimSpaceTrimmed(shown);
    } else {
      shown, tail := b + core, e + after;
      assert b + core + "" == shown;
      TrimSpaceCore(b, core, "");
    }
  }

  lemma Regroup(front: string, user: string, mid: string, colon: string, shown: string, tail: string, reason: string, after: string)
    requires shown + tail == reason + after
    ensures front + (user + mid + colon + shown) + tail == front + user + mid + colon + reason + after
  {
    assert front + (user + mid + colon + shown) + tail == front + user + mid + colon + (shown + tail);
    assert front + user + mid + colon + (reason + after) == front + user + mid + colon + reason + after;
  }

  // The part in front of the first colon is the user, trimmed; the rest is the reason.
  lemma LineByParts(outer: string, dash: string, before: string, user: string, mid: string, reason: string, after: string, actor: int)
    requires InFront(outer, dash, before) && Blank(mid) && Blank(after)
    requires user != "" && Trimmed(user) && ':' !in user && (dash == "" ==> user[0] != '-')
    ensures ParseLine(outer + dash + before + user + mid + ":" + reason + after, actor) ==
      match ParseInt(user)
      case None => Invalid
      case Some(id) => Entry(Ban(id, TrimSpace(reason), actor))
  {
    hide TrimSpace, ParseInt, ParseLine, Cut, InFront;
    var shown, tail := ShownReason(reason, after);
    var body := user + mid + ":" + shown;
    UserAndReason(user, mid, shown, actor);
    assert body[0] == user[0];
    Regroup(outer + dash + before, user, mid, ":", shown, tail, reason, after);
    BodyOfLine(outer, dash, before, body, tail);
    ParseBody(outer + dash + before + user + mid + ":" + reason + after, body, actor);
  }

  // A line with an id bans that user, for the trimmed reason after the first colon; whatever
  // blanks there are, and with a dash or, for ids that are not negative, without.
  lemma HandWrittenBan(outer: string, dash: string, before: string, user: int, mid: string, reason: string, after: string, actor: int)
    requires InFront(outer, dash, before) && Blank(mid) && Blank(after)
    requires MIN_INT64 <= user <= MAX_INT64 && (dash == "" ==> user >= 0)
    ensures ParseLine(outer + dash + before + FormatInt(user) + mid + ":" + reason + after, actor)
      == Entry(Ban(user, TrimSpace(reason), actor))
    ensures ParseLine(outer + dash + before + FormatInt(user) + after, actor) == Entry(Ban(user, "", actor))
  {
    hide TrimSpace, ParseInt, ParseLine, IndexOf;
    ParseFormatInt(user);
    assert ':' !in FormatInt(user);
    assert user >= 0 ==> FormatInt(user)[0] != '-' by {
      NaturalDigits(user);
    }
    hide FormatInt;
    var id := FormatInt(user);
    LineByParts(outer, dash, before, id, mid, reason, after, actor);
    BodyOfLine(outer, dash, before, id, after);
    ParseBody(outer + dash + before + id + after, id, actor);
    TrimSpaceTrimmed(id);
    TrimSpaceTrimmed("");
  }

  lemma NaturalDigits(n: int)
    ensures n >= 0 ==> IsDigit(FormatInt(n)[0])
  {
  }

  // Without a dash the sign of a negative id is taken for one, and the id for positive.
  lemma SignTakenForDash(outer: string, user: int, mid: string, reason: string, after: string, actor: int)
    requires Blank(outer) && Blank(mid) && Blank(after) && 0 < user <= MAX_INT64
    ensures ParseLine(outer + FormatInt(-user) + mid + ":" + reason + after, actor) == Entry(Ban(user, TrimSpace(reason), actor))
  {
    hide ParseLine, TrimSpace, ParseInt;
    SignIsDash(user);
    hide FormatInt;
    var dash, nothing, id := "-", "", FormatInt(user);
    HandWrittenBan(outer, dash, nothing, user, mid, reason, after, actor);
    assert outer + (dash + id) == outer + dash + nothing + id;
  }

  lemma SignIsDash(user: int)
    requires user > 0
    ensures FormatInt(-user) == "-" + FormatInt(user)
  {
  }

  // Blank lines and lines of nothing but a dash are skipped.
  lemma NothingOnTheLine(outer: string, dash: string, before: string, actor: int)
    requires InFront(outer, dash, before)
    ensures ParseLine(outer + dash + before, actor) == Skipped
  {
    hide TrimSpace, ParseInt, IndexOf;
    TrimSpaceTrimmed("");
    if dash == "" {
      BlankConcat(outer, before);
      assert outer + dash + before == (outer + before) + "" + "";
      TrimSpaceCore(outer + before, "", "");
    } else {
      TrimSpaceCore(outer, dash, before);
      assert dash[1..] == "";
    }
  }

  // A line whose part in front of the colon is no 64-bit number makes the whole import fail,
  // wherever it stands.
  lemma NoNumberFails(lines: seq<string>, i: nat, outer: string, dash: string, before: string, user: string, mid: string, reason: string, actor: int)
    requires i < |lines| && forall k :: 0 <= k < |lines| ==> '\n' !in lines[k]
    requires InFront(outer, dash, before) && Blank(mid)
    requires user != "" && Trimmed(user) && ':' !in user && (dash == "" ==> user[0] != '-') && ParseInt(user) == None
    requires lines[i] == outer + dash + before + user + mid + ":" + reason
    ensures Parse(Text.Join(lines, '\n'), actor) == None
  {
    hide TrimSpace, ParseInt, ParseLine, ParseLines, Text.Join;
    LineByParts(outer, dash, before, user, mid, reason, "", actor);
    assert lines[i] == outer + dash + before + user + mid + ":" + reason + "";
    InvalidLineFails(lines, actor, i);
    SplitJoin(lines, '\n');
  }

  lemma OnlyLine(line: string, actor: int)
    ensures ParseLines([line], actor) ==
      match ParseLine(line, actor)
      case Skipped => Some([])
      case Invalid => None
      case Entry(ban) => Some([ban])
  {
    hide ParseLine;
    var lines := [line];
    assert lines[..|lines| - 1] == [];
    assert ParseLines(lines[..|lines| - 1], actor) == Some([]);
    assert forall ban: Ban :: [] + [ban] == [ban];
  }

  // Line by line: a ban comes after those of the lines before, a line with nothing on it
  // changes nothing, and one that is invalid spoils the whole.
  lemma OneLineMore(source: string, line: string, actor: int)
    requires '\n' !in line
    ensures var before, all := Parse(source, actor), Parse(source + ['\n'] + line, actor);
      match ParseLine(line, actor)
      case Skipped => all == before
      case Invalid => all == None
      case Entry(ban) => if before == None then all == None else all == Some(before.value + [ban])
    ensures Parse(line, actor) ==
      match ParseLine(line, actor)
      case Skipped => Some([])
      case Invalid => None
      case Entry(ban) => Some([ban])
  {
    hide ParseLine;
    SplitAppend(source, line, '\n');
    SplitHead(line, "", '\n');
    var lines := Split(source, '\n');
    assert (lines + [line])[..|lines|] == lines;
    OnlyLine(line, actor);
  }

  // What a 64-bit number is: digits with or without a sign, in range.
  lemma NumberMeans(sign: string, digits: string)
    requires sign == "" || sign == "+" || sign == "-"
    requires digits != "" && AllDigits(digits)
    ensures var n: int := if sign == "-" then 0 - (DigitsValue(digits) as int) else DigitsValue(digits) as int;
      ParseInt(sign + digits) == if MIN_INT64 <= n <= MAX_INT64 then Some(n) else None
  {
    assert IsDigit(digits[0]);
    assert sign != "" ==> (sign + digits)[1..] == digits;
    assert sign == "" ==> sign + digits == digits;
  }

  lemma OnlyNumbers(s: string)
    requires ParseInt(s).Some?
    ensures exists sign, digits :: s == sign + digits && (sign == "" || sign == "+" || sign == "-") && digits != "" && AllDigits(digits)
  {
    var signed := s[0] == '-' || s[0] == '+';
    var sign, digits := if signed then [s[0]] else "", if signed then s[1..] else s;
    assert s == sign + digits && AllDigits(digits);
  }

  // ---------- The form of an export ----------

  // A reason is written without its outer blanks, and as a dash if nothing is left of it.
  lemma DashMeans(before: string, reason: string, after: string)
    requires Blank(before) && Blank(after) && Trimmed(reason)
    ensures Dash(before + reason + after) == if reason == "" then "-" else reason
  {
    hide TrimSpace;
    TrimSpaceCore(before, reason, after);
  }

  // One line for each ban, in order: a dash, the id, a colon and the reason.
  lemma {:induction false} ExportForm(bans: seq<Ban>)
    ensures bans == [] ==> Render(bans) == ""
    ensures |bans| == 1 ==> Render(bans) == "- " + FormatInt(bans[0].userId) + ": " + Dash(bans[0].reason)
    ensures |bans| > 1 ==> Render(bans) == "- " + FormatInt(bans[0].userId) + ": " + Dash(bans[0].reason) + ['\n'] + Render(bans[1..])
  {
    hide FormatInt, Dash;
    if |bans| > 1 {
      assert RenderLines(bans)[1..] == RenderLines(bans[1..]);
    }
  }
}
