// What the keyboard syntax gives back: the canonical text of a keyboard reads as that keyboard
// exactly when it can be written, and stored text reads as itself.
module ButtonRoundTrip {
  import opened Text
  import opened Buttons
  import opened ButtonPrinter

  // ---------- The canonical text of a keyboard ----------

  // One button a line: the first of a row plain, the others continuing the row.
  function RowLines(row: seq<Button>): seq<string> {
    if row == [] then []
    else RowLines(row[..|row| - 1]) + [PrintButton(row[|row| - 1], |row| > 1)]
  }

  function KeyboardLines(k: Keyboard): seq<string> {
    if k == [] then [] else KeyboardLines(k[..|k| - 1]) + RowLines(k[|k| - 1])
  }

  function Print(text: string, k: Keyboard): string {
    if KeyboardLines(k) == [] then text else text + "\n" + Join(KeyboardLines(k), '\n')
  }

  // Every row has a button, and every button can be written where it stands, on one line.
  ghost predicate WritableKeyboard(k: Keyboard, urlOk: UrlCheck) {
    forall i :: 0 <= i < |k| ==> k[i] != [] && WritableRow(k[i], urlOk)
  }

  ghost predicate WritableRow(row: seq<Button>, urlOk: UrlCheck) {
    forall j :: 0 <= j < |row| ==> Writable(row[j], j > 0, urlOk) && OneLine(row[j])
  }

  // ---------- A whole keyboard ----------

  lemma ReadOneMore(lines: seq<string>, line: string, urlOk: UrlCheck)
    ensures ReadLines(lines + [line], urlOk) == AddLine(ReadLines(lines, urlOk), line, urlOk)
  {
    hide AddLine;
    assert (lines + [line])[..|lines|] == lines;
  }

  lemma AddPrinted(c: Content, front: seq<Button>, last: Button, same: bool, urlOk: UrlCheck)
    requires Writable(last, same, urlOk) && same == (front != [])
    ensures AddLine(if same then c.(keyboard := c.keyboard + [front]) else c, PrintButton(last, same), urlOk)
      == c.(keyboard := c.keyboard + [front + [last]])
  {
    hide Writable, RowOf, PrintButton;
    PrintedRow(last, same, urlOk);
    if same {
      var keyboard := c.keyboard + [front];
      assert keyboard[..|keyboard| - 1] == c.keyboard;
    } else {
      assert front + [last] == [last];
    }
  }

  lemma {:induction false} ReadRow(lines: seq<string>, row: seq<Button>, urlOk: UrlCheck)
    requires row != [] && WritableRow(row, urlOk)
    ensures var before := ReadLines(lines, urlOk);
      ReadLines(lines + RowLines(row), urlOk) == before.(keyboard := before.keyboard + [row])
  {
    hide ReadLines, AddLine, Writable, OneLine, PrintButton;
    var before := ReadLines(lines, urlOk);
    var front, last := row[..|row| - 1], row[|row| - 1];
    assert lines + RowLines(row) == (lines + RowLines(front)) + [PrintButton(last, |row| > 1)];
    ReadOneMore(lines + RowLines(front), PrintButton(last, |row| > 1), urlOk);
    AddPrinted(before, front, last, |row| > 1, urlOk);
    assert front + [last] == row;
    if |row| == 1 {
      assert lines + RowLines(front) == lines;
    } else {
      ReadRow(lines, front, urlOk);
    }
  }

  lemma {:induction false} ReadKeyboard(lines: seq<string>, k: Keyboard, urlOk: UrlCheck)
    requires WritableKeyboard(k, urlOk)
    ensures var before := ReadLines(lines, urlOk);
      ReadLines(lines + KeyboardLines(k), urlOk) == before.(keyboard := before.keyboard + k)
  {
    hide RowOf, WritableRow, ReadLines, RowLines;
    var before := ReadLines(lines, urlOk);
    if k == [] {
      assert lines + KeyboardLines(k) == lines && before.keyboard + k == before.keyboard;
    } else {
      var front, last := k[..|k| - 1], k[|k| - 1];
      ReadKeyboard(lines, front, urlOk);
      ReadRow(lines + KeyboardLines(front), last, urlOk);
      ConcatAssoc(lines, KeyboardLines(front), RowLines(last));
      ConcatAssoc(before.keyboard, front, [last]);
      assert front + [last] == k;
    }
  }

  lemma {:induction false} ReadText(lines: seq<string>, urlOk: UrlCheck)
    requires forall i :: 0 <= i < |lines| ==> RowOf(lines[i], urlOk).NoRow?
    ensures ReadLines(lines, urlOk) == Content(lines, [])
  {
    hide RowOf;
    if lines != [] {
      var front, last := lines[..|lines| - 1], lines[|lines| - 1];
      ReadText(front, urlOk);
      assert RowOf(last, urlOk).NoRow? && front + [last] == lines;
    }
  }

  // ---------- Line ends ----------

  predicate HasCRLF(s: string) {
    exists i :: 0 <= i < |s| - 1 && s[i] == '\r' && s[i + 1] == '\n'
  }

  predicate StartsWithCRLF(s: string) {
    |s| >= 2 && s[0] == '\r' && s[1] == '\n'
  }

  lemma ReplaceFirst(s: string)
    requires s != ""
    ensures ReplaceCRLF(s) ==
      if StartsWithCRLF(s) then "\n" + ReplaceCRLF(s[2..]) else [s[0]] + ReplaceCRLF(s[1..])
  {
  }

  lemma {:induction false} ReplaceAppend(a: string, b: string)
    requires a == "" || a[|a| - 1] != '\r' || b == "" || b[0] != '\n'
    ensures ReplaceCRLF(a + b) == ReplaceCRLF(a) + ReplaceCRLF(b)
    decreases |a|
  {
    if a == "" {
      assert a + b == b;
    } else {
      var n, first := if StartsWithCRLF(a) then 2 else 1, if StartsWithCRLF(a) then "\n" else [a[0]];
      assert (a + b)[n..] == a[n..] + b;
      assert StartsWithCRLF(a + b) == StartsWithCRLF(a);
      ReplaceFirst(a);
      ReplaceFirst(a + b);
      hide ReplaceCRLF;
      ReplaceAppend(a[n..], b);
      ConcatAssoc(first, ReplaceCRLF(a[n..]), ReplaceCRLF(b));
    }
  }

  // Only texts that hold the two-character line end change, and they get shorter.
  lemma {:induction false} ReplaceChanges(s: string)
    ensures if HasCRLF(s) then |ReplaceCRLF(s)| < |s| else ReplaceCRLF(s) == s
    decreases |s|
  {
    if |s| >= 2 && s[0] == '\r' && s[1] == '\n' {
      ReplaceChanges(s[2..]);
    } else if s != "" {
      ReplaceChanges(s[1..]);
      if HasCRLF(s) {
        var i :| 0 <= i < |s| - 1 && s[i] == '\r' && s[i + 1] == '\n';
        assert s[1..][i - 1] == '\r' && s[1..][i] == '\n';
      } else {
        forall i | 0 <= i < |s[1..]| - 1 && s[1..][i] == '\r' ensures s[1..][i + 1] != '\n' {
          assert s[i + 1] == '\r';
        }
      }
    }
  }

  // Lines without line breaks that do not end in a carriage return.
  predicate PlainLines(lines: seq<string>) {
    forall i :: 0 <= i < |lines| ==> PlainLine(lines[i])
  }

  lemma {:induction false} LineWithoutBreak(s: string)
    requires '\n' !in s
    ensures ReplaceCRLF(s) == s
  {
    ReplaceChanges(s);
  }

  lemma {:induction false} JoinedStays(lines: seq<string>)
    requires PlainLines(lines)
    ensures ReplaceCRLF(Join(lines, '\n')) == Join(lines, '\n')
  {
    if lines != [] {
      LineWithoutBreak(lines[0]);
      if |lines| > 1 {
        JoinedStays(lines[1..]);
        var rest := Join(lines[1..], '\n');
        ReplaceAppend(lines[0] + "\n", rest);
        ReplaceAppend(lines[0], "\n");
        assert lines[0] + ['\n'] + rest == lines[0] + "\n" + rest;
        assert ReplaceCRLF("\n") == "\n";
      }
    }
  }

  ghost predicate OneLineKeyboard(k: Keyboard) {
    forall i :: 0 <= i < |k| ==> forall j :: 0 <= j < |k[i]| ==> OneLine(k[i][j])
  }

  lemma {:induction false} RowLinesPlain(row: seq<Button>)
    requires forall j :: 0 <= j < |row| ==> OneLine(row[j])
    ensures PlainLines(RowLines(row)) && |RowLines(row)| == |row|
  {
    hide OneLine, PrintButton, PlainLine;
    if row != [] {
      RowLinesPlain(row[..|row| - 1]);
      PrintedIsPlain(row[|row| - 1], |row| > 1);
    }
  }

  lemma {:induction false} KeyboardLinesPlain(k: Keyboard)
    requires OneLineKeyboard(k)
    ensures PlainLines(KeyboardLines(k))
  {
    hide OneLine, RowLines, PlainLine;
    if k != [] {
      KeyboardLinesPlain(k[..|k| - 1]);
      RowLinesPlain(k[|k| - 1]);
    }
  }

  // ---------- Round trip ----------

  ghost predicate TextOnly(text: string, urlOk: UrlCheck) {
    forall line :: line in Split(text, '\n') ==> RowOf(line, urlOk).NoRow?
  }

  // Text without lines of buttons, followed by the canonical lines of a keyboard: the lines
  // that are read.
  lemma PrintedLines(text: string, k: Keyboard)
    requires OneLineKeyboard(k)
    ensures exists plain ::
      && Split(ReplaceCRLF(Print(text, k)), '\n') == Split(plain, '\n') + KeyboardLines(k)
      && TrimSpace(plain) == TrimSpace(ReplaceCRLF(text))
      && (forall urlOk :: TextOnly(ReplaceCRLF(text), urlOk) ==> TextOnly(plain, urlOk))
  {
    hide Split, Join, ReplaceCRLF, KeyboardLines, TextOnly, TrimSpace;
    KeyboardLinesPlain(k);
    var lines := KeyboardLines(k);
    if lines == [] {
      assert Split(ReplaceCRLF(text), '\n') + lines == Split(ReplaceCRLF(text), '\n');
    } else {
      var body := Join(lines, '\n');
      JoinedStays(lines);
      SplitJoin(lines, '\n');
      LineEndStays();
      if text != "" && text[|text| - 1] == '\r' {
        var front := text[..|text| - 1];
        assert text == front + "\r" && Print(text, k) == front + "\r\n" + body;
        ReplaceLineEnd(front, body);
        SplitAppend(ReplaceCRLF(front), body, '\n');
        ReplaceLoneReturn(front, "\r");
        TrimOneSpaceAfter(ReplaceCRLF(front), '\r');
        forall urlOk | TextOnly(ReplaceCRLF(text), urlOk) ensures TextOnly(ReplaceCRLF(front), urlOk) {
          DropLast(ReplaceCRLF(text), urlOk);
        }
        assert Split(ReplaceCRLF(Print(text, k)), '\n') == Split(ReplaceCRLF(front), '\n') + lines;
      } else {
        ReplaceAppend(text + "\n", body);
        ReplaceAppend(text, "\n");
        assert ReplaceCRLF(Print(text, k)) == ReplaceCRLF(text) + ['\n'] + body;
        SplitAppend(ReplaceCRLF(text), body, '\n');
      }
    }
  }

  lemma ReplaceLineEnd(a: string, b: string)
    ensures ReplaceCRLF(a + "\r\n" + b) == ReplaceCRLF(a) + ['\n'] + ReplaceCRLF(b)
  {
    var tail := "\r\n" + b;
    assert tail[2..] == b && a + "\r\n" + b == a + tail;
    assert ReplaceCRLF(tail) == "\n" + ReplaceCRLF(b);
    ReplaceAppend(a, tail);
  }

  lemma ReplaceLoneReturn(a: string, cr: string)
    requires cr == ['\r']
    ensures ReplaceCRLF(a + cr) == ReplaceCRLF(a) + cr
  {
    assert ReplaceCRLF(cr) == cr + ReplaceCRLF(cr[1..]);
    ReplaceAppend(a, cr);
  }

  // A text without lines of buttons, followed by the canonical lines of any keyboard that can
  // be written, is read as that text, trimmed and with plain line ends, and that keyboard.
  lemma PrintThenParse(text: string, k: Keyboard, urlOk: UrlCheck)
    requires WritableKeyboard(k, urlOk) && TextOnly(ReplaceCRLF(text), urlOk)
    ensures Stored(Print(text, k), urlOk) == (TrimSpace(ReplaceCRLF(text)), k)
  {
    hide RowOf, Writable, OneLine, TrimSpace, ReadLines, KeyboardLines, Split, Join, ReplaceCRLF, Print;
    PrintedLines(text, k);
    var plain :|
      && Split(ReplaceCRLF(Print(text, k)), '\n') == Split(plain, '\n') + KeyboardLines(k)
      && TrimSpace(plain) == TrimSpace(ReplaceCRLF(text))
      && (forall urlOk :: TextOnly(ReplaceCRLF(text), urlOk) ==> TextOnly(plain, urlOk));
    assert TextOnly(plain, urlOk);
    ReadText(Split(plain, '\n'), urlOk);
    ReadKeyboard(Split(plain, '\n'), k, urlOk);
    assert [] + k == k;
    JoinSplit(plain, '\n');
  }

  lemma LineEndStays()
    ensures ReplaceCRLF("\n") == "\n"
  {
  }

  // ---------- Only keyboards that can be written come back ----------

  // What every button that was read has: a label and an action without what would close them.
  predicate Clean(b: Button) {
    && b.text != "" && ']' !in b.text && '\n' !in b.text
    && ')' !in b.url && '\n' !in b.url && ')' !in b.data && '\n' !in b.data
  }

  predicate Lacks(s: string, c: char) {
    c !in s
  }

  lemma LowerLacks(s: string, c: char)
    requires Lacks(s, c) && !('a' <= c <= 'z')
    ensures Lacks(Lower(s), c)
  {
  }

  lemma NormalizedLacks(target: string, c: char, urlOk: UrlCheck)
    requires Lacks(target, c) && (c == ')' || c == '\n')
    ensures NormalizeButtonURL(target, urlOk).Some? ==> Lacks(NormalizeButtonURL(target, urlOk).value, c)
  {
    hide TrimSpace, Lower, NormalizeButtonURL, Contains;
    NormalizedLink(target, urlOk);
    var url := TrimSpace(target);
    if url != "" && url[0] == '#' {
      LowerLacks(TrimSpace(url[1..]), c);
    }
  }

  lemma {:induction false} AfterSchemeLacks(s: string, c: char)
    requires Lacks(s, c)
    ensures AfterScheme(s).Some? ==> Lacks(AfterScheme(s).value, c)
    decreases |s|
  {
    if !HasPrefix(s, "://") && s != "" {
      assert Lacks(s[1..], c);
      AfterSchemeLacks(s[1..], c);
    }
  }

  lemma ActionLacks(title: string, written: string, c: char, urlOk: UrlCheck)
    requires Lacks(written, c) && (c == ')' || c == '\n')
    ensures var r := ParseAction(title, written, urlOk); r.Some? ==> Lacks(r.value.0.url, c) && Lacks(r.value.0.data, c)
  {
    hide TrimSpace, Lower, AfterScheme, NormalizeButtonURL;
    var action := StripSame(written).0;
    assert Lacks(action, c);
    hide StripSame;
    AfterSchemeLacks(action, c);
    if AfterScheme(action).Some? {
      NormalizedLacks(AfterScheme(action).value, c, urlOk);
    }
    if |action| >= 12 {
      NormalizedLacks(action[12..], c, urlOk);
    }
    if |action| >= 10 {
      NormalizedLacks(action[10..], c, urlOk);
    }
  }

  lemma ItemClean(s: string, urlOk: UrlCheck)
    requires '\n' !in s
    ensures var r := ParseItem(s, urlOk); r.Some? ==> Clean(r.value.button) && '\n' !in r.value.rest
  {
    hide ParseAction, TrimLeftBlanks, IndexOf;
    if ParseItem(s, urlOk).Some? {
      var k := IndexOf(s, ']').value;
      var after := s[k + 1..];
      var m := IndexOf(after, ')').value;
      assert ')' !in after[..m] && after[1..m] == after[..m][1..];
      assert ']' !in s[..k] && s[1..k] == s[..k][1..];
      ActionLacks(s[1..k], after[1..m], ')', urlOk);
      ActionLacks(s[1..k], after[1..m], '\n', urlOk);
      LabelKept(s[1..k], after[1..m], urlOk);
    }
  }

  lemma {:induction false} ItemsClean(s: string, urlOk: UrlCheck)
    requires '\n' !in s
    ensures var r := ParseItems(s, urlOk); r.Some? ==> forall i :: 0 <= i < |r.value| ==> Clean(r.value[i].0)
    decreases |s|
  {
    hide ParseItem, Clean, TrimSpace, TrimLeftBlanks;
    var first := ParseItem(TrimLeftBlanks(s), urlOk);
    ItemClean(TrimLeftBlanks(s), urlOk);
    if TrimSpace(s) != "" && first.Some? {
      ItemsClean(first.value.rest, urlOk);
      ItemsStep(s, first.value, urlOk);
    }
  }

  lemma RowClean(line: string, urlOk: UrlCheck)
    requires '\n' !in line
    ensures RowOf(line, urlOk).Row? ==> forall i :: 0 <= i < |RowOf(line, urlOk).buttons| ==> Clean(RowOf(line, urlOk).buttons[i])
  {
    hide ParseItems, Clean, TrimSpace;
    ItemsClean(TrimSpace(line), urlOk);
  }

  lemma {:induction false} ButtonsClean(lines: seq<string>, urlOk: UrlCheck)
    requires forall i :: 0 <= i < |lines| ==> '\n' !in lines[i]
    ensures forall b :: b in RowButtons(lines, urlOk) ==> Clean(b)
  {
    hide RowOf, Clean;
    if lines != [] {
      ButtonsClean(lines[..|lines| - 1], urlOk);
      RowClean(lines[|lines| - 1], urlOk);
    }
  }

  lemma CleanAction(b: Button, same: bool)
    requires Clean(b)
    ensures OneLine(b) && ActionOf(b) + Mark(same) != "" && ')' !in ActionOf(b) + Mark(same)
  {
  }

  // The printed line of a clean button is a row of at most one button.
  lemma CleanLine(b: Button, same: bool, urlOk: UrlCheck)
    requires Clean(b)
    ensures OneLine(b)
    ensures var row := RowOf(PrintButton(b, same), urlOk);
      row.Row? ==> |row.buttons| == 1 && ParseItem(PrintButton(b, same), urlOk) == Some(Item(row.buttons[0], row.same, ""))
  {
    hide ParseItem, ParseAction, RowOf, ActionOf, OneLine, Mark;
    var action := ActionOf(b) + Mark(same);
    CleanAction(b, same);
    ParseBracketed(b.text, action, urlOk);
    PrintedTrimmed(b, same);
    OneItemRow(PrintButton(b, same), urlOk);
  }

  lemma PrintedTrimmed(b: Button, same: bool)
    ensures var line := PrintButton(b, same);
      line == "[" + b.text + "](" + (ActionOf(b) + Mark(same)) + ")" && line != "" && line[0] == '[' && Trimmed(line)
  {
    hide ActionOf, Mark;
  }

  lemma OneItemRow(s: string, urlOk: UrlCheck)
    requires s != "" && s[0] == '[' && Trimmed(s) && (ParseItem(s, urlOk).Some? ==> ParseItem(s, urlOk).value.rest == "")
    ensures match ParseItem(s, urlOk)
      case None => RowOf(s, urlOk) == NoRow
      case Some(item) => RowOf(s, urlOk) == Row([item.button], item.same)
  {
    hide TrimSpace, ParseItem;
    TrimSpaceTrimmed(s);
    assert TrimLeftBlanks(s) == s;
    match ParseItem(s, urlOk)
    case None =>
    case Some(item) => RowOfOne(s, item.button, item.same, urlOk);
  }

  // The buttons and the places of the printed lines.
  function Places(k: Keyboard): seq<(Button, bool)> {
    if k == [] then [] else Places(k[..|k| - 1]) + RowPlaces(k[|k| - 1])
  }

  function RowPlaces(row: seq<Button>): (p: seq<(Button, bool)>)
    ensures |p| == |row| && forall j :: 0 <= j < |row| ==> p[j] == (row[j], j > 0)
  {
    seq(|row|, j requires 0 <= j < |row| => (row[j], j > 0))
  }

  function LinesOf(places: seq<(Button, bool)>): (lines: seq<string>)
    ensures |lines| == |places| && forall i :: 0 <= i < |places| ==> lines[i] == PrintButton(places[i].0, places[i].1)
  {
    seq(|places|, i requires 0 <= i < |places| => PrintButton(places[i].0, places[i].1))
  }

  lemma {:induction false} RowLinesByPlace(row: seq<Button>)
    ensures RowLines(row) == LinesOf(RowPlaces(row))
  {
    hide PrintButton;
    if row != [] {
      var front := row[..|row| - 1];
      RowLinesByPlace(front);
      assert RowPlaces(row) == RowPlaces(front) + [(row[|row| - 1], |row| > 1)];
    }
  }

  lemma {:induction false} LinesByPlace(k: Keyboard)
    ensures KeyboardLines(k) == LinesOf(Places(k)) && ButtonsOf(Places(k)) == Flat(k)
  {
    hide PrintButton, RowLines, RowPlaces;
    if k != [] {
      LinesByPlace(k[..|k| - 1]);
      RowLinesByPlace(k[|k| - 1]);
      assert ButtonsOf(RowPlaces(k[|k| - 1])) == k[|k| - 1];
    }
  }

  // When every line is a row of at most one button and there are as many buttons as lines,
  // every line is the row of its button.
  lemma {:induction false} OnePerLine(lines: seq<string>, buttons: seq<Button>, urlOk: UrlCheck)
    requires forall i :: 0 <= i < |lines| ==> (RowOf(lines[i], urlOk).Row? ==> |RowOf(lines[i], urlOk).buttons| == 1)
    ensures |RowButtons(lines, urlOk)| <= |lines|
    ensures RowButtons(lines, urlOk) == buttons && |buttons| == |lines| ==>
      forall i :: 0 <= i < |lines| ==> RowOf(lines[i], urlOk).Row? && RowOf(lines[i], urlOk).buttons == [buttons[i]]
  {
    hide RowOf;
    if lines != [] {
      var front, last := lines[..|lines| - 1], RowOf(lines[|lines| - 1], urlOk);
      OnePerLine(front, RowButtons(front, urlOk), urlOk);
      if RowButtons(lines, urlOk) == buttons && |buttons| == |lines| {
        assert last.Row? && RowButtons(front, urlOk) == buttons[..|lines| - 1];
        assert last.buttons == [buttons[|lines| - 1]];
      }
    }
  }

  lemma {:induction false} RowButtonsOfText(lines: seq<string>, more: seq<string>, urlOk: UrlCheck)
    requires forall i :: 0 <= i < |lines| ==> RowOf(lines[i], urlOk).NoRow?
    ensures RowButtons(lines + more, urlOk) == RowButtons(more, urlOk)
    decreases |more|, |lines|
  {
    hide RowOf;
    if more != [] {
      RowButtonsOfText(lines, more[..|more| - 1], urlOk);
      assert (lines + more)[..|lines + more| - 1] == lines + more[..|more| - 1];
    } else if lines != [] {
      RowButtonsOfText(lines[..|lines| - 1], [], urlOk);
      assert lines + more == lines && lines[..|lines| - 1] + [] == lines[..|lines| - 1];
    }
  }

  lemma ComesBackClean(text: string, k: Keyboard, urlOk: UrlCheck)
    requires Stored(Print(text, k), urlOk).1 == k
    ensures forall i :: 0 <= i < |k| ==> k[i] != []
    ensures forall b :: b in Flat(k) ==> Clean(b)
  {
    hide RowOf, Clean, ReadLines, ReplaceCRLF, Print, TrimSpace, Join;
    var lines := Split(ReplaceCRLF(Print(text, k)), '\n');
    NothingLost(lines, urlOk);
    ButtonsClean(lines, urlOk);
  }

  lemma {:induction false} InFlat(k: Keyboard, i: nat, j: nat)
    requires i < |k| && j < |k[i]|
    ensures k[i][j] in Flat(k)
  {
    if i < |k| - 1 {
      InFlat(k[..|k| - 1], i, j);
    }
  }

  lemma PlacesRead(text: string, k: Keyboard, urlOk: UrlCheck)
    requires TextOnly(ReplaceCRLF(text), urlOk) && Stored(Print(text, k), urlOk).1 == k
    requires OneLineKeyboard(k) && forall b :: b in Flat(k) ==> Clean(b)
    ensures forall i :: 0 <= i < |Places(k)| ==>
      var b, same := Places(k)[i].0, Places(k)[i].1;
      && RowOf(PrintButton(b, same), urlOk).Row?
      && ParseItem(PrintButton(b, same), urlOk) == Some(Item(b, RowOf(PrintButton(b, same), urlOk).same, ""))
  {
    hide RowOf, Clean, ReadLines, ReplaceCRLF, Print, TrimSpace, Join, Split, PrintButton, ParseItem, RowButtons, OneLine, Flat, Places, KeyboardLines;
    PrintedLines(text, k);
    var plain :|
      && Split(ReplaceCRLF(Print(text, k)), '\n') == Split(plain, '\n') + KeyboardLines(k)
      && TrimSpace(plain) == TrimSpace(ReplaceCRLF(text))
      && (forall urlOk :: TextOnly(ReplaceCRLF(text), urlOk) ==> TextOnly(plain, urlOk));
    assert TextOnly(plain, urlOk);
    NothingLost(Split(plain, '\n') + KeyboardLines(k), urlOk);
    RowButtonsOfText(Split(plain, '\n'), KeyboardLines(k), urlOk);
    LinesByPlace(k);
    var places, lines := Places(k), KeyboardLines(k);
    forall i | 0 <= i < |lines| ensures RowOf(lines[i], urlOk).Row? ==> |RowOf(lines[i], urlOk).buttons| == 1 {
      assert ButtonsOf(places)[i] in Flat(k);
      CleanLine(places[i].0, places[i].1, urlOk);
    }
    OnePerLine(lines, Flat(k), urlOk);
    forall i | 0 <= i < |places|
      ensures var b, same := places[i].0, places[i].1;
        && RowOf(PrintButton(b, same), urlOk).Row?
        && ParseItem(PrintButton(b, same), urlOk) == Some(Item(b, RowOf(PrintButton(b, same), urlOk).same, ""))
    {
      assert ButtonsOf(places)[i] in Flat(k) && lines[i] == PrintButton(places[i].0, places[i].1);
      CleanLine(places[i].0, places[i].1, urlOk);
    }
  }

  lemma PlaceWritable(b: Button, same: bool, flag: bool, urlOk: UrlCheck)
    requires Clean(b) && ParseItem(PrintButton(b, same), urlOk) == Some(Item(b, flag, ""))
    ensures Writable(b, same, urlOk)
  {
    hide ParseItem, ParseAction;
    var action := ActionOf(b) + Mark(same);
    assert action != "" && ')' !in action;
    hide ActionOf, Writable;
    ParseBracketed(b.text, action, urlOk);
    MarkKept(b, same, flag, urlOk);
    PrintedButtonIff(b, same, urlOk);
  }

  lemma {:induction false} PlaceOf(k: Keyboard, i: nat, j: nat) returns (p: nat)
    requires i < |k| && j < |k[i]|
    ensures p < |Places(k)| && Places(k)[p] == (k[i][j], j > 0)
  {
    if i < |k| - 1 {
      p := PlaceOf(k[..|k| - 1], i, j);
    } else {
      p := |Places(k[..|k| - 1])| + j;
    }
  }

  // After text without lines of buttons, the canonical lines of a keyboard are read as that
  // keyboard if and only if every button of it can be written where it stands.
  lemma KeyboardComesBackIff(text: string, k: Keyboard, urlOk: UrlCheck)
    requires TextOnly(ReplaceCRLF(text), urlOk)
    ensures Stored(Print(text, k), urlOk) == (TrimSpace(ReplaceCRLF(text)), k) <==> WritableKeyboard(k, urlOk)
  {
    hide Stored, Print, TextOnly, Clean, OneLine, Writable, RowOf, ParseItem, PrintButton, ReplaceCRLF, TrimSpace, Flat, Places;
    if WritableKeyboard(k, urlOk) {
      PrintThenParse(text, k, urlOk);
    } else if Stored(Print(text, k), urlOk) == (TrimSpace(ReplaceCRLF(text)), k) {
      ComesBackClean(text, k, urlOk);
      forall i, j | 0 <= i < |k| && 0 <= j < |k[i]| ensures Clean(k[i][j]) && OneLine(k[i][j]) {
        InFlat(k, i, j);
        CleanLine(k[i][j], j > 0, urlOk);
      }
      PlacesRead(text, k, urlOk);
      forall i, j | 0 <= i < |k| && 0 <= j < |k[i]| ensures Writable(k[i][j], j > 0, urlOk) {
        var p := PlaceOf(k, i, j);
        PlaceWritable(k[i][j], j > 0, RowOf(PrintButton(k[i][j], j > 0), urlOk).same, urlOk);
      }
    }
  }

  // ---------- Stored text reads as itself ----------

  lemma TrimOneSpaceBefore(line: string, c: char)
    requires IsSpace(c)
    ensures TrimSpace([c] + line) == TrimSpace(line)
  {
    assert ([c] + line)[1..] == line;
  }

  lemma SameRow(line: string, c: char, urlOk: UrlCheck)
    requires IsSpace(c)
    ensures RowOf([c] + line, urlOk) == RowOf(line, urlOk) && RowOf(line + [c], urlOk) == RowOf(line, urlOk)
  {
    hide TrimSpace, ParseItems;
    TrimOneSpaceBefore(line, c);
    TrimOneSpaceAfter(line, c);
  }

  lemma {:induction false} SplitSnoc(s: string, c: char)
    requires c != '\n'
    ensures var parts := Split(s, '\n'); Split(s + [c], '\n') == parts[..|parts| - 1] + [parts[|parts| - 1] + [c]]
  {
    if s == "" {
      assert s + [c] == [c] && [c][1..] == "" && [c] + "" == [c];
    } else {
      assert (s + [c])[1..] == s[1..] + [c];
      SplitSnoc(s[1..], c);
      var rest := Split(s[1..], '\n');
      if s[0] != '\n' && |rest| == 1 {
        assert [s[0]] + (rest[0] + [c]) == ([s[0]] + rest[0]) + [c];
      }
    }
  }

  lemma DropFirst(text: string, urlOk: UrlCheck)
    requires text != "" && IsSpace(text[0]) && TextOnly(text, urlOk)
    ensures TextOnly(text[1..], urlOk)
  {
    hide RowOf;
    var rest := Split(text[1..], '\n');
    forall i | 0 <= i < |rest| ensures RowOf(rest[i], urlOk).NoRow? {
      if text[0] == '\n' {
        assert Split(text, '\n')[i + 1] == rest[i];
      } else {
        assert Split(text, '\n')[i] == if i == 0 then [text[0]] + rest[0] else rest[i];
        SameRow(rest[0], text[0], urlOk);
      }
    }
  }

  lemma DropLast(text: string, urlOk: UrlCheck)
    requires text != "" && IsSpace(text[|text| - 1]) && TextOnly(text, urlOk)
    ensures TextOnly(text[..|text| - 1], urlOk)
  {
    hide RowOf, Split;
    var front, c := text[..|text| - 1], text[|text| - 1];
    var parts, all := Split(front, '\n'), Split(text, '\n');
    assert text == front + [c];
    if c == '\n' {
      SplitAppend(front, "", '\n');
      assert text == front + ['\n'] + "";
    } else {
      SplitSnoc(front, c);
    }
    forall i | 0 <= i < |parts| ensures RowOf(parts[i], urlOk).NoRow? {
      if c == '\n' || i < |parts| - 1 {
        assert all[i] == parts[i] && all[i] in all;
      } else {
        assert all[i] == parts[i] + [c] && all[i] in all;
        SameRow(parts[i], c, urlOk);
      }
    }
  }

  lemma {:induction false} TrimStartTextOnly(text: string, urlOk: UrlCheck)
    requires TextOnly(text, urlOk)
    ensures TextOnly(TrimStart(text), urlOk)
  {
    hide TextOnly;
    if text != "" && IsSpace(text[0]) {
      DropFirst(text, urlOk);
      TrimStartTextOnly(text[1..], urlOk);
    }
  }

  lemma {:induction false} TrimEndTextOnly(text: string, urlOk: UrlCheck)
    requires TextOnly(text, urlOk)
    ensures TextOnly(TrimEnd(text), urlOk)
  {
    hide TextOnly;
    if text != "" && IsSpace(text[|text| - 1]) {
      DropLast(text, urlOk);
      TrimEndTextOnly(text[..|text| - 1], urlOk);
    }
  }

  lemma {:induction false} KeptLinesAreText(lines: seq<string>, urlOk: UrlCheck)
    requires forall i :: 0 <= i < |lines| ==> '\n' !in lines[i]
    ensures forall line :: line in ReadLines(lines, urlOk).lines ==> '\n' !in line && RowOf(line, urlOk).NoRow?
  {
    hide RowOf;
    if lines != [] {
      KeptLinesAreText(lines[..|lines| - 1], urlOk);
    }
  }

  // The text that is stored holds no lines of buttons.
  lemma StoredIsTextOnly(raw: string, urlOk: UrlCheck)
    ensures TextOnly(Stored(raw, urlOk).0, urlOk)
  {
    hide RowOf, ReadLines, TrimStart, TrimEnd, ReplaceCRLF;
    var kept := ReadLines(Split(ReplaceCRLF(raw), '\n'), urlOk).lines;
    KeptLinesAreText(Split(ReplaceCRLF(raw), '\n'), urlOk);
    if kept == [] {
      EmptyIsText(urlOk);
    } else {
      SplitJoin(kept, '\n');
    }
    var joined := Join(kept, '\n');
    assert TextOnly(joined, urlOk);
    TrimStartTextOnly(joined, urlOk);
    TrimEndTextOnly(TrimStart(joined), urlOk);
  }

  lemma EmptyIsText(urlOk: UrlCheck)
    ensures TextOnly("", urlOk)
  {
    TrimSpaceTrimmed("");
  }

  // Reading stored text again gives the same text and no buttons, iff no two-character line
  // end was left in it.
  lemma StoredTextIsStable(raw: string, urlOk: UrlCheck)
    ensures var text := Stored(raw, urlOk).0;
      Stored(text, urlOk) == (text, []) <==> !HasCRLF(text)
  {
    hide RowOf, ReadLines, TrimSpace, ReplaceCRLF, HasCRLF;
    var text := Stored(raw, urlOk).0;
    StoredIsTextOnly(raw, urlOk);
    ReplaceChanges(text);
    if !HasCRLF(text) {
      ReadText(Split(text, '\n'), urlOk);
      JoinSplit(text, '\n');
      TrimSpaceTrimmed(text);
    } else {
      StoredNotLonger(text, urlOk);
    }
  }

  // Two carriage returns before a line feed: the one text in which a CRLF is left.
  predicate HasCRCRLF(s: string) {
    exists i :: 0 <= i < |s| - 2 && s[i] == '\r' && s[i + 1] == '\r' && s[i + 2] == '\n'
  }

  lemma CRLFAfterFirst(c: char, rest: string)
    ensures HasCRLF([c] + rest) <==> HasCRLF(rest) || (c == '\r' && rest != "" && rest[0] == '\n')
  {
    var s := [c] + rest;
    assert forall i :: 0 <= i < |rest| ==> s[i + 1] == rest[i];
    if HasCRLF(rest) {
      var i :| 0 <= i < |rest| - 1 && rest[i] == '\r' && rest[i + 1] == '\n';
      assert s[i + 1] == '\r' && s[i + 2] == '\n';
    }
    if HasCRLF(s) {
      var i :| 0 <= i < |s| - 1 && s[i] == '\r' && s[i + 1] == '\n';
      assert i > 0 ==> rest[i - 1] == '\r' && rest[i] == '\n';
    }
    if c == '\r' && rest != "" && rest[0] == '\n' {
      assert s[0] == '\r' && s[1] == '\n';
    }
  }

  lemma {:induction false} ReplaceLeaves(s: string)
    ensures HasCRLF(ReplaceCRLF(s)) ==> HasCRCRLF(s)
    decreases |s|
  {
    if |s| >= 2 && s[0] == '\r' && s[1] == '\n' {
      ReplaceLeaves(s[2..]);
      CRLFAfterFirst('\n', ReplaceCRLF(s[2..]));
      LaterCRCRLF(s, 2);
    } else if s != "" {
      ReplaceLeaves(s[1..]);
      CRLFAfterFirst(s[0], ReplaceCRLF(s[1..]));
      LaterCRCRLF(s, 1);
      if s[0] == '\r' && ReplaceCRLF(s[1..]) != "" && ReplaceCRLF(s[1..])[0] == '\n' {
        assert s[1] == '\r' && s[2] == '\n';
      }
    }
  }

  lemma LaterCRCRLF(s: string, n: nat)
    requires n <= |s|
    ensures HasCRCRLF(s[n..]) ==> HasCRCRLF(s)
  {
    if HasCRCRLF(s[n..]) {
      var i :| 0 <= i < |s[n..]| - 2 && s[n..][i] == '\r' && s[n..][i + 1] == '\r' && s[n..][i + 2] == '\n';
      assert s[n + i] == '\r' && s[n + i + 1] == '\r' && s[n + i + 2] == '\n';
    }
  }

  predicate EndsInCR(line: string) {
    line != "" && line[|line| - 1] == '\r'
  }

  lemma {:induction false} LineThenText(line: string, rest: string)
    requires '\n' !in line
    ensures HasCRLF(line + ['\n'] + rest) <==> EndsInCR(line) || HasCRLF(rest)
  {
    if line == "" {
      assert line + ['\n'] + rest == ['\n'] + rest;
      CRLFAfterFirst('\n', rest);
    } else {
      var tail := line[1..] + ['\n'] + rest;
      assert line + ['\n'] + rest == [line[0]] + tail;
      CRLFAfterFirst(line[0], tail);
      LineThenText(line[1..], rest);
      assert tail[0] == if |line| == 1 then '\n' else line[1];
    }
  }

  // Joined lines hold a CRLF iff a line before the last ends in a carriage return.
  lemma {:induction false} JoinedCRLF(lines: seq<string>)
    requires forall i :: 0 <= i < |lines| ==> '\n' !in lines[i]
    ensures HasCRLF(Join(lines, '\n')) <==> exists i :: 0 <= i < |lines| - 1 && EndsInCR(lines[i])
  {
    hide EndsInCR, HasCRLF;
    if |lines| == 1 {
      NoBreakNoCRLF(lines[0]);
    } else if |lines| > 1 {
      var rest := lines[1..];
      JoinedCRLF(rest);
      LineThenText(lines[0], Join(rest, '\n'));
      if i :| 0 <= i < |lines| - 1 && EndsInCR(lines[i]) && i > 0 {
        assert EndsInCR(rest[i - 1]);
      }
      if i :| 0 <= i < |rest| - 1 && EndsInCR(rest[i]) {
        assert EndsInCR(lines[i + 1]);
      }
    } else {
      NoBreakNoCRLF("");
    }
  }

  lemma NoBreakNoCRLF(line: string)
    requires '\n' !in line
    ensures !HasCRLF(line)
  {
  }

  lemma {:induction false} KeptEndings(lines: seq<string>, urlOk: UrlCheck)
    ensures (forall i :: 0 <= i < |lines| ==> !EndsInCR(lines[i])) ==>
      forall i :: 0 <= i < |ReadLines(lines, urlOk).lines| ==> !EndsInCR(ReadLines(lines, urlOk).lines[i])
    ensures (forall i :: 0 <= i < |lines| - 1 ==> !EndsInCR(lines[i])) ==>
      forall i :: 0 <= i < |ReadLines(lines, urlOk).lines| - 1 ==> !EndsInCR(ReadLines(lines, urlOk).lines[i])
  {
    hide RowOf, EndsInCR;
    if lines != [] {
      KeptEndings(lines[..|lines| - 1], urlOk);
    }
  }

  lemma TrimmedCRLF(s: string)
    ensures HasCRLF(TrimSpace(s)) ==> HasCRLF(s)
  {
    hide TrimStart, TrimEnd;
    var t, u := TrimStart(s), TrimSpace(s);
    if HasCRLF(u) {
      var i :| 0 <= i < |u| - 1 && u[i] == '\r' && u[i + 1] == '\n';
      assert t[i] == '\r' && t[i + 1] == '\n';
      assert s[|s| - |t| + i] == '\r' && s[|s| - |t| + i + 1] == '\n';
    }
  }

  // A text without two carriage returns before a line feed is stored as a text that reads as
  // itself.
  lemma StableWithoutCRCRLF(raw: string, urlOk: UrlCheck)
    requires !HasCRCRLF(raw)
    ensures var text := Stored(raw, urlOk).0; !HasCRLF(text) && Stored(text, urlOk) == (text, [])
  {
    hide HasCRLF, HasCRCRLF, EndsInCR, ReplaceCRLF, Split, Join, TrimSpace, ReadLines, RowOf;
    var plain := ReplaceCRLF(raw);
    var lines := Split(plain, '\n');
    var kept := ReadLines(lines, urlOk).lines;
    ReplaceLeaves(raw);
    JoinSplit(plain, '\n');
    JoinedCRLF(lines);
    KeptEndings(lines, urlOk);
    KeptLinesAreText(lines, urlOk);
    JoinedCRLF(kept);
    TrimmedCRLF(Join(kept, '\n'));
    StoredTextIsStable(raw, urlOk);
  }

  // With them it need not: of "a", two carriage returns, a line feed and "b" the first reading
  // keeps a CRLF, which the second takes away.
  lemma UnstableText(raw: string, urlOk: UrlCheck)
    requires raw == "a\r\r\nb"
    ensures HasCRLF(Stored(raw, urlOk).0) && Stored(Stored(raw, urlOk).0, urlOk).0 != Stored(raw, urlOk).0
  {
    hide RowOf, TrimSpace, ReplaceCRLF;
    var plain, lines := "a\r\nb", ["a\r", "b"];
    UnstableReplaced(raw);
    assert Join(lines, '\n') == plain;
    SplitJoin(lines, '\n');
    TextLine("a\r", 'a', urlOk);
    TextLine("b", 'b', urlOk);
    ReadText(lines, urlOk);
    TrimSpaceTrimmed(plain);
    assert plain[1] == '\r' && plain[2] == '\n';
    StoredTextIsStable(raw, urlOk);
    StoredNotLonger(plain, urlOk);
    ReplaceChanges(plain);
  }

  lemma UnstableReplaced(raw: string)
    requires raw == "a\r\r\nb"
    ensures ReplaceCRLF(raw) == "a\r\nb"
  {
    assert raw[1..][1..] == "\r\nb" && raw[1..][1..][2..] == "b" && "b"[1..] == "";
    assert ReplaceCRLF("b") == "b";
    assert ReplaceCRLF(raw[1..][1..]) == "\nb";
  }

  lemma TextLine(line: string, c: char, urlOk: UrlCheck)
    requires line != "" && line[0] == c && c != '[' && !IsSpace(c)
    ensures RowOf(line, urlOk).NoRow?
  {
    hide ParseItems, TrimEnd;
    assert TrimStart(line) == line;
  }

  lemma {:induction false} KeptNotLonger(lines: seq<string>, urlOk: UrlCheck)
    ensures Length(ReadLines(lines, urlOk).lines) <= Length(lines)
  {
    hide RowOf;
    if lines != [] {
      KeptNotLonger(lines[..|lines| - 1], urlOk);
      var kept := ReadLines(lines[..|lines| - 1], urlOk).lines;
      assert (kept + [lines[|lines| - 1]])[..|kept|] == kept;
    }
  }

  // The lines' characters, and one for the end of each.
  function Length(lines: seq<string>): nat {
    if lines == [] then 0 else Length(lines[..|lines| - 1]) + |lines[|lines| - 1]| + 1
  }

  lemma {:induction false} JoinLength(lines: seq<string>)
    requires lines != []
    ensures |Join(lines, '\n')| + 1 == Length(lines)
  {
    if |lines| > 1 {
      JoinLength(lines[1..]);
      LengthFront(lines);
    } else {
      assert lines[..0] == [];
    }
  }

  lemma {:induction false} LengthFront(lines: seq<string>)
    requires lines != []
    ensures Length(lines) == |lines[0]| + 1 + Length(lines[1..])
  {
    if |lines| > 1 {
      var front := lines[..|lines| - 1];
      LengthFront(front);
      assert front[1..] == lines[1..][..|lines| - 2];
    }
  }

  lemma StoredNotLonger(raw: string, urlOk: UrlCheck)
    ensures |Stored(raw, urlOk).0| <= |ReplaceCRLF(raw)|
  {
    hide RowOf, ReadLines, ReplaceCRLF, Length;
    var plain := ReplaceCRLF(raw);
    var lines := Split(plain, '\n');
    var kept := ReadLines(lines, urlOk).lines;
    KeptNotLonger(lines, urlOk);
    JoinSplit(plain, '\n');
    JoinLength(lines);
    if kept != [] {
      JoinLength(kept);
    }
  }
}
