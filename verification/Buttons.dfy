// The keyboard syntax of stored notes and filters: lines of buttons between lines of text.
module Buttons {
  import opened Text

  // An inline button opens a URL or sends callback data; the other field stays empty.
  datatype Button = Button(text: string, url: string, data: string)

  type Keyboard = seq<seq<Button>>

  const NOTE_PREFIX := "sukoon-note://"

  // Whether url.Parse accepts the text, with a host and the scheme http, https or tg.
  type UrlCheck = string -> bool

  // strings.Contains
  predicate Contains(s: string, sub: string)
    decreases |s|
  {
    HasPrefix(s, sub) || (s != "" && Contains(s[1..], sub))
  }

  // What follows the first occurrence of "://".
  function AfterScheme(s: string): Option<string>
    decreases |s|
  {
    if HasPrefix(s, "://") then Some(s[3..])
    else if s == "" then None
    else AfterScheme(s[1..])
  }

  // strings.ReplaceAll(s, "\r\n", "\n")
  function ReplaceCRLF(s: string): string {
    if |s| >= 2 && s[0] == '\r' && s[1] == '\n' then "\n" + ReplaceCRLF(s[2..])
    else if s == "" then ""
    else [s[0]] + ReplaceCRLF(s[1..])
  }

  // ---------- One button ----------

  function NormalizeHTTPURL(raw: string, urlOk: UrlCheck): string {
    var url := TrimSpace(raw);
    if url == "" || HasPrefix(url, "#") then ""
    else if Contains(url, "://") then if urlOk(url) then url else ""
    else "https://" + url
  }

  function NormalizeButtonURL(raw: string, urlOk: UrlCheck): Option<string> {
    var url := TrimSpace(raw);
    if url == "" then None
    else if url[0] == '#' then
      var name := TrimSpace(url[1..]);
      if name == "" then None else Some(NOTE_PREFIX + Lower(name))
    else
      var normalized := NormalizeHTTPURL(url, urlOk);
      if normalized == "" then None else Some(normalized)
  }

  function UrlButton(title: string, target: string, same: bool, urlOk: UrlCheck): Option<(Button, bool)> {
    match NormalizeButtonURL(target, urlOk)
    case None => None
    case Some(url) => Some((Button(title, url, ""), same))
  }

  // The action without white space and without a trailing `:same`, and whether it had one.
  function StripSame(action: string): (string, bool) {
    var trimmed := TrimSpace(action);
    if HasSuffix(Lower(trimmed), ":same") then (TrimSpace(trimmed[..|trimmed| - 5]), true) else (trimmed, false)
  }

  function ParseAction(title: string, written: string, urlOk: UrlCheck): Option<(Button, bool)> {
    var (action, same) := StripSame(written);
    var lower := Lower(action);
    if HasPrefix(lower, "buttonurl#") then
      match AfterScheme(action)
      case None => None
      case Some(target) => UrlButton(title, target, same, urlOk)
    else if HasPrefix(lower, "buttonurl://") then UrlButton(title, action[12..], same, urlOk)
    else if HasPrefix(lower, "buttonurl:") then UrlButton(title, action[10..], same, urlOk)
    else if HasPrefix(lower, "button:") then
      var data := TrimSpace(action[7..]);
      if data == "" then None else Some((Button(title, "", data), same))
    else None
  }

  // ---------- A line of buttons ----------

  datatype Item = Item(button: Button, same: bool, rest: string)

  function ParseItem(s: string, urlOk: UrlCheck): (r: Option<Item>)
    ensures r.Some? ==> |r.value.rest| < |s|
  {
    if s == "" || s[0] != '[' then None
    else
      match IndexOf(s, ']')
      case None => None
      case Some(k) =>
        var after := s[k + 1..];
        if k <= 1 || after == "" || after[0] != '(' then None
        else
          match IndexOf(after, ')')
          case None => None
          case Some(m) =>
            if m <= 1 then None
            else
              match ParseAction(s[1..k], after[1..m], urlOk)
              case None => None
              case Some(parsed) => Some(Item(parsed.0, parsed.1, TrimLeftBlanks(after[m + 1..])))
  }

  function ParseItems(s: string, urlOk: UrlCheck): Option<seq<(Button, bool)>>
    decreases |s|
  {
    if TrimSpace(s) == "" then Some([])
    else
      match ParseItem(TrimLeftBlanks(s), urlOk)
      case None => None
      case Some(item) =>
        match ParseItems(item.rest, urlOk)
        case None => None
        case Some(items) => Some([(item.button, item.same)] + items)
  }

  datatype Row = NoRow | Row(buttons: seq<Button>, same: bool)

  function ButtonsOf(items: seq<(Button, bool)>): (r: seq<Button>)
    ensures |r| == |items| && forall i :: 0 <= i < |items| ==> r[i] == items[i].0
  {
    seq(|items|, i requires 0 <= i < |items| => items[i].0)
  }

  // A line is a row of buttons or it is text. Only its first button says whether the row
  // continues the one before.
  function RowOf(line: string, urlOk: UrlCheck): Row {
    var trimmed := TrimSpace(line);
    if trimmed == "" || trimmed[0] != '[' then NoRow
    else
      match ParseItems(trimmed, urlOk)
      case None => NoRow
      case Some(items) => if items == [] then NoRow else Row(ButtonsOf(items), items[0].1)
  }

  function Prepend(items: seq<(Button, bool)>, more: Option<seq<(Button, bool)>>): Option<seq<(Button, bool)>> {
    match more
    case None => None
    case Some(rest) => Some(items + rest)
  }

  lemma PrependOne(items: seq<(Button, bool)>, one: (Button, bool), more: Option<seq<(Button, bool)>>)
    ensures Prepend([], more) == more
    ensures Prepend(items, Prepend([one], more)) == Prepend(items + [one], more)
  {
    match more
    case None =>
    case Some(rest) =>
      assert [] + rest == rest;
      assert items + ([one] + rest) == (items + [one]) + rest;
  }

  // The label and the action of the next button, and what follows them.
  method NextButton(s: string, urlOk: UrlCheck) returns (item: Option<Item>)
    ensures item == ParseItem(s, urlOk)
  {
    hide ParseAction, TrimLeftBlanks, IndexOf;
    if s == "" || s[0] != '[' {
      return None;
    }
    var closeLabel := IndexOf(s, ']');
    if closeLabel == None || closeLabel.value <= 1 {
      return None;
    }
    var after := s[closeLabel.value + 1..];
    if after == "" || after[0] != '(' {
      return None;
    }
    var closeAction := IndexOf(after, ')');
    if closeAction == None || closeAction.value <= 1 {
      return None;
    }
    var parsed := ParseAction(s[1..closeLabel.value], after[1..closeAction.value], urlOk);
    if parsed == None {
      return None;
    }
    item := Some(Item(parsed.value.0, parsed.value.1, TrimLeftBlanks(after[closeAction.value + 1..])));
  }

  method ParseButtonRow(written: string, urlOk: UrlCheck) returns (row: Row)
    ensures row == RowOf(written, urlOk)
  {
    hide TrimSpace, TrimLeftBlanks, ParseItem, Prepend;
    var line := TrimSpace(written);
    if line == "" || line[0] != '[' {
      return NoRow;
    }
    var rest := line;
    var buttons, same := [], false;
    ghost var items: seq<(Button, bool)> := [];
    PrependOne([], (Button("", "", ""), false), ParseItems(line, urlOk));
    while TrimSpace(rest) != ""
      invariant buttons == ButtonsOf(items) && same == (items != [] && items[0].1)
      invariant ParseItems(line, urlOk) == Prepend(items, ParseItems(rest, urlOk))
      decreases |rest|
    {
      var item := NextButton(TrimLeftBlanks(rest), urlOk);
      if item == None {
        assert ParseItems(rest, urlOk) == None;
        PrependNone(items);
        return NoRow;
      }
      var one := (item.value.button, item.value.same);
      ItemsStep(rest, item.value, urlOk);
      PrependOne(items, one, ParseItems(item.value.rest, urlOk));
      if item.value.same && |buttons| == 0 {
        same := true;
      }
      rest := item.value.rest;
      buttons := buttons + [item.value.button];
      items := items + [one];
    }
    assert ParseItems(rest, urlOk) == Some([]);
    PrependEmpty(items);
    row := if buttons == [] then NoRow else Row(buttons, same);
  }

  lemma PrependNone(items: seq<(Button, bool)>)
    ensures Prepend(items, None) == None
  {
  }

  lemma PrependEmpty(items: seq<(Button, bool)>)
    ensures Prepend(items, Some([])) == Some(items)
  {
    assert items + [] == items;
  }

  lemma ItemsStep(s: string, item: Item, urlOk: UrlCheck)
    requires TrimSpace(s) != "" && ParseItem(TrimLeftBlanks(s), urlOk) == Some(item)
    ensures ParseItems(s, urlOk) == Prepend([(item.button, item.same)], ParseItems(item.rest, urlOk))
  {
    hide TrimSpace, TrimLeftBlanks, ParseItem;
  }

  // ---------- Stored content ----------

  datatype Content = Content(lines: seq<string>, keyboard: Keyboard)

  function AddLine(c: Content, line: string, urlOk: UrlCheck): Content {
    match RowOf(line, urlOk)
    case NoRow => c.(lines := c.lines + [line])
    case Row(buttons, same) =>
      var n := |c.keyboard|;
      if same && n > 0 then c.(keyboard := c.keyboard[..n - 1] + [c.keyboard[n - 1] + buttons])
      else c.(keyboard := c.keyboard + [buttons])
  }

  function ReadLines(lines: seq<string>, urlOk: UrlCheck): Content {
    if lines == [] then Content([], [])
    else AddLine(ReadLines(lines[..|lines| - 1], urlOk), lines[|lines| - 1], urlOk)
  }

  function Stored(raw: string, urlOk: UrlCheck): (string, Keyboard) {
    var c := ReadLines(Split(ReplaceCRLF(raw), '\n'), urlOk);
    (TrimSpace(Join(c.lines, '\n')), c.keyboard)
  }

  method ParseStoredContent(raw: string, urlOk: UrlCheck) returns (text: string, buttons: Keyboard)
    ensures (text, buttons) == Stored(raw, urlOk)
  {
    hide TrimSpace, RowOf;
    var lines := Split(ReplaceCRLF(raw), '\n');
    var textLines := [];
    buttons := [];
    for i := 0 to |lines|
      invariant ReadLines(lines[..i], urlOk) == Content(textLines, buttons)
    {
      assert lines[..i + 1][..i] == lines[..i];
      var row := ParseButtonRow(lines[i], urlOk);
      match row
      case NoRow =>
        textLines := textLines + [lines[i]];
      case Row(more, same) =>
        if same && |buttons| > 0 {
          buttons := buttons[|buttons| - 1 := buttons[|buttons| - 1] + more];
        } else {
          buttons := buttons + [more];
        }
    }
    assert lines[..|lines|] == lines;
    text := TrimSpace(Join(textLines, '\n'));
  }

  // ---------- Nothing is lost ----------

  function TextLines(lines: seq<string>, urlOk: UrlCheck): seq<string> {
    if lines == [] then []
    else
      TextLines(lines[..|lines| - 1], urlOk) + (if RowOf(lines[|lines| - 1], urlOk).NoRow? then [lines[|lines| - 1]] else [])
  }

  function RowButtons(lines: seq<string>, urlOk: UrlCheck): seq<Button> {
    if lines == [] then []
    else
      var row := RowOf(lines[|lines| - 1], urlOk);
      RowButtons(lines[..|lines| - 1], urlOk) + (if row.Row? then row.buttons else [])
  }

  function Flat(keyboard: Keyboard): seq<Button> {
    if keyboard == [] then [] else Flat(keyboard[..|keyboard| - 1]) + keyboard[|keyboard| - 1]
  }

  // The lines that open a row of the keyboard.
  function Openers(lines: seq<string>, urlOk: UrlCheck): nat {
    if lines == [] then 0
    else
      var before, row := Openers(lines[..|lines| - 1], urlOk), RowOf(lines[|lines| - 1], urlOk);
      if row.Row? && (!row.same || before == 0) then before + 1 else before
  }

  lemma RowsHaveButtons(line: string, urlOk: UrlCheck)
    ensures RowOf(line, urlOk).Row? ==> RowOf(line, urlOk).buttons != []
  {
    hide TrimSpace, ParseItems;
  }

  // Of any text every line is a row of buttons or is kept, in order, and the keyboard holds
  // the buttons of the rows in order, none lost and none doubled, in rows that are not empty.
  lemma {:induction false} NothingLost(lines: seq<string>, urlOk: UrlCheck)
    ensures ReadLines(lines, urlOk).lines == TextLines(lines, urlOk)
    ensures Flat(ReadLines(lines, urlOk).keyboard) == RowButtons(lines, urlOk)
    ensures |ReadLines(lines, urlOk).keyboard| == Openers(lines, urlOk)
    ensures forall i :: 0 <= i < |ReadLines(lines, urlOk).keyboard| ==> ReadLines(lines, urlOk).keyboard[i] != []
  {
    hide RowOf, Flat;
    if lines != [] {
      var front, last := lines[..|lines| - 1], lines[|lines| - 1];
      NothingLost(front, urlOk);
      RowsHaveButtons(last, urlOk);
      AddLineKeeps(ReadLines(front, urlOk), last, urlOk);
    } else {
      assert Flat([]) == [] by {
        FlatNothing();
      }
    }
  }

  lemma FlatNothing()
    ensures Flat([]) == []
  {
  }

  lemma AddLineKeeps(c: Content, line: string, urlOk: UrlCheck)
    requires RowOf(line, urlOk).Row? ==> RowOf(line, urlOk).buttons != []
    ensures var row, t := RowOf(line, urlOk), AddLine(c, line, urlOk);
      && Flat(t.keyboard) == Flat(c.keyboard) + (if row.Row? then row.buttons else [])
      && |t.keyboard| == (if row.Row? && (!row.same || |c.keyboard| == 0) then |c.keyboard| + 1 else |c.keyboard|)
      && ((forall i :: 0 <= i < |c.keyboard| ==> c.keyboard[i] != []) ==> forall i :: 0 <= i < |t.keyboard| ==> t.keyboard[i] != [])
  {
    hide RowOf, Flat;
    var row := RowOf(line, urlOk);
    if row.NoRow? {
      assert Flat(c.keyboard) + [] == Flat(c.keyboard);
    } else if row.same && |c.keyboard| > 0 {
      FlatExtend(c.keyboard, row.buttons);
    } else {
      FlatAdd(c.keyboard, row.buttons);
    }
  }

  lemma FlatAdd(k: Keyboard, buttons: seq<Button>)
    ensures Flat(k + [buttons]) == Flat(k) + buttons
  {
    assert (k + [buttons])[..|k|] == k;
  }

  lemma FlatExtend(k: Keyboard, buttons: seq<Button>)
    requires k != []
    ensures Flat(k[..|k| - 1] + [k[|k| - 1] + buttons]) == Flat(k) + buttons
  {
    var front, last := k[..|k| - 1], k[|k| - 1];
    FlatAdd(front, last + buttons);
    FlatAdd(front, last);
    assert front + [last] == k;
    hide Flat;
    ConcatAssoc(Flat(front), last, buttons);
  }
}
