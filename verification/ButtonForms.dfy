// What people may write: actions in any letter case with blanks around their parts, links
// without a scheme, notes by name, and several buttons on one line.
module ButtonForms {
  import opened Text
  import opened Buttons
  import opened ButtonPrinter

  // ---------- Links ----------

  // Whether a text holds another is a question of its parts.
  lemma {:induction false} ContainsMeans(s: string, sub: string)
    ensures Contains(s, sub) <==> exists i :: 0 <= i <= |s| && HasPrefix(s[i..], sub)
    decreases |s|
  {
    assert s[0..] == s;
    if s != "" {
      ContainsMeans(s[1..], sub);
      forall i | 0 <= i <= |s[1..]| ensures s[1..][i..] == s[i + 1..] {
      }
      if i :| 0 <= i <= |s| && HasPrefix(s[i..], sub) {
        assert i > 0 ==> HasPrefix(s[1..][i - 1..], sub);
      }
      if i :| 0 <= i <= |s[1..]| && HasPrefix(s[1..][i..], sub) {
        assert HasPrefix(s[i + 1..], sub);
      }
    }
  }

  // Where a button leads: to what is written if that has a scheme and is a good link, to the
  // https form of what has none, to a note after a number sign, and nowhere without a target.
  lemma LinkMeans(title: string, before: string, target: string, after: string, same: bool, urlOk: UrlCheck)
    requires Blank(before) && Blank(after) && Trimmed(target)
    ensures var r := UrlButton(title, before + target + after, same, urlOk);
      && (target == "" ==> r == None)
      && (target != "" && target[0] != '#' && !Contains(target, "://") ==> r == Some((Button(title, "https://" + target, ""), same)))
      && (target != "" && target[0] != '#' && Contains(target, "://") ==>
            r == if urlOk(target) then Some((Button(title, target, ""), same)) else None)
  {
    hide TrimSpace, Contains;
    TrimSpaceCore(before, target, after);
    TrimSpaceTrimmed(target);
  }

  lemma NoteMeans(title: string, before: string, gap: string, name: string, after: string, same: bool, urlOk: UrlCheck)
    requires Blank(before) && Blank(gap) && Blank(after) && Trimmed(name)
    ensures UrlButton(title, before + "#" + gap + name + after, same, urlOk) ==
      if name == "" then None else Some((Button(title, "sukoon-note://" + Lower(name), ""), same))
  {
    hide TrimSpace, Contains, Lower;
    if name == "" {
      var sign := "#";
      assert before + "#" + gap + name + after == before + sign + (gap + after);
      TrimSpaceCore(before, sign, gap + after);
      assert sign[1..] == "" + "" + "";
      TrimSpaceCore("", "", "");
    } else {
      var core := "#" + gap + name;
      assert core[0] == '#' && core[|core| - 1] == name[|name| - 1];
      assert before + "#" + gap + name + after == before + core + after;
      TrimSpaceCore(before, core, after);
      assert core[1..] == gap + name + "";
      TrimSpaceCore(gap, name, "");
    }
  }

  // ---------- Actions ----------

  lemma SuffixOfCase(front: string, mark: string)
    requires SameLetters(mark, ":same")
    ensures HasSuffix(Lower(front + mark), ":same") && (front + mark)[..|front + mark| - 5] == front
  {
    LowerForgetsCase(mark, ":same");
    assert Lower(mark) == Lower(":same") == ":same";
    LowerConcat(front, mark);
    hide Lower, SameLetters;
    assert |mark| == 5;
  }

  // The action without the blanks around it and its mark, and whether it had one; the letter
  // case of the mark does not matter.
  lemma MarkMeans(before: string, action: string, gap: string, mark: string, after: string)
    requires Blank(before) && Blank(gap) && Blank(after) && Trimmed(action) && action != ""
    requires SameLetters(mark, ":same") || (mark == "" && !HasSuffix(Lower(action), ":same"))
    ensures StripSame(before + action + gap + mark + after) == (action, mark != "")
  {
    hide TrimSpace, Lower, SameLetters;
    if !SameLetters(mark, ":same") {
      UnmarkedAction(before, action, gap, mark, after);
    } else {
      SuffixOfCase(action + gap, mark);
      MarkEnds(mark);
      var core := action + gap + mark;
      assert core[0] == action[0] && core[|core| - 1] == mark[|mark| - 1];
      assert before + action + gap + mark + after == before + core + after;
      TrimSpaceCore(before, core, after);
      assert core == (action + gap) + mark;
      assert "" + action + gap == action + gap;
      TrimSpaceCore("", action, gap);
    }
  }

  lemma UnmarkedAction(before: string, action: string, gap: string, mark: string, after: string)
    requires Blank(before) && Blank(gap) && Blank(after) && Trimmed(action)
    requires mark == "" && !HasSuffix(Lower(action), ":same")
    ensures StripSame(before + action + gap + mark + after) == (action, false)
  {
    hide TrimSpace, Lower;
    assert before + action + gap + mark + after == before + action + (gap + after);
    TrimSpaceCore(before, action, gap + after);
  }

  lemma MarkEnds(mark: string)
    requires SameLetters(mark, ":same")
    ensures |mark| == 5 && !IsSpace(mark[4])
  {
    assert SameLetter(mark[4], ":same"[4]);
  }

  // An action by its name, which may be written in any letter case, and its target.
  lemma NamedAction(name: string, gap: string, target: string, plain: string)
    requires SameLetters(name, plain) && (plain == "button:" || plain == "buttonurl://")
    requires Trimmed(target) && target != ""
    ensures var action := name + gap + target;
      && action != "" && Trimmed(action) && HasPrefix(Lower(action), plain)
      && |action| >= |plain| && action[|plain|..] == gap + target
  {
    hide Lower, SameLetters, IsSpace;
    NameInPlain(name, plain);
    LowerConcat(name, gap + target);
    ConcatAssoc(name, gap, target);
    NameThenTarget(name, gap + target, target);
  }

  lemma NameInPlain(name: string, plain: string)
    requires SameLetters(name, plain) && (plain == "button:" || plain == "buttonurl://")
    ensures |name| == |plain| && !IsSpace(name[0]) && Lower(name) == plain
  {
    LowerForgetsCase(name, plain);
    LowerFixedNames();
    assert SameLetter(name[0], plain[0]);
    hide Lower;
  }

  lemma LowerFixedNames()
    ensures Lower("button:") == "button:" && Lower("buttonurl://") == "buttonurl://"
  {
  }

  lemma NameThenTarget(name: string, rest: string, target: string)
    requires name != "" && !IsSpace(name[0]) && Trimmed(target) && target != ""
    requires |rest| >= |target| && rest[|rest| - |target|..] == target
    ensures Trimmed(name + rest) && (name + rest)[|name|..] == rest
  {
    assert rest[|rest| - 1] == target[|target| - 1];
  }

  // A data button, however its name is written and wherever blanks stand.
  lemma DataMeans(title: string, before: string, name: string, gap: string, data: string, rest: string, mark: string, after: string, urlOk: UrlCheck)
    requires Blank(before) && Blank(gap) && Blank(rest) && Blank(after) && Trimmed(data) && data != ""
    requires SameLetters(name, "button:")
    requires SameLetters(mark, ":same") || (mark == "" && !HasSuffix(Lower(name + gap + data), ":same"))
    ensures ParseAction(title, before + (name + gap + data) + rest + mark + after, urlOk) == Some((Button(title, "", data), mark != ""))
  {
    hide TrimSpace, StripSame, ParseAction, SameLetters, Lower, HasPrefix, Blank, Trimmed;
    NamedAction(name, gap, data, "button:");
    MarkMeans(before, name + gap + data, rest, mark, after);
    BlankInFront(gap, data);
    DataAction(title, name + gap + data, data, before + (name + gap + data) + rest + mark + after, mark != "", urlOk);
  }

  lemma BlankInFront(gap: string, data: string)
    requires Blank(gap) && Trimmed(data)
    ensures TrimSpace(gap + data) == data
  {
    assert gap + data + "" == gap + data;
    TrimSpaceCore(gap, data, "");
  }

  lemma DataAction(title: string, action: string, data: string, written: string, same: bool, urlOk: UrlCheck)
    requires StripSame(written) == (action, same) && |action| >= 7 && data != "" && TrimSpace(action[7..]) == data
    requires HasPrefix(Lower(action), "button:")
    ensures ParseAction(title, written, urlOk) == Some((Button(title, "", data), same))
  {
    hide TrimSpace, StripSame, UrlButton, AfterScheme;
    var lower := Lower(action);
    hide Lower;
    assert lower[6] == ':' && "buttonurl#"[6] == 'u' && "buttonurl:"[6] == 'u' && "buttonurl://"[6] == 'u';
  }

  // A link button likewise leads to what its target means.
  lemma LinkActionMeans(title: string, before: string, name: string, gap: string, target: string, rest: string, mark: string, after: string, urlOk: UrlCheck)
    requires Blank(before) && Blank(gap) && Blank(rest) && Blank(after) && Trimmed(target) && target != ""
    requires SameLetters(name, "buttonurl://")
    requires SameLetters(mark, ":same") || (mark == "" && !HasSuffix(Lower(name + gap + target), ":same"))
    ensures ParseAction(title, before + (name + gap + target) + rest + mark + after, urlOk) == UrlButton(title, gap + target, mark != "", urlOk)
  {
    hide TrimSpace, StripSame, ParseAction, SameLetters, Lower, HasPrefix, Blank, Trimmed;
    NamedAction(name, gap, target, "buttonurl://");
    MarkMeans(before, name + gap + target, rest, mark, after);
    LinkAction(title, name + gap + target, gap + target, before + (name + gap + target) + rest + mark + after, mark != "", urlOk);
  }

  lemma LinkAction(title: string, action: string, target: string, written: string, same: bool, urlOk: UrlCheck)
    requires StripSame(written) == (action, same) && |action| >= 12 && action[12..] == target
    requires HasPrefix(Lower(action), "buttonurl://")
    ensures ParseAction(title, written, urlOk) == UrlButton(title, target, same, urlOk)
  {
    hide TrimSpace, StripSame, UrlButton, AfterScheme;
    var lower := Lower(action);
    hide Lower;
    assert lower[9] == ':' && "buttonurl#"[9] == '#';
  }

  // ---------- Several buttons on one line ----------

  datatype Place = Place(button: Button, same: bool, gap: string)

  // The buttons of a line, each with the blanks behind it.
  function LineOf(places: seq<Place>): string {
    if places == [] then ""
    else PrintButton(places[0].button, places[0].same) + (places[0].gap + LineOf(places[1..]))
  }

  predicate AllWritable(places: seq<Place>, urlOk: UrlCheck) {
    forall i :: 0 <= i < |places| ==>
      Writable(places[i].button, places[i].same, urlOk) && forall k :: 0 <= k < |places[i].gap| ==> places[i].gap[k] == ' '
  }

  function ItemsOf(places: seq<Place>): (r: seq<(Button, bool)>)
    ensures |r| == |places| && forall i :: 0 <= i < |places| ==> r[i] == (places[i].button, places[i].same)
  {
    seq(|places|, i requires 0 <= i < |places| => (places[i].button, places[i].same))
  }

  lemma ItemThenMore(b: Button, same: bool, more: string, urlOk: UrlCheck)
    requires Writable(b, same, urlOk)
    ensures ParseItem(PrintButton(b, same) + more, urlOk) == Some(Item(b, same, TrimLeftBlanks(more)))
  {
    hide ParseAction, ParseItem, ActionOf, IndexOf, WritableAction, TrimLeftBlanks;
    PrintedActionIff(b, same, urlOk);
    var action := ActionOf(b) + Mark(same);
    NoClosing(b, same);
    var s := PrintButton(b, same) + more;
    var after := "(" + action + ")" + more;
    var k, m := |b.text| + 1, |action| + 1;
    assert s == "[" + b.text + "]" + after;
    assert s[..k] == "[" + b.text && s[k] == ']' && s[k + 1..] == after && s[1..k] == b.text;
    IndexOfFirst(s, ']', k);
    assert after[..m] == "(" + action && after[m] == ')' && after[1..m] == action && after[m + 1..] == more;
    IndexOfFirst(after, ')', m);
    ItemShape(s, k, after, m, urlOk);
  }

  lemma NoClosing(b: Button, same: bool)
    requires ')' !in ActionOf(b)
    ensures ')' !in ActionOf(b) + Mark(same) && ActionOf(b) + Mark(same) != ""
  {
    hide TargetOf;
  }

  lemma {:induction false} BlanksThenLine(gap: string, line: string)
    requires forall k :: 0 <= k < |gap| ==> gap[k] == ' '
    requires line == "" || line[0] == '['
    ensures TrimLeftBlanks(gap + line) == line
  {
    if gap == "" {
      assert gap + line == line;
    } else {
      assert (gap + line)[1..] == gap[1..] + line;
      BlanksThenLine(gap[1..], line);
    }
  }

  lemma VisibleStays(line: string)
    requires line != "" && line[0] == '['
    ensures TrimSpace(line) != ""
  {
    assert TrimStart(line) == line;
    hide TrimStart;
  }

  lemma LineStarts(places: seq<Place>)
    ensures LineOf(places) == "" || LineOf(places)[0] == '['
    ensures LineOf(places) == "" <==> places == []
  {
    hide ActionOf;
  }

  lemma {:induction false} ReadLine(places: seq<Place>, urlOk: UrlCheck)
    requires AllWritable(places, urlOk)
    ensures ParseItems(LineOf(places), urlOk) == Some(ItemsOf(places))
  {
    hide ParseItem, ParseItems, PrintButton, Writable, TrimSpace, TrimLeftBlanks;
    LineStarts(places);
    if places == [] {
      NoItems(urlOk);
      assert ItemsOf(places) == [];
    } else {
      var p, rest := places[0], places[1..];
      assert Writable(p.button, p.same, urlOk);
      ItemThenMore(p.button, p.same, p.gap + LineOf(rest), urlOk);
      LineStarts(rest);
      BlanksThenLine(p.gap, LineOf(rest));
      ReadLine(rest, urlOk);
      OneItemMore(LineOf(places), Item(p.button, p.same, LineOf(rest)), urlOk);
      assert ItemsOf(places) == [(p.button, p.same)] + ItemsOf(rest);
    }
  }

  lemma NoItems(urlOk: UrlCheck)
    ensures ParseItems("", urlOk) == Some([])
  {
    TrimSpaceTrimmed("");
  }

  lemma OneItemMore(line: string, item: Item, urlOk: UrlCheck)
    requires line != "" && line[0] == '[' && ParseItem(line, urlOk) == Some(item)
    ensures ParseItems(line, urlOk) == Prepend([(item.button, item.same)], ParseItems(item.rest, urlOk))
  {
    VisibleStays(line);
    assert TrimLeftBlanks(line) == line;
    hide TrimLeftBlanks;
    ItemsStep(line, item, urlOk);
  }

  // A line of buttons, with any number of blanks between and behind them, is one row of them
  // all, in order; its first button says whether it continues the row before.
  lemma {:induction false} SeveralOnOneLine(places: seq<Place>, urlOk: UrlCheck)
    requires places != [] && AllWritable(places, urlOk) && places[|places| - 1].gap == ""
    ensures var row := RowOf(LineOf(places), urlOk);
      && row.Row? && |row.buttons| == |places| && row.same == places[0].same
      && forall i :: 0 <= i < |places| ==> row.buttons[i] == places[i].button
  {
    hide ParseItem, Writable, TrimSpace, TrimLeftBlanks, ParseItems;
    ReadLine(places, urlOk);
    LineStarts(places);
    LineEnds(places);
    TrimSpaceTrimmed(LineOf(places));
    var items := ItemsOf(places);
    hide LineOf;
    assert RowOf(LineOf(places), urlOk) == Row(ButtonsOf(items), items[0].1);
  }

  lemma {:induction false} LineEnds(places: seq<Place>)
    requires places != [] && places[|places| - 1].gap == ""
    ensures LineOf(places) != "" && LineOf(places)[|LineOf(places)| - 1] == ')'
  {
    hide ActionOf;
    if |places| > 1 {
      LineEnds(places[1..]);
    } else {
      assert LineOf(places[1..]) == "";
    }
  }
}
