// The canonical line of a button, and exactly which buttons their lines bring back.
module ButtonPrinter {
  import opened Text
  import opened Buttons

  // ---------- The canonical line of a button ----------

  predicate IsNote(b: Button) {
    b.data == "" && HasPrefix(b.url, NOTE_PREFIX)
  }

  // What stands after the name of the action.
  function TargetOf(b: Button): string {
    if b.data != "" then b.data
    else if IsNote(b) then "#" + b.url[|NOTE_PREFIX|..]
    else b.url
  }

  function ActionOf(b: Button): string {
    (if b.data != "" then "button:" else "buttonurl://") + TargetOf(b)
  }

  function Mark(same: bool): string {
    if same then ":same" else ""
  }

  // `same` is whether the button continues the row before it.
  function PrintButton(b: Button, same: bool): string {
    "[" + b.text + "](" + (ActionOf(b) + Mark(same)) + ")"
  }

  // The actions that say what the button does: data or a link in the form in which they are
  // stored. An action that ends like a layout mark needs a mark of its own after it.
  predicate WritableAction(b: Button, same: bool, urlOk: UrlCheck) {
    && (same || !HasSuffix(Lower(ActionOf(b)), ":same"))
    && if b.data != "" then b.url == "" && Trimmed(b.data)
       else if IsNote(b) then
         var name := b.url[|NOTE_PREFIX|..];
         name != "" && Trimmed(name) && Lower(name) == name
       else b.url != "" && b.url[0] != '#' && Trimmed(b.url) && Contains(b.url, "://") && urlOk(b.url)
  }

  // And a label and an action that do not hold what closes them.
  predicate Writable(b: Button, same: bool, urlOk: UrlCheck) {
    b.text != "" && ']' !in b.text && ')' !in ActionOf(b) && WritableAction(b, same, urlOk)
  }

  // ---------- Trimming and the layout mark ----------

  lemma LowerConcat(a: string, b: string)
    ensures Lower(a + b) == Lower(a) + Lower(b)
  {
  }

  lemma {:induction false} TrimEndAfter(front: string, x: string)
    requires front != "" && !IsSpace(front[|front| - 1])
    ensures TrimEnd(front + x) == front + TrimEnd(x)
  {
    var s := front + x;
    if x != "" && IsSpace(x[|x| - 1]) {
      assert s[..|s| - 1] == front + x[..|x| - 1];
      TrimEndAfter(front, x[..|x| - 1]);
    } else if x == "" {
      assert s == front && front + "" == front;
    }
  }

  lemma TrimSpaceAfter(front: string, x: string)
    requires front != "" && !IsSpace(front[0]) && !IsSpace(front[|front| - 1])
    ensures TrimSpace(front + x) == front + TrimEnd(x)
  {
    TrimEndAfter(front, x);
    assert (front + x)[0] == front[0];
    assert TrimStart(front + x) == front + x;
  }

  lemma {:induction false} TrimStartEnd(x: string)
    ensures TrimSpace(TrimEnd(x)) == TrimSpace(x)
  {
    if x == "" || !IsSpace(x[|x| - 1]) {
    } else {
      var front := x[..|x| - 1];
      TrimStartEnd(front);
      TrimOneSpaceAfter(front, x[|x| - 1]);
      assert front + [x[|x| - 1]] == x;
    }
  }

  lemma {:induction false} TrimStartSnoc(line: string, c: char)
    requires IsSpace(c)
    ensures TrimStart(line + [c]) == if TrimStart(line) == "" then "" else TrimStart(line) + [c]
  {
    if line == "" {
      assert line + [c] == [c] && [c][1..] == "";
    } else if IsSpace(line[0]) {
      assert (line + [c])[1..] == line[1..] + [c];
      TrimStartSnoc(line[1..], c);
    }
  }

  lemma TrimOneSpaceAfter(line: string, c: char)
    requires IsSpace(c)
    ensures TrimSpace(line + [c]) == TrimSpace(line)
  {
    hide TrimStart;
    TrimStartSnoc(line, c);
    var core := TrimStart(line);
    assert (core + [c])[..|core|] == core;
  }

  // With its mark an action is read without it; without, an ending like a mark is taken for one.
  lemma StripPrinted(action: string, same: bool)
    requires action != "" && !IsSpace(action[0])
    ensures same ==> StripSame(action + Mark(same)) == (TrimSpace(action), true)
    ensures !same ==> StripSame(action + Mark(same)).1 == HasSuffix(Lower(TrimSpace(action)), ":same")
    ensures !same && !HasSuffix(Lower(TrimSpace(action)), ":same") ==> StripSame(action + Mark(same)).0 == TrimSpace(action)
  {
    hide TrimSpace, Lower;
    if same {
      var written := action + ":same";
      TrimSpaceTrimmed(written);
      assert Lower(":same") == ":same";
      LowerConcat(action, ":same");
      assert Lower(written)[|written| - 5..] == ":same" && written[..|written| - 5] == action;
    } else {
      assert action + "" == action;
    }
  }

  // ---------- What an action says ----------

  lemma ActionNames()
    ensures Lower("button:") == "button:" && Lower("buttonurl://") == "buttonurl://"
  {
  }

  lemma ParseDataAction(title: string, data: string, written: string, same: bool, urlOk: UrlCheck)
    requires StripSame(written) == ("button:" + data, same)
    ensures ParseAction(title, written, urlOk) == if TrimSpace(data) == "" then None else Some((Button(title, "", TrimSpace(data)), same))
  {
    hide TrimSpace, Lower, StripSame;
    var action := "button:" + data;
    ActionNames();
    LowerConcat("button:", data);
    var lower := "button:" + Lower(data);
    assert lower[6] == ':' && action[7..] == data;
  }

  lemma ParseUrlAction(title: string, target: string, written: string, same: bool, urlOk: UrlCheck)
    requires StripSame(written) == ("buttonurl://" + target, same)
    ensures ParseAction(title, written, urlOk) == UrlButton(title, target, same, urlOk)
  {
    hide TrimSpace, Lower, StripSame, UrlButton, AfterScheme;
    var action := "buttonurl://" + target;
    ActionNames();
    LowerConcat("buttonurl://", target);
    var lower := "buttonurl://" + Lower(target);
    assert lower[9] == ':' && action[12..] == target;
  }

  lemma LabelKept(title: string, written: string, urlOk: UrlCheck)
    ensures ParseAction(title, written, urlOk).Some? ==>
      ParseAction(title, written, urlOk).value.0.text == title && ParseAction(title, written, urlOk).value.1 == StripSame(written).1
  {
    hide TrimSpace, Lower, AfterScheme, StripSame, NormalizeButtonURL;
  }

  lemma {:induction false} ContainedLater(x: string, i: nat)
    requires i <= |x| && HasPrefix(x[i..], "://")
    ensures Contains(x, "://")
  {
    if i == 0 {
      assert x[0..] == x;
    } else {
      assert x[1..][i - 1..] == x[i..];
      ContainedLater(x[1..], i - 1);
    }
  }

  lemma TrimFront(front: string)
    requires front == "" || !IsSpace(front[0])
    ensures TrimSpace(front) <= front && forall i :: |TrimSpace(front)| <= i < |front| ==> IsSpace(front[i])
  {
  }

  // If a text is "https://" and its own trimmed beginning, the beginning holds a scheme itself
  // or is not followed by white space.
  lemma OwnLink(u: string, front: string, https: string)
    requires https == "https://" && front <= u && u == https + TrimSpace(front)
    ensures |TrimSpace(front)| >= 8 ==> Contains(TrimSpace(front), "://")
    ensures |TrimSpace(front)| < 8 ==> front == TrimSpace(front)
  {
    hide TrimSpace, Contains;
    var x := TrimSpace(front);
    assert u[0] == https[0];
    TrimFront(front);
    if |x| >= 8 {
      assert x[..8] == u[..8] == https;
      assert x[5..][..3] == https[5..];
      ContainedLater(x, 5);
    } else {
      assert u[|x|] == https[|x|] && !IsSpace(u[|x|]);
    }
  }

  lemma NormalizedLink(u: string, urlOk: UrlCheck)
    ensures var url := TrimSpace(u);
      NormalizeButtonURL(u, urlOk) ==
        if url == "" then None
        else if url[0] == '#' then if TrimSpace(url[1..]) == "" then None else Some(NOTE_PREFIX + Lower(TrimSpace(url[1..])))
        else if !Contains(url, "://") then Some("https://" + url)
        else if urlOk(url) then Some(url)
        else None
  {
    hide Contains, Lower, TrimSpace;
    TrimSpaceTrimmed(TrimSpace(u));
  }

  lemma LinkWritable(u: string, urlOk: UrlCheck)
    requires !HasPrefix(u, NOTE_PREFIX)
    ensures NormalizeButtonURL(u, urlOk) == Some(u) <==>
      u != "" && u[0] != '#' && Trimmed(u) && Contains(u, "://") && urlOk(u)
  {
    hide Contains, Lower, TrimSpace, NormalizeButtonURL;
    NormalizedLink(u, urlOk);
    TrimmedIff(u);
    if u == "https://" + TrimSpace(u) {
      OwnLink(u, u, "https://");
    }
  }

  lemma NoteWritable(name: string, urlOk: UrlCheck)
    ensures NormalizeButtonURL("#" + name, urlOk) == Some(NOTE_PREFIX + name) <==> name != "" && Trimmed(name) && Lower(name) == name
  {
    hide TrimEnd;
    var u := "#" + name;
    TrimSpaceAfter("#", name);
    var url := TrimSpace(u);
    assert url[1..] == TrimEnd(name);
    TrimStartEnd(name);
    hide TrimSpace, Lower;
    if NOTE_PREFIX + Lower(TrimSpace(name)) == NOTE_PREFIX + name {
      assert (NOTE_PREFIX + Lower(TrimSpace(name)))[|NOTE_PREFIX|..] == Lower(TrimSpace(name));
      assert (NOTE_PREFIX + name)[|NOTE_PREFIX|..] == name;
      SameLength(name);
    }
    if Trimmed(name) {
      TrimSpaceTrimmed(name);
    }
  }

  lemma SameLength(name: string)
    requires |TrimSpace(name)| == |name|
    ensures TrimSpace(name) == name
  {
  }

  // How a printed action is taken apart, unless its end is taken for a mark.
  lemma PrintedParts(b: Button, same: bool)
    requires same || !HasSuffix(Lower(TrimSpace(ActionOf(b))), ":same")
    ensures StripSame(ActionOf(b) + Mark(same)) == ((if b.data != "" then "button:" else "buttonurl://") + TrimEnd(TargetOf(b)), same)
  {
    hide TrimSpace, Lower, StripSame, TrimEnd, TargetOf;
    TrimSpaceAfter(if b.data != "" then "button:" else "buttonurl://", TargetOf(b));
    StripPrinted(ActionOf(b), same);
  }

  lemma PrintedDataIff(b: Button, same: bool, urlOk: UrlCheck)
    requires b.data != "" && (same || !HasSuffix(Lower(TrimSpace(ActionOf(b))), ":same"))
    ensures ParseAction(b.text, ActionOf(b) + Mark(same), urlOk) == Some((b, same)) <==> b.url == "" && Trimmed(b.data)
  {
    hide TrimSpace, Lower, ParseAction, StripSame, TrimEnd, ActionOf, Trimmed;
    PrintedParts(b, same);
    ParseDataAction(b.text, TrimEnd(b.data), ActionOf(b) + Mark(same), same, urlOk);
    TrimStartEnd(b.data);
    TrimmedIff(b.data);
  }

  lemma PrintedUrlIff(b: Button, same: bool, urlOk: UrlCheck)
    requires b.data == "" && (same || !HasSuffix(Lower(TrimSpace(ActionOf(b))), ":same"))
    ensures ParseAction(b.text, ActionOf(b) + Mark(same), urlOk) == Some((b, same)) <==> NormalizeButtonURL(TargetOf(b), urlOk) == Some(b.url)
  {
    hide TrimSpace, Lower, ParseAction, StripSame, TrimEnd, ActionOf, TargetOf, NormalizeButtonURL;
    PrintedParts(b, same);
    ParseUrlAction(b.text, TrimEnd(TargetOf(b)), ActionOf(b) + Mark(same), same, urlOk);
    NormalizeTrims(TargetOf(b), urlOk);
  }

  // What is stored is the normal form of what is written.
  lemma StoredTargetIff(b: Button, urlOk: UrlCheck)
    requires b.data == ""
    ensures NormalizeButtonURL(TargetOf(b), urlOk) == Some(b.url) <==> WritableAction(b, true, urlOk)
  {
    hide TrimSpace, Lower, Contains, NormalizeButtonURL, Trimmed;
    if IsNote(b) {
      NoteWritable(b.url[|NOTE_PREFIX|..], urlOk);
      assert NOTE_PREFIX + b.url[|NOTE_PREFIX|..] == b.url;
    } else {
      LinkWritable(b.url, urlOk);
    }
  }

  lemma WritableTrims(b: Button, urlOk: UrlCheck)
    ensures WritableAction(b, true, urlOk) ==> TrimSpace(ActionOf(b)) == ActionOf(b)
  {
    hide TrimSpace, Lower, Contains;
    if WritableAction(b, true, urlOk) {
      TrimSpaceTrimmed(ActionOf(b));
    }
  }

  // A printed action is read as the button's if and only if it can be written there.
  lemma PrintedActionIff(b: Button, same: bool, urlOk: UrlCheck)
    ensures ParseAction(b.text, ActionOf(b) + Mark(same), urlOk) == Some((b, same)) <==> WritableAction(b, same, urlOk)
  {
    hide TrimSpace, Lower, Contains, ParseAction, StripSame, NormalizeButtonURL, ActionOf, Trimmed;
    WritableTrims(b, urlOk);
    if same || !HasSuffix(Lower(TrimSpace(ActionOf(b))), ":same") {
      if b.data != "" {
        PrintedDataIff(b, same, urlOk);
      } else {
        PrintedUrlIff(b, same, urlOk);
        StoredTargetIff(b, urlOk);
      }
    } else {
      ActionNotEmpty(b);
      StripPrinted(ActionOf(b), same);
      LabelKept(b.text, ActionOf(b) + Mark(same), urlOk);
    }
  }

  lemma TrimmedIff(x: string)
    ensures TrimSpace(x) == x <==> Trimmed(x)
  {
    if Trimmed(x) {
      TrimSpaceTrimmed(x);
    }
  }

  lemma NormalizeTrims(target: string, urlOk: UrlCheck)
    ensures NormalizeButtonURL(TrimEnd(target), urlOk) == NormalizeButtonURL(target, urlOk)
  {
    hide TrimSpace, TrimEnd;
    TrimStartEnd(target);
  }

  // ---------- The mark is read as printed ----------

  lemma LowerAt(x: string, i: nat, c: char)
    requires i < |x| && Lower(x)[i] == c && !('a' <= c <= 'z')
    ensures x[i] == c
  {
  }

  // Where data end like a mark, what is read is shorter.
  lemma DataShrinks(title: string, data: string, urlOk: UrlCheck)
    requires data != "" && HasSuffix(Lower(TrimSpace("button:" + data)), ":same")
    ensures var r := ParseAction(title, "button:" + data, urlOk); r.Some? ==> r.value.0.data != data
  {
    hide TrimSpace, Lower, TrimEnd, AfterScheme, NormalizeButtonURL;
    var core := TrimSpace("button:" + data);
    TrimSpaceAfter("button:", data);
    TrimEndShort(data);
    var cut := core[..|core| - 5];
    TrimSpaceShort(cut);
    var action := TrimSpace(cut);
    assert action[..] <= "button:" + data;
    if |action| >= 7 {
      assert action[6] == ':' && Lower(action)[6] == ':';
      TrimSpaceShort(action[7..]);
    }
  }

  lemma TrimEndShort(x: string)
    ensures TrimEnd(x) <= x
  {
  }

  // Trimming text that does not begin with white space leaves a beginning of it.
  lemma TrimSpaceShort(x: string)
    ensures |TrimSpace(x)| <= |x| && (x == "" || !IsSpace(x[0]) ==> TrimSpace(x) <= x)
  {
  }

  // Where the target of a link ends like a mark, the mark lies inside the target.
  lemma MarkInTarget(target: string) returns (front: string)
    requires HasSuffix(Lower(TrimSpace("buttonurl://" + target)), ":same")
    ensures |front| + 5 <= |target| && front <= target && target[|front|] == ':' && target[|front| + 1] != '/'
    ensures StripSame("buttonurl://" + target) == ("buttonurl://" + TrimEnd(front), true)
  {
    hide TrimSpace, Lower, TrimEnd;
    var core, rest := TrimSpace("buttonurl://" + target), TrimEnd(target);
    TrimSpaceAfter("buttonurl://", target);
    TrimEndShort(target);
    assert core == "buttonurl://" + rest;
    var n := |core| - 5;
    assert Lower(core)[n] == ':' && Lower(core)[n + 1] == 's';
    LowerAt(core, n, ':');
    assert core[n + 1] != '/' by {
      LowerSlash(core, n + 1);
    }
    assert n >= 12 by {
      assert core[..12] == "buttonurl://";
    }
    front := rest[..n - 12];
    assert core[..n] == "buttonurl://" + front;
    TrimSpaceAfter("buttonurl://", front);
  }

  lemma LowerSlash(x: string, i: nat)
    requires i < |x| && Lower(x)[i] == 's'
    ensures x[i] != '/'
  {
  }

  lemma LinkShrinks(title: string, u: string, urlOk: UrlCheck)
    requires HasSuffix(Lower(TrimSpace("buttonurl://" + u)), ":same") && !HasPrefix(u, NOTE_PREFIX)
    ensures var r := ParseAction(title, "buttonurl://" + u, urlOk); r.Some? ==> r.value.0.url != u
  {
    hide TrimSpace, Lower, TrimEnd, StripSame, ParseAction, NormalizeButtonURL, Contains;
    var front := MarkInTarget(u);
    ParseUrlAction(title, TrimEnd(front), "buttonurl://" + u, true, urlOk);
    NormalizeTrims(front, urlOk);
    NormalizedLink(front, urlOk);
    TrimSpaceShort(front);
    if u == "https://" + TrimSpace(front) {
      OwnLink(u, front, "https://");
    }
  }

  lemma NoteShrinks(title: string, name: string, urlOk: UrlCheck)
    requires HasSuffix(Lower(TrimSpace("buttonurl://" + ("#" + name))), ":same")
    ensures var r := ParseAction(title, "buttonurl://" + ("#" + name), urlOk); r.Some? ==> r.value.0.url != NOTE_PREFIX + name
  {
    hide TrimSpace, Lower, TrimEnd, StripSame, ParseAction, NormalizeButtonURL, Contains;
    var target := "#" + name;
    var front := MarkInTarget(target);
    ParseUrlAction(title, TrimEnd(front), "buttonurl://" + target, true, urlOk);
    NormalizeTrims(front, urlOk);
    NormalizedLink(front, urlOk);
    TrimSpaceShort(front);
    var url := TrimSpace(front);
    if url != "" {
      assert front[0] == '#' && url[0] == '#';
      TrimSpaceShort(url[1..]);
    }
  }

  // A printed action that is read as the same button is read with its own mark.
  lemma MarkKept(b: Button, same: bool, flag: bool, urlOk: UrlCheck)
    requires ParseAction(b.text, ActionOf(b) + Mark(same), urlOk) == Some((b, flag))
    ensures flag == same
  {
    hide TrimSpace, Lower, ParseAction, StripSame;
    LabelKept(b.text, ActionOf(b) + Mark(same), urlOk);
    StripPrinted(ActionOf(b), same);
    if !same {
      assert ActionOf(b) + Mark(same) == ActionOf(b);
      if HasSuffix(Lower(TrimSpace(ActionOf(b))), ":same") {
        if b.data != "" {
          DataShrinks(b.text, b.data, urlOk);
        } else if IsNote(b) {
          assert NOTE_PREFIX + b.url[|NOTE_PREFIX|..] == b.url;
          NoteShrinks(b.text, b.url[|NOTE_PREFIX|..], urlOk);
        } else {
          LinkShrinks(b.text, b.url, urlOk);
        }
      }
    }
  }

  // ---------- A printed button ----------

  lemma LabelFound(title: string, after: string) returns (s: string)
    requires title != "" && ']' !in title
    ensures s == "[" + title + "]" + after && s[0] == '['
    ensures IndexOf(s, ']') == Some(|title| + 1) && s[1..|title| + 1] == title && s[|title| + 2..] == after
  {
    hide IndexOf;
    s := "[" + title + "]" + after;
    var k := |title| + 1;
    assert s[..k] == "[" + title;
    IndexOfFirst(s, ']', k);
  }

  lemma Brackets(title: string, action: string) returns (s: string, after: string)
    requires title != "" && ']' !in title && action != "" && ')' !in action
    ensures s == "[" + title + "](" + action + ")" && s[0] == '[' && after != "" && after[0] == '('
    ensures IndexOf(s, ']') == Some(|title| + 1) && s[1..|title| + 1] == title && s[|title| + 2..] == after
    ensures IndexOf(after, ')') == Some(|action| + 1) && after[1..|action| + 1] == action && after[|action| + 2..] == ""
  {
    hide IndexOf;
    after := "(" + action + ")";
    s := LabelFound(title, after);
    assert s == "[" + title + "](" + action + ")";
    assert after[..|action| + 1] == "(" + action;
    IndexOfFirst(after, ')', |action| + 1);
  }

  lemma ItemShape(s: string, k: nat, after: string, m: nat, urlOk: UrlCheck)
    requires s != "" && s[0] == '[' && IndexOf(s, ']') == Some(k) && k > 1 && after == s[k + 1..]
    requires after != "" && after[0] == '(' && IndexOf(after, ')') == Some(m)
    ensures ParseItem(s, urlOk) ==
      if m <= 1 then None
      else match ParseAction(s[1..k], after[1..m], urlOk)
        case None => None
        case Some(p) => Some(Item(p.0, p.1, TrimLeftBlanks(after[m + 1..])))
  {
    hide IndexOf, ParseAction, TrimLeftBlanks;
    if m > 1 {
      match ParseAction(s[1..k], after[1..m], urlOk)
      case None =>
      case Some(p) =>
    }
  }

  lemma ParseBracketed(title: string, action: string, urlOk: UrlCheck)
    requires title != "" && ']' !in title && action != "" && ')' !in action
    ensures ParseItem("[" + title + "](" + action + ")", urlOk) ==
      match ParseAction(title, action, urlOk) case None => None case Some(p) => Some(Item(p.0, p.1, ""))
  {
    hide IndexOf, ParseAction, ParseItem;
    var s, after := Brackets(title, action);
    ItemShape(s, |title| + 1, after, |action| + 1, urlOk);
    assert TrimLeftBlanks("") == "";
  }

  // A label that holds a closing bracket is read shorter.
  lemma LabelCut(title: string, action: string, urlOk: UrlCheck)
    requires title == "" || ']' in title
    ensures var r := ParseItem("[" + title + "](" + action + ")", urlOk);
      r.Some? ==> r.value.button.text != title
  {
    hide ParseAction, TrimLeftBlanks;
    var s := "[" + title + "](" + action + ")";
    if title == "" {
      IndexOfFirst(s, ']', 1);
    } else {
      var first := FirstBracket(title, s);
      hide IndexOf;
      ItemLabel(s, first, urlOk);
    }
  }

  // The label that is read ends at the first closing bracket.
  lemma ItemLabel(s: string, first: nat, urlOk: UrlCheck)
    requires s != "" && IndexOf(s, ']') == Some(first)
    ensures ParseItem(s, urlOk).Some? ==> first > 0 && ParseItem(s, urlOk).value.button.text == s[1..first]
  {
    hide IndexOf, ParseAction, TrimLeftBlanks;
    if |s| > first + 1 {
      var after := s[first + 1..];
      var close := IndexOf(after, ')');
      if first > 1 && close.Some? && close.value > 1 {
        LabelKept(s[1..first], after[1..close.value], urlOk);
      }
    }
  }

  lemma FirstBracket(title: string, s: string) returns (first: nat)
    requires ']' in title && |title| < |s| && s[0] != ']' && s[1..|title| + 1] == title
    ensures IndexOf(s, ']') == Some(first) && |s[1..first]| < |title|
  {
    hide IndexOf;
    var k :| 0 <= k < |title| && title[k] == ']';
    assert s[1..|title| + 1][k] == s[k + 1];
    NotAfter(s, ']', k + 1);
    first := IndexOf(s, ']').value;
  }

  lemma NotAfter(s: string, c: char, k: nat)
    requires k < |s| && s[k] == c
    ensures IndexOf(s, c).Some? && IndexOf(s, c).value <= k
  {
  }

  lemma FirstClose(action: string) returns (after: string, m: nat)
    requires ')' in action
    ensures after == "(" + action + ")" && after[0] == '(' && IndexOf(after, ')') == Some(m)
    ensures m <= |action| && after[m + 1..] != "" && after[m + 1..][|after[m + 1..]| - 1] == ')'
  {
    after := "(" + action + ")";
    var j :| 0 <= j < |action| && action[j] == ')';
    assert after[j + 1] == ')';
    NotAfter(after, ')', j + 1);
    m := IndexOf(after, ')').value;
  }

  // An action that holds a closing parenthesis is cut there and leaves a rest.
  lemma ActionCut(title: string, action: string, urlOk: UrlCheck)
    requires title != "" && ']' !in title && ')' in action
    ensures var r := ParseItem("[" + title + "](" + action + ")", urlOk);
      r.Some? ==> r.value.rest != ""
  {
    hide ParseAction, IndexOf, TrimLeftBlanks, ParseItem;
    var after, m := FirstClose(action);
    var s := LabelFound(title, after);
    assert s == "[" + title + "](" + action + ")";
    ItemShape(s, |title| + 1, after, m, urlOk);
    BlanksEnd(after[m + 1..]);
  }

  lemma {:induction false} BlanksEnd(s: string)
    requires s != "" && s[|s| - 1] != ' '
    ensures TrimLeftBlanks(s) != ""
  {
    if s[0] == ' ' {
      BlanksEnd(s[1..]);
    }
  }

  // A printed button is read back, alone and with its place in the row, if and only if it can
  // be written in that place.
  lemma PrintedButtonIff(b: Button, same: bool, urlOk: UrlCheck)
    ensures ParseItem(PrintButton(b, same), urlOk) == Some(Item(b, same, "")) <==> Writable(b, same, urlOk)
  {
    hide ParseItem, ParseAction, ActionOf, WritableAction;
    var action := ActionOf(b) + Mark(same);
    if b.text == "" || ']' in b.text {
      LabelCut(b.text, action, urlOk);
    } else if ')' in ActionOf(b) {
      assert ')' in action;
      ActionCut(b.text, action, urlOk);
    } else {
      ActionNotEmpty(b);
      assert ')' !in action;
      ParseBracketed(b.text, action, urlOk);
      PrintedActionIff(b, same, urlOk);
    }
  }

  lemma ActionNotEmpty(b: Button)
    ensures |ActionOf(b)| >= 7 && ActionOf(b)[0] == 'b'
  {
  }

  lemma RowOfOne(s: string, b: Button, same: bool, urlOk: UrlCheck)
    requires s != "" && s[0] == '[' && Trimmed(s) && ParseItem(s, urlOk) == Some(Item(b, same, ""))
    ensures RowOf(s, urlOk) == Row([b], same)
  {
    hide TrimSpace, ParseItem;
    TrimSpaceTrimmed(s);
    TrimSpaceTrimmed("");
    assert TrimLeftBlanks(s) == s;
    assert ParseItems("", urlOk) == Some([]);
    assert ParseItems(s, urlOk) == Some([(b, same)] + []);
    assert ButtonsOf([(b, same)]) == [b];
  }

  predicate OneLine(b: Button) {
    '\n' !in b.text && '\n' !in ActionOf(b)
  }

  predicate PlainLine(line: string) {
    '\n' !in line && line != "" && line[|line| - 1] != '\r'
  }

  lemma PrintedIsPlain(b: Button, same: bool)
    requires OneLine(b)
    ensures PlainLine(PrintButton(b, same))
  {
    hide ActionOf;
  }

  // As a line it is a row of this one button.
  lemma PrintedRow(b: Button, same: bool, urlOk: UrlCheck)
    requires Writable(b, same, urlOk)
    ensures RowOf(PrintButton(b, same), urlOk) == Row([b], same)
  {
    hide ParseItem, ActionOf, Writable, RowOf;
    PrintedButtonIff(b, same, urlOk);
    RowOfOne(PrintButton(b, same), b, same, urlOk);
  }

  lemma MarkedAction(title: string, data: string)
    requires data != ""
    ensures ActionOf(Button(title, "", data + ":same")) == ActionOf(Button(title, "", data)) + Mark(true)
    ensures HasSuffix(Lower(ActionOf(Button(title, "", data + ":same"))), ":same")
  {
    hide Lower;
    var short := ActionOf(Button(title, "", data));
    assert "button:" + (data + ":same") == short + ":same";
    assert Lower(":same") == ":same";
    LowerConcat(short, ":same");
    assert Lower(short + ":same")[|short|..] == ":same";
  }

  // Data that end like a mark: as the first of a row such a button is printed exactly as the
  // button with shorter data that continues a row, and is read as that one.
  lemma MarkIsAmbiguous(title: string, data: string, urlOk: UrlCheck)
    requires title != "" && ']' !in title && data != "" && Trimmed(data) && ')' !in data
    ensures var long, short := Button(title, "", data + ":same"), Button(title, "", data);
      && PrintButton(long, false) == PrintButton(short, true)
      && ParseItem(PrintButton(long, false), urlOk) == Some(Item(short, true, ""))
      && !Writable(long, false, urlOk) && Writable(long, true, urlOk)
  {
    hide ParseItem, Lower, HasSuffix, Contains;
    var long, short := Button(title, "", data + ":same"), Button(title, "", data);
    MarkedAction(title, data);
    assert ActionOf(long) + Mark(false) == ActionOf(short) + Mark(true);
    PrintedButtonIff(short, true, urlOk);
  }

  // ---------- Three ways to write a link ----------

  lemma StripWritten(action: string, same: bool)
    requires action != "" && Trimmed(action) && !HasSuffix(Lower(action), ":same")
    ensures StripSame(action + Mark(same)) == (action, same)
  {
    hide TrimSpace, Lower;
    TrimSpaceTrimmed(action);
    if same {
      var written := action + ":same";
      TrimSpaceTrimmed(written);
      assert Lower(":same") == ":same";
      LowerConcat(action, ":same");
      assert Lower(written)[|written| - 5..] == ":same" && written[..|written| - 5] == action;
    } else {
      assert action + "" == action;
    }
  }

  lemma {:induction false} FirstScheme(before: string, target: string)
    requires ':' !in before
    ensures AfterScheme(before + "://" + target) == Some(target)
  {
    var s := before + "://" + target;
    if before == "" {
      assert s[3..] == target && s[..3] == "://";
    } else {
      assert s[0] == before[0] != ':' && s[1..] == before[1..] + "://" + target;
      FirstScheme(before[1..], target);
    }
  }

  lemma SuffixInside(a: string, t: string, mark: string)
    requires |mark| == 5 && |a| >= 5 && t != "" && a[|a| - 1] !in mark[1..]
    requires !HasSuffix([a[|a| - 1]] + t, mark)
    ensures !HasSuffix(a + t, mark)
  {
    var tail := (a + t)[|a + t| - 5..];
    if |t| >= 5 {
      assert tail == ([a[|a| - 1]] + t)[|t| - 4..];
    } else if |t| == 4 {
      assert tail == [a[|a| - 1]] + t;
    } else {
      assert tail[4 - |t|] == a[|a| - 1];
      assert mark[1..][3 - |t|] == mark[4 - |t|];
    }
  }

  lemma NoMarkInside(front: string, target: string)
    requires |front| >= 5 && (front[|front| - 1] == ':' || front[|front| - 1] == '/')
    requires target != "" && !HasSuffix(Lower(":" + target), ":same")
    ensures !HasSuffix(Lower(front + target), ":same")
  {
    hide Lower;
    LowerConcat(front, target);
    LowerConcat(":", target);
    assert Lower(":") == ":";
    assert [Lower(front)[|front| - 1]] == [front[|front| - 1]];
    NoSlashMark(Lower(target));
    SuffixInside(Lower(front), Lower(target), ":same");
  }

  lemma NoSlashMark(t: string)
    ensures !HasSuffix(":" + t, ":same") ==> !HasSuffix("/" + t, ":same")
  {
    if |t| >= 5 {
      assert ("/" + t)[|t| - 4..] == t[|t| - 5..] == (":" + t)[|t| - 4..];
    }
  }

  // The three ways to write a link mean the same: a style changes nothing, and the slashes
  // can be left out.
  lemma UrlFormsAgree(title: string, style: string, target: string, same: bool, urlOk: UrlCheck)
    requires ':' !in style && target != "" && Trimmed(target) && !HasSuffix(Lower(":" + target), ":same")
    ensures var mark := Mark(same);
      && ParseAction(title, "buttonurl#" + style + "://" + target + mark, urlOk) == UrlButton(title, target, same, urlOk)
      && ParseAction(title, "buttonurl://" + target + mark, urlOk) == UrlButton(title, target, same, urlOk)
      && (!HasPrefix(target, "//") ==> ParseAction(title, "buttonurl:" + target + mark, urlOk) == UrlButton(title, target, same, urlOk))
  {
    hide StripSame, ParseAction, UrlButton, Lower;
    NoMarkInside("buttonurl#" + style + "://", target);
    StripWritten("buttonurl#" + style + "://" + target, same);
    ParseStyledAction(title, style, target, "buttonurl#" + style + "://" + target + Mark(same), same, urlOk);
    NoMarkInside("buttonurl://", target);
    StripWritten("buttonurl://" + target, same);
    ParseUrlAction(title, target, "buttonurl://" + target + Mark(same), same, urlOk);
    NoMarkInside("buttonurl:", target);
    StripWritten("buttonurl:" + target, same);
    if !HasPrefix(target, "//") {
      ParseShortAction(title, target, "buttonurl:" + target + Mark(same), same, urlOk);
    }
  }

  lemma ParseStyledAction(title: string, style: string, target: string, written: string, same: bool, urlOk: UrlCheck)
    requires ':' !in style && StripSame(written) == ("buttonurl#" + style + "://" + target, same)
    ensures ParseAction(title, written, urlOk) == UrlButton(title, target, same, urlOk)
  {
    hide TrimSpace, Lower, StripSame, UrlButton, AfterScheme;
    var action := "buttonurl#" + style + "://" + target;
    var rest := style + "://" + target;
    assert Lower("buttonurl#") == "buttonurl#";
    LowerConcat("buttonurl#", rest);
    assert action == "buttonurl#" + rest;
    FirstScheme("buttonurl#" + style, target);
  }

  lemma ParseShortAction(title: string, target: string, written: string, same: bool, urlOk: UrlCheck)
    requires !HasPrefix(target, "//") && StripSame(written) == ("buttonurl:" + target, same)
    ensures ParseAction(title, written, urlOk) == UrlButton(title, target, same, urlOk)
  {
    hide TrimSpace, Lower, StripSame, UrlButton, AfterScheme;
    var action := "buttonurl:" + target;
    assert Lower("buttonurl:") == "buttonurl:";
    LowerConcat("buttonurl:", target);
    var lower := "buttonurl:" + Lower(target);
    assert lower[9] == ':' && action[10..] == target;
    assert !HasPrefix(lower, "buttonurl://");
  }
}
