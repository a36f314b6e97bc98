// The human ban export of a federation and its import.
module BanExchange {
  import opened Text
  import opened FederationRegistry
  import opened FederationStore

  // emptyDash
  function Dash(reason: string): (r: string)
    ensures r != "" && Trimmed(r)
  {
    var trimmed := TrimSpace(reason);
    if trimmed == "" then "-" else trimmed
  }

  function RenderLine(ban: Ban): string {
    "- " + FormatInt(ban.userId) + ": " + Dash(ban.reason)
  }

  function RenderLines(bans: seq<Ban>): (lines: seq<string>)
    ensures |lines| == |bans| && forall i :: 0 <= i < |bans| ==> lines[i] == RenderLine(bans[i])
  {
    seq(|bans|, i requires 0 <= i < |bans| => RenderLine(bans[i]))
  }

  function Render(bans: seq<Ban>): string {
    Text.Join(RenderLines(bans), '\n')
  }

  method RenderFedExport(bans: seq<Ban>) returns (text: string)
    ensures text == Render(bans)
  {
    hide Dash, FormatInt;
    var lines := [];
    for i := 0 to |bans|
      invariant lines == RenderLines(bans[..i])
    {
      lines := lines + ["- " + FormatInt(bans[i].userId) + ": " + Dash(bans[i].reason)];
    }
    assert bans[..|bans|] == bans;
    text := Text.Join(lines, '\n');
  }

  datatype Line = Skipped | Invalid | Entry(ban: Ban)

  // One line of an import: an optional dash, a user id, and a reason after the first colon.
  function ParseLine(line: string, actor: int): Line {
    var trimmed := TrimSpace(line);
    var body := TrimSpace(if HasPrefix(trimmed, "-") then trimmed[1..] else trimmed);
    if body == "" then Skipped
    else
      var (user, reason) := Cut(body);
      match ParseInt(TrimSpace(user))
      case None => Invalid
      case Some(id) => Entry(Ban(id, TrimSpace(reason), actor))
  }

  // strings.Cut at a colon
  function Cut(s: string): (string, string) {
    match IndexOf(s, ':')
    case None => (s, "")
    case Some(k) => (s[..k], s[k + 1..])
  }

  // The bans of the lines in order, or None when one of them is invalid.
  function ParseLines(lines: seq<string>, actor: int): Option<seq<Ban>> {
    if lines == [] then Some([])
    else
      match ParseLines(lines[..|lines| - 1], actor)
      case None => None
      case Some(bans) =>
        match ParseLine(lines[|lines| - 1], actor)
        case Skipped => Some(bans)
        case Invalid => None
        case Entry(ban) => Some(bans + [ban])
  }

  function Parse(source: string, actor: int): Option<seq<Ban>> {
    ParseLines(Split(source, '\n'), actor)
  }

  lemma {:induction false} InvalidLineFails(lines: seq<string>, actor: int, i: nat)
    requires i < |lines| && ParseLine(lines[i], actor) == Invalid
    ensures ParseLines(lines, actor) == None
  {
    hide ParseLine;
    if i < |lines| - 1 {
      InvalidLineFails(lines[..|lines| - 1], actor, i);
    }
  }

  method ParseFedImport(source: string, actor: int) returns (bans: Option<seq<Ban>>)
    ensures bans == Parse(source, actor)
  {
    hide TrimSpace, ParseInt, IndexOf;
    var lines := Split(source, '\n');
    var parsed := [];
    for i := 0 to |lines|
      invariant ParseLines(lines[..i], actor) == Some(parsed)
    {
      assert lines[..i + 1][..i] == lines[..i];
      var trimmed := TrimSpace(lines[i]);
      var line := TrimSpace(if HasPrefix(trimmed, "-") then trimmed[1..] else trimmed);
      if line != "" {
        var (user, reason) := Cut(line);
        var id := ParseInt(TrimSpace(user));
        if id == None {
          InvalidLineFails(lines, actor, i);
          return None;
        }
        parsed := parsed + [Ban(id.value, TrimSpace(reason), actor)];
      }
    }
    assert lines[..|lines|] == lines;
    bans := Some(parsed);
  }

  // ---------- Round trip ----------

  // What an import makes of an exported ban: the same user, the reason trimmed and a dash if
  // empty, and the importer as the one who banned.
  function Imported(ban: Ban, actor: int): Ban {
    Ban(ban.userId, Dash(ban.reason), actor)
  }

  function ImportedAll(bans: seq<Ban>, actor: int): (r: seq<Ban>)
    ensures |r| == |bans| && forall i :: 0 <= i < |bans| ==> r[i] == Imported(bans[i], actor)
  {
    seq(|bans|, i requires 0 <= i < |bans| => Imported(bans[i], actor))
  }

  predicate Ids64(bans: seq<Ban>) {
    forall i :: 0 <= i < |bans| ==> MIN_INT64 <= bans[i].userId <= MAX_INT64
  }

  predicate OneLineReasons(bans: seq<Ban>) {
    forall i :: 0 <= i < |bans| ==> '\n' !in Dash(bans[i].reason)
  }

  lemma ParseRenderedLine(ban: Ban, actor: int)
    requires MIN_INT64 <= ban.userId <= MAX_INT64
    ensures ParseLine(RenderLine(ban), actor) == Entry(Imported(ban, actor))
  {
    hide TrimSpace, Dash, FormatInt, ParseInt, IndexOf;
    var id, reason := FormatInt(ban.userId), Dash(ban.reason);
    var body := id + ":" + (" " + reason);
    var line := RenderLine(ban);
    assert line == "- " + body;
    TrimSpaceTrimmed(line);
    assert line[1..] == " " + body + "";
    TrimSpaceCore(" ", body, "");
    assert ':' !in id;
    assert body[..|id|] == id && body[|id| + 1..] == " " + reason + "";
    IndexOfFirst(body, ':', |id|);
    TrimSpaceTrimmed(id);
    ParseFormatInt(ban.userId);
    TrimSpaceCore(" ", reason, "");
  }

  lemma {:induction false} ParseRenderedLines(bans: seq<Ban>, actor: int)
    requires Ids64(bans)
    ensures ParseLines(RenderLines(bans), actor) == Some(ImportedAll(bans, actor))
  {
    hide ParseLine, RenderLine, Imported;
    if bans != [] {
      var front := bans[..|bans| - 1];
      ParseRenderedLines(front, actor);
      ParseRenderedLine(bans[|bans| - 1], actor);
      assert RenderLines(bans)[..|bans| - 1] == RenderLines(front);
      assert ImportedAll(bans, actor) == ImportedAll(front, actor) + [Imported(bans[|bans| - 1], actor)];
    }
  }

  lemma RenderedLinesAreLines(bans: seq<Ban>)
    requires OneLineReasons(bans)
    ensures forall i :: 0 <= i < |bans| ==> '\n' !in RenderLines(bans)[i]
  {
    hide Dash, FormatInt;
    forall i | 0 <= i < |bans| ensures '\n' !in RenderLine(bans[i]) {
    }
  }

  // An export without line breaks in its reasons comes back: the same users in order, also
  // negative ids, with their reasons in trimmed form.
  lemma ExportThenImport(bans: seq<Ban>, actor: int)
    requires Ids64(bans) && OneLineReasons(bans)
    ensures Parse(Render(bans), actor) == Some(ImportedAll(bans, actor))
  {
    hide ParseLine, RenderLine, Imported, Dash;
    ParseRenderedLines(bans, actor);
    if bans == [] {
      assert RenderLines(bans) == [];
      BlankLineSkipped(actor);
    } else {
      RenderedLinesAreLines(bans);
      SplitJoin(RenderLines(bans), '\n');
    }
  }

  lemma BlankLineSkipped(actor: int)
    ensures ParseLines([""], actor) == Some([])
  {
    assert [""][..0] == [];
    TrimSpaceTrimmed("");
  }

  // Reasons that come out of an import never hold a line break.
  lemma {:induction false} ParsedReasons(lines: seq<string>, actor: int)
    requires forall i :: 0 <= i < |lines| ==> '\n' !in lines[i]
    requires ParseLines(lines, actor).Some?
    ensures forall i :: 0 <= i < |ParseLines(lines, actor).value| ==> '\n' !in ParseLines(lines, actor).value[i].reason
  {
    if lines != [] {
      ParsedReasons(lines[..|lines| - 1], actor);
      if ParseLine(lines[|lines| - 1], actor).Entry? {
        ParsedReason(lines[|lines| - 1], actor);
      }
      hide ParseLine;
    }
  }

  lemma ParsedReason(line: string, actor: int)
    requires '\n' !in line && ParseLine(line, actor).Entry?
    ensures '\n' !in ParseLine(line, actor).ban.reason
  {
    hide TrimSpace, ParseInt, IndexOf;
  }

  // The human format brings a list of bans back iff no reason, once trimmed, spans lines.
  lemma RoundTripIffOneLineReasons(bans: seq<Ban>, actor: int)
    requires Ids64(bans)
    ensures Parse(Render(bans), actor) == Some(ImportedAll(bans, actor)) <==> OneLineReasons(bans)
  {
    hide ParseLine, RenderLine, Dash, Text.Join;
    if OneLineReasons(bans) {
      ExportThenImport(bans, actor);
    }
    if Parse(Render(bans), actor) == Some(ImportedAll(bans, actor)) {
      ParsedReasons(Split(Render(bans), '\n'), actor);
      hide Parse;
      forall i | 0 <= i < |bans| ensures '\n' !in Dash(bans[i].reason) {
        assert ImportedAll(bans, actor)[i].reason == Dash(bans[i].reason);
      }
    }
  }

  // Exporting an import of an export gives the export again.
  lemma SecondExportIsTheFirst(bans: seq<Ban>, actor: int)
    requires Ids64(bans) && OneLineReasons(bans)
    ensures Parse(Render(bans), actor).Some? && Render(Parse(Render(bans), actor).value) == Render(bans)
  {
    ExportThenImport(bans, actor);
    forall i | 0 <= i < |bans| ensures RenderLine(Imported(bans[i], actor)) == RenderLine(bans[i]) {
      DashTwice(bans[i].reason);
    }
    hide RenderLine, Imported, Parse, Text.Join;
    assert RenderLines(ImportedAll(bans, actor)) == RenderLines(bans);
  }

  lemma DashTwice(reason: string)
    ensures Dash(Dash(reason)) == Dash(reason)
  {
    TrimSpaceTrimmed(Dash(reason));
  }

  // Trimming the whole text, as the command does with what it is given, loses nothing.
  lemma TrimmedExport(bans: seq<Ban>)
    requires bans != []
    ensures TrimSpace(Render(bans)) == Render(bans)
  {
    RenderEnds(bans);
    TrimSpaceTrimmed(Render(bans));
  }

  lemma {:induction false} RenderEnds(bans: seq<Ban>)
    requires bans != []
    ensures Trimmed(Render(bans)) && Render(bans) != ""
  {
    hide Dash, FormatInt;
    if |bans| > 1 {
      RenderEnds(bans[1..]);
      assert RenderLines(bans)[1..] == RenderLines(bans[1..]);
    }
  }

  // Data given on one line, as arguments always are, holds at most one ban: everything after
  // the first colon is its reason.
  lemma OneLineOneBan(source: string, actor: int)
    requires '\n' !in source
    ensures Parse(source, actor).Some? ==> |Parse(source, actor).value| <= 1
  {
    hide ParseLine;
    SplitHead(source, "", '\n');
    assert [source][..0] == [] && ParseLines([], actor) == Some([]);
    assert Split(source, '\n') == [source];
  }

  // ---------- From one federation to another ----------

  // The bans of a federation as a list, each user once.
  ghost predicate ListOf(list: seq<Ban>, bans: map<int, Ban>) {
    && (forall u :: u in bans ==> bans[u].userId == u && bans[u] in list)
    && (forall i :: 0 <= i < |list| ==> list[i].userId in bans && bans[list[i].userId] == list[i])
    && (forall i, j :: 0 <= i < j < |list| ==> list[i].userId != list[j].userId)
  }

  method FedImportHuman(store: Store, a: Actor, f: string, overwrite: bool, text: string) returns (done: bool)
    requires Inv(store.State()) && ResolvesHere(store.State(), a, f)
    modifies store
    ensures var list := Parse(TrimSpace(text), a.user);
      && (done <==> FedOwner(old(store.State()), a, f) && TrimSpace(text) != "" && list.Some? && |list.value| <= IMPORT_LIMIT)
      && store.State() == if done then Import(old(store.State()), f, overwrite, list.value) else old(store.State())
  {
    hide Resolves, Inv, Parse, TrimSpace, Import;
    if !a.sudo && FederationAt(store.State(), f).owner != a.user {
      return false;
    }
    var source := TrimSpace(text);
    if source == "" {
      return false;
    }
    var list := ParseFedImport(source, a.user);
    if list == None {
      return false;
    }
    done := ImportCommand(store, a, f, overwrite, list.value);
  }

  lemma OverlayOfList(list: seq<Ban>, bans: map<int, Ban>)
    requires ListOf(list, bans)
    ensures Overlay(map[], list) == bans
  {
    forall u | u !in bans ensures u !in Overlay(map[], list) {
      OverlayKeepsOthers(map[], list, u);
    }
    forall u | u in bans ensures u in Overlay(map[], list) && Overlay(map[], list)[u] == bans[u] {
      var i :| 0 <= i < |list| && list[i] == bans[u];
      OverlayLastWins(map[], list, i);
    }
    hide Overlay;
    assert Overlay(map[], list).Keys == bans.Keys;
  }

  lemma ImportedList(list: seq<Ban>, bans: map<int, Ban>, actor: int)
    requires ListOf(list, bans)
    ensures ListOf(ImportedAll(list, actor), map u | u in bans :: Imported(bans[u], actor))
  {
    hide Dash;
    var restored := map u | u in bans :: Imported(bans[u], actor);
    forall u | u in bans ensures restored[u] in ImportedAll(list, actor) {
      var i :| 0 <= i < |list| && list[i] == bans[u];
      assert ImportedAll(list, actor)[i] == restored[u];
    }
  }

  // Overwriting with the export of a federation leaves exactly its bans, in imported form.
  lemma ImportRestoresBans(bans: map<int, Ban>, list: seq<Ban>, actor: int)
    requires ListOf(list, bans) && Ids64(list) && OneLineReasons(list)
    ensures Parse(Render(list), actor).Some?
    ensures Overlay(map[], Parse(Render(list), actor).value) == map u | u in bans :: Imported(bans[u], actor)
  {
    ExportThenImport(list, actor);
    hide Parse, Render, Dash, Imported, ListOf, Overlay;
    ImportedList(list, bans, actor);
    OverlayOfList(ImportedAll(list, actor), map u | u in bans :: Imported(bans[u], actor));
  }
}
