// Flood enforcement: every message is tracked, a user who passes a limit loses messages, is
// acted on and starts over.
module FloodEnforcement {
  import opened Text
  import opened Flood

  const SECOND: int := 1_000_000_000

  datatype Settings = Settings(limit: int, timedLimit: int, windowSeconds: int, clearAll: bool)

  function Normalized(s: Settings): Settings {
    var positive := (n: int) => if n < 0 then 0 else n;
    Settings(positive(s.limit), positive(s.timedLimit), positive(s.windowSeconds), s.clearAll)
  }

  function Window(s: Settings): int {
    var window := Wrap64(Normalized(s).windowSeconds * SECOND);
    if window <= 0 then 10 * SECOND else window
  }

  // antifloodDeletionIDs
  function DeletionIDs(ids: seq<int>, limit: nat, clearAll: bool): seq<int> {
    if ids == [] then []
    else if clearAll then ids
    else if limit < |ids| then ids[limit..]
    else ids[|ids| - 1..]
  }

  // The ids in order of first occurrence, without zeros.
  function Unique(ids: seq<int>): seq<int> {
    if ids == [] then []
    else
      var before, last := Unique(ids[..|ids| - 1]), ids[|ids| - 1];
      if last == 0 || last in before then before else before + [last]
  }

  lemma {:induction false} UniqueMeans(ids: seq<int>)
    ensures forall id :: id in Unique(ids) <==> id in ids && id != 0
    ensures forall i, j :: 0 <= i < j < |Unique(ids)| ==> Unique(ids)[i] != Unique(ids)[j]
  {
    if ids != [] {
      UniqueMeans(ids[..|ids| - 1]);
      assert ids == ids[..|ids| - 1] + [ids[|ids| - 1]];
    }
  }

  method UniqueMessageIDs(ids: seq<int>) returns (out: seq<int>)
    ensures out == Unique(ids)
  {
    var seen: set<int> := {};
    out := [];
    for k := 0 to |ids|
      invariant out == Unique(ids[..k])
      invariant forall id :: id in seen <==> id in out
    {
      assert ids[..k + 1][..k] == ids[..k];
      var id := ids[k];
      if id != 0 && id !in seen {
        seen := seen + {id};
        out := out + [id];
      }
    }
    assert ids[..|ids|] == ids;
  }

  // ---------- One message ----------

  datatype Message = Message(chat: Chat, user: int, id: int, time: int)

  // Nothing happened; the user was acted on and reset; or the action failed, which leaves
  // the flood state as it is.
  datatype Verdict = Quiet | Enforced(deleted: seq<int>) | ActionFailed(deleted: seq<int>)

  function Seen(log: Log, s: Settings, m: Message): Log {
    log + [Track(m.chat, m.user, m.id, m.time, Window(s))]
  }

  predicate OverStreak(tracked: Log, s: Settings, m: Message) {
    0 < Normalized(s).limit < |StreakOf(tracked, m.chat)|
  }

  predicate OverWindow(tracked: Log, s: Settings, m: Message) {
    0 < Normalized(s).timedLimit < |WindowOf(tracked, m.chat, m.user)|
  }

  function ToDelete(tracked: Log, s: Settings, m: Message): seq<int> {
    var streak := StreakOf(tracked, m.chat);
    var timed := MessageIds(WindowOf(tracked, m.chat, m.user));
    Unique(
      (if OverStreak(tracked, s, m) then DeletionIDs(streak, Normalized(s).limit, s.clearAll) else [])
      + if OverWindow(tracked, s, m) then DeletionIDs(timed, Normalized(s).timedLimit, s.clearAll) else [])
  }

  predicate Active(s: Settings) {
    Normalized(s).limit > 0 || Normalized(s).timedLimit > 0
  }

  predicate Fires(tracked: Log, s: Settings, m: Message) {
    OverStreak(tracked, s, m) || OverWindow(tracked, s, m)
  }

  function VerdictOn(log: Log, s: Settings, m: Message, actionOk: bool): Verdict {
    var tracked := Seen(log, s, m);
    if !Active(s) || !Fires(tracked, s, m) then Quiet
    else if actionOk then Enforced(ToDelete(tracked, s, m))
    else ActionFailed(ToDelete(tracked, s, m))
  }

  function LogAfter(log: Log, s: Settings, m: Message, actionOk: bool): Log {
    if !Active(s) then log
    else if Fires(Seen(log, s, m), s, m) && actionOk then Seen(log, s, m) + [Clear(m.chat, m.user)]
    else Seen(log, s, m)
  }

  // What a check leaves. Without limits it does nothing. Otherwise the message is tracked, and
  // if the run or the window is then over its limit, messages are deleted and the user is
  // reset, unless the action on the user fails: then the flood state stays as tracked.
  ghost predicate CheckLeaves(log: Log, after: Log, s: Settings, m: Message, actionOk: bool, verdict: Verdict) {
    if s.limit <= 0 && s.timedLimit <= 0 then verdict == Quiet && after == log
    else
      var tracked := log + [Track(m.chat, m.user, m.id, m.time, Window(s))];
      if 0 < s.limit < |StreakOf(tracked, m.chat)| || 0 < s.timedLimit < |WindowOf(tracked, m.chat, m.user)| then
        if actionOk then verdict.Enforced? && after == tracked + [Clear(m.chat, m.user)] && DeletesDoomed(tracked, s, m, verdict.deleted)
        else verdict.ActionFailed? && after == tracked && DeletesDoomed(tracked, s, m, verdict.deleted)
      else verdict == Quiet && after == tracked
  }

  lemma CheckMeans(log: Log, s: Settings, m: Message, actionOk: bool)
    ensures CheckLeaves(log, LogAfter(log, s, m, actionOk), s, m, actionOk, VerdictOn(log, s, m, actionOk))
  {
    DeletedByParts(Seen(log, s, m), s, m);
    hide DeletesDoomed, ToDelete, StreakOf, WindowOf, Window;
  }

  // checkFlood. `actionOk` stands for Telegram's answer to the ban or mute.
  method CheckFlood(index: FloodIndex, raw: Settings, m: Message, actionOk: bool) returns (verdict: Verdict)
    requires index.Valid()
    modifies index
    ensures index.Valid()
    ensures verdict == VerdictOn(old(index.log), raw, m, actionOk)
    ensures index.log == LogAfter(old(index.log), raw, m, actionOk)
    ensures CheckLeaves(old(index.log), index.log, raw, m, actionOk, verdict)
  {
    CheckMeans(index.log, raw, m, actionOk);
    hide CheckLeaves, VerdictOn, LogAfter;
    hide StreakOf, WindowOf, Unique, DeletionIDs, Index.Agrees, Index.Tracking, Index.Cleared;
    var settings := Normalized(raw);
    if settings.limit == 0 && settings.timedLimit == 0 {
      return Quiet;
    }
    ghost var seen := Seen(index.log, raw, m);
    var tracked := index.TrackFlood(m.chat, m.user, m.id, m.time, Window(raw));
    var triggered := false;
    var deleteIDs: seq<int> := [];
    if settings.limit > 0 && |tracked.streakIds| > settings.limit {
      triggered := true;
      deleteIDs := deleteIDs + DeletionIDs(tracked.streakIds, settings.limit, settings.clearAll);
    }
    ghost var streakPart := if OverStreak(seen, raw, m) then DeletionIDs(StreakOf(seen, m.chat), settings.limit, raw.clearAll) else [];
    assert deleteIDs == streakPart;
    if settings.timedLimit > 0 && |tracked.timedIds| > settings.timedLimit {
      triggered := true;
      deleteIDs := deleteIDs + DeletionIDs(tracked.timedIds, settings.timedLimit, settings.clearAll);
    } else {
      assert deleteIDs == streakPart + [];
    }
    assert triggered <==> Fires(seen, raw, m);
    if !triggered {
      return Quiet;
    }
    var deleted := UniqueMessageIDs(deleteIDs);
    assert deleted == ToDelete(seen, raw, m);
    if !actionOk {
      return ActionFailed(deleted);
    }
    index.ClearFlood(m.chat, m.user);
    return Enforced(deleted);
  }

  // ---------- Whole runs ----------

  // The window as set, ten seconds if it is not.
  lemma WindowMeans(s: Settings)
    ensures s.windowSeconds <= 0 ==> Window(s) == 10_000_000_000
    ensures 0 < s.windowSeconds <= 9_223_372_036 ==> Window(s) == s.windowSeconds * 1_000_000_000
  {
  }

  // No run and no window holds more than its limit.
  ghost predicate Bounded(log: Log, s: Settings) {
    && (Normalized(s).limit > 0 ==> forall chat :: |StreakOf(log, chat)| <= Normalized(s).limit)
    && (Normalized(s).timedLimit > 0 ==> forall chat, user :: |WindowOf(log, chat, user)| <= Normalized(s).timedLimit)
  }

  lemma OneSender(log: Log, chat: Chat) returns (user: int)
    ensures SenderIs(log, chat, user)
  {
    if i :| 0 <= i < |log| && InStreak(log, i, chat) {
      user := log[i].user;
      forall j | 0 <= j < |log| && InStreak(log, j, chat) ensures log[j].user == user {
        if j < i {
          assert log[i].chat == chat && log[i].Track?;
        }
      }
    } else {
      user := 0;
    }
  }

  lemma {:induction false} KeptShrinks(entries: seq<Timed>, now: int, window: int)
    ensures |Kept(entries, now, window)| <= |entries|
  {
    if entries != [] {
      KeptShrinks(entries[..|entries| - 1], now, window);
    }
  }

  // Tracking a message adds it, as the last one, to its own run and window and makes no
  // other run or window longer.
  lemma SeenGrows(log: Log, s: Settings, m: Message, chat: Chat, user: int)
    ensures var tracked := Seen(log, s, m);
      && (chat != m.chat ==> StreakOf(tracked, chat) == StreakOf(log, chat))
      && |WindowOf(tracked, chat, user)| <= |WindowOf(log, chat, user)| + (if (chat, user) == (m.chat, m.user) then 1 else 0)
      && (chat == m.chat ==>
            && 1 <= |StreakOf(tracked, chat)| <= |StreakOf(log, chat)| + 1
            && StreakOf(tracked, chat)[|StreakOf(tracked, chat)| - 1] == m.id)
      && ((chat, user) == (m.chat, m.user) ==>
            && WindowOf(tracked, chat, user) != []
            && WindowOf(tracked, chat, user)[|WindowOf(tracked, chat, user)| - 1] == Timed(m.id, m.time))
  {
    var e := Track(m.chat, m.user, m.id, m.time, Window(s));
    var sender := OneSender(log, chat);
    StreakAfter(log, e, chat, sender);
    WindowAfter(log, e, chat, user);
    KeptShrinks(WindowOf(log, chat, user), m.time, Window(s));
  }

  // A reset empties the user's own run and window and touches no other.
  lemma ClearShrinks(log: Log, s: Settings, m: Message, chat: Chat, user: int)
    ensures var after := Seen(log, s, m) + [Clear(m.chat, m.user)];
      && StreakOf(after, chat) == (if chat == m.chat then [] else StreakOf(log, chat))
      && WindowOf(after, chat, user) == if (chat, user) == (m.chat, m.user) then [] else WindowOf(log, chat, user)
  {
    var e := Track(m.chat, m.user, m.id, m.time, Window(s));
    var sender := OneSender(log, chat);
    StreakAfter(log, e, chat, sender);
    SenderAfter(log, e, chat, sender);
    WindowAfter(log, e, chat, user);
    var sender' := if chat == m.chat then m.user else sender;
    StreakAfter(log + [e], Clear(m.chat, m.user), chat, sender');
    WindowAfter(log + [e], Clear(m.chat, m.user), chat, user);
  }

  lemma StepStaysBounded(log: Log, s: Settings, m: Message)
    requires Bounded(log, s)
    ensures Bounded(LogAfter(log, s, m, true), s)
  {
    var tracked, after := Seen(log, s, m), LogAfter(log, s, m, true);
    hide StreakOf, WindowOf;
    if Active(s) {
      forall chat ensures Normalized(s).limit > 0 ==> |StreakOf(after, chat)| <= Normalized(s).limit {
        SeenGrows(log, s, m, chat, m.user);
        ClearShrinks(log, s, m, chat, m.user);
      }
      forall chat, user
        ensures Normalized(s).timedLimit > 0 ==> |WindowOf(after, chat, user)| <= Normalized(s).timedLimit
      {
        SeenGrows(log, s, m, chat, user);
        ClearShrinks(log, s, m, chat, user);
      }
    }
  }

  // Deleted ids are messages the flooder wrote in this chat.
  ghost predicate WrittenBy(tracked: Log, id: int, chat: Chat, user: int) {
    exists i :: 0 <= i < |tracked| && tracked[i].Track? && Own(tracked[i], chat, user) && tracked[i].message == id
  }

  lemma {:induction false} StreakIsWritten(log: Log, n: nat, chat: Chat, user: int)
    requires n <= |log| && SenderIs(log, chat, user)
    ensures forall id :: id in StreakPrefix(log, n, chat) ==> WrittenBy(log, id, chat, user)
  {
    if n > 0 {
      StreakIsWritten(log, n - 1, chat, user);
    }
  }

  lemma {:induction false} WindowIsWritten(log: Log, n: nat, chat: Chat, user: int)
    requires n <= |log|
    ensures forall t :: t in WindowPrefix(log, n, chat, user) ==> WrittenBy(log, t.message, chat, user)
  {
    if n > 0 {
      WindowIsWritten(log, n - 1, chat, user);
    }
  }

  lemma OnlyFloodersMessages(log: Log, s: Settings, m: Message)
    ensures forall id :: id in ToDelete(Seen(log, s, m), s, m) ==> WrittenBy(Seen(log, s, m), id, m.chat, m.user)
  {
    var tracked := Seen(log, s, m);
    var sender := OneSender(log, m.chat);
    SenderAfter(log, tracked[|log|], m.chat, sender);
    StreakIsWritten(tracked, |tracked|, m.chat, m.user);
    WindowIsWritten(tracked, |tracked|, m.chat, m.user);
    var streak, entries := StreakOf(tracked, m.chat), WindowOf(tracked, m.chat, m.user);
    hide StreakOf, WindowOf, WrittenBy;
    var a := if OverStreak(tracked, s, m) then DeletionIDs(streak, Normalized(s).limit, s.clearAll) else [];
    var b := if OverWindow(tracked, s, m) then DeletionIDs(MessageIds(entries), Normalized(s).timedLimit, s.clearAll) else [];
    UniqueMeans(a + b);
    forall id | id in ToDelete(tracked, s, m) ensures WrittenBy(tracked, id, m.chat, m.user) {
      assert id in a + b;
      if id in a {
        assert id in streak;
      } else {
        assert id in MessageIds(entries);
        var i :| 0 <= i < |entries| && MessageIds(entries)[i] == id;
        assert entries[i] in entries && entries[i].message == id;
      }
    }
  }

  lemma UniqueOfOne(id: int)
    requires id != 0
    ensures Unique([id]) == [id] && Unique([id, id]) == [id]
  {
    assert [id][..0] == [] && [id, id][..1] == [id];
    assert Unique([]) == [] && Unique([id]) == [id];
  }

  // Without clearflood nothing but the message that passed the limit goes.
  lemma OnlyTheCurrentMessage(log: Log, s: Settings, m: Message)
    requires Bounded(log, s) && Fires(Seen(log, s, m), s, m) && !s.clearAll && m.id != 0
    ensures ToDelete(Seen(log, s, m), s, m) == [m.id]
  {
    var tracked := Seen(log, s, m);
    var streak, entries := StreakOf(tracked, m.chat), WindowOf(tracked, m.chat, m.user);
    SeenGrows(log, s, m, m.chat, m.user);
    assert OverStreak(tracked, s, m) ==> |streak| == Normalized(s).limit + 1;
    assert OverWindow(tracked, s, m) ==> |entries| == Normalized(s).timedLimit + 1;
    hide StreakOf, WindowOf, Unique;
    var a := if OverStreak(tracked, s, m) then DeletionIDs(streak, Normalized(s).limit, false) else [];
    var b := if OverWindow(tracked, s, m) then DeletionIDs(MessageIds(entries), Normalized(s).timedLimit, false) else [];
    assert OverStreak(tracked, s, m) ==> a == [m.id];
    assert OverWindow(tracked, s, m) ==> b == [m.id];
    assert a + b == [m.id] || a + b == [m.id, m.id];
    UniqueOfOne(m.id);
  }

  // The message that passed the limit always goes.
  lemma CurrentMessageGoes(log: Log, s: Settings, m: Message)
    requires Fires(Seen(log, s, m), s, m) && m.id != 0
    ensures m.id in ToDelete(Seen(log, s, m), s, m)
  {
    var tracked := Seen(log, s, m);
    var streak, entries := StreakOf(tracked, m.chat), WindowOf(tracked, m.chat, m.user);
    SeenGrows(log, s, m, m.chat, m.user);
    hide StreakOf, WindowOf, Unique;
    var a := if OverStreak(tracked, s, m) then DeletionIDs(streak, Normalized(s).limit, s.clearAll) else [];
    var b := if OverWindow(tracked, s, m) then DeletionIDs(MessageIds(entries), Normalized(s).timedLimit, s.clearAll) else [];
    assert a != [] ==> a[|a| - 1] == m.id;
    assert b != [] ==> b[|b| - 1] == m.id;
    assert m.id in a + b;
    UniqueMeans(a + b);
  }

  // ---------- Which messages are deleted ----------

  // The two counts a message can be part of.
  datatype Part = Streak | Windowed

  // Message i counts in the run of its chat, or in the window of its sender.
  predicate Counted(tracked: Log, part: Part, i: nat, chat: Chat, user: int)
    requires i < |tracked|
  {
    if part == Streak then InStreak(tracked, i, chat) else InWindow(tracked, i, chat, user)
  }

  // How many of the first n messages count.
  function HowMany(tracked: Log, part: Part, n: nat, chat: Chat, user: int): nat
    requires n <= |tracked|
  {
    if n == 0 then 0
    else HowMany(tracked, part, n - 1, chat, user) + if Counted(tracked, part, n - 1, chat, user) then 1 else 0
  }

  function LimitOf(s: Settings, part: Part): int {
    if part == Streak then s.limit else s.timedLimit
  }

  // Message i goes, and this is its id: its count is over the limit, and with clearflood every
  // message that counts goes, without it those beyond the limit.
  ghost predicate Doomed(tracked: Log, s: Settings, m: Message, part: Part, i: int, id: int) {
    && 0 <= i < |tracked| && Counted(tracked, part, i, m.chat, m.user) && tracked[i].message == id
    && 0 < LimitOf(s, part) < HowMany(tracked, part, |tracked|, m.chat, m.user)
    && (s.clearAll || HowMany(tracked, part, i, m.chat, m.user) >= LimitOf(s, part))
  }

  // The messages that count, by their places in the log.
  function Places(tracked: Log, part: Part, n: nat, chat: Chat, user: int): (r: seq<nat>)
    requires n <= |tracked|
    ensures |r| == HowMany(tracked, part, n, chat, user)
    ensures forall k :: 0 <= k < |r| ==> r[k] < n && Counted(tracked, part, r[k], chat, user)
  {
    if n == 0 then []
    else Places(tracked, part, n - 1, chat, user) + if Counted(tracked, part, n - 1, chat, user) then [n - 1] else []
  }

  function IdsAt(tracked: Log, places: seq<nat>): (ids: seq<int>)
    requires forall k :: 0 <= k < |places| ==> places[k] < |tracked| && tracked[places[k]].Track?
    ensures |ids| == |places| && forall k :: 0 <= k < |places| ==> ids[k] == tracked[places[k]].message
  {
    seq(|places|, k requires 0 <= k < |places| => tracked[places[k]].message)
  }

  // The k-th place is the one with k counted messages before it.
  lemma {:induction false} PlacesMean(tracked: Log, part: Part, n: nat, chat: Chat, user: int)
    requires n <= |tracked|
    ensures var r := Places(tracked, part, n, chat, user);
      && (forall k, l :: 0 <= k < l < |r| ==> r[k] < r[l])
      && (forall k :: 0 <= k < |r| ==> HowMany(tracked, part, r[k], chat, user) == k)
      && (forall i :: 0 <= i < n && Counted(tracked, part, i, chat, user) ==> i in r)
  {
    if n > 0 {
      PlacesMean(tracked, part, n - 1, chat, user);
      hide Counted, HowMany;
      var before := Places(tracked, part, n - 1, chat, user);
      assert HowMany(tracked, part, n - 1, chat, user) == |before|;
    }
  }

  lemma {:induction false} StreakPlaces(tracked: Log, n: nat, chat: Chat, user: int)
    requires n <= |tracked|
    ensures StreakPrefix(tracked, n, chat) == IdsAt(tracked, Places(tracked, Streak, n, chat, user))
  {
    if n > 0 {
      StreakPlaces(tracked, n - 1, chat, user);
    }
  }

  lemma {:induction false} WindowPlaces(tracked: Log, n: nat, chat: Chat, user: int)
    requires n <= |tracked|
    ensures MessageIds(WindowPrefix(tracked, n, chat, user)) == IdsAt(tracked, Places(tracked, Windowed, n, chat, user))
  {
    if n > 0 {
      WindowPlaces(tracked, n - 1, chat, user);
      hide InWindow;
    }
  }

  // The places of the messages of one part that go, and their ids.
  function DoomedPlaces(tracked: Log, s: Settings, m: Message, part: Part): (r: seq<nat>)
    ensures forall k :: 0 <= k < |r| ==> r[k] < |tracked| && tracked[r[k]].Track?
  {
    var places := Places(tracked, part, |tracked|, m.chat, m.user);
    if !(0 < LimitOf(s, part) < |places|) then []
    else if s.clearAll then places
    else places[LimitOf(s, part)..]
  }

  function PartOf(tracked: Log, s: Settings, m: Message, part: Part): seq<int> {
    IdsAt(tracked, DoomedPlaces(tracked, s, m, part))
  }

  lemma IdsOfPlaces(tracked: Log, part: Part, m: Message)
    ensures var places := Places(tracked, part, |tracked|, m.chat, m.user);
      forall k :: 0 <= k < |places| ==> places[k] < |tracked| && tracked[places[k]].Track?
  {
  }

  lemma PartByIds(tracked: Log, s: Settings, m: Message, part: Part)
    ensures var ids := IdsAt(tracked, Places(tracked, part, |tracked|, m.chat, m.user));
      PartOf(tracked, s, m, part) == if 0 < LimitOf(s, part) < |ids| then DeletionIDs(ids, LimitOf(s, part), s.clearAll) else []
  {
    hide Places, InStreak, InWindow;
    var places := Places(tracked, part, |tracked|, m.chat, m.user);
    IdsOfPlaces(tracked, part, m);
    if 0 < LimitOf(s, part) < |places| {
      assert IdsAt(tracked, places[LimitOf(s, part)..]) == IdsAt(tracked, places)[LimitOf(s, part)..];
    }
  }

  lemma ToDeleteByParts(tracked: Log, s: Settings, m: Message)
    ensures ToDelete(tracked, s, m) == Unique(PartOf(tracked, s, m, Streak) + PartOf(tracked, s, m, Windowed))
  {
    PartByIds(tracked, s, m, Streak);
    PartByIds(tracked, s, m, Windowed);
    StreakPlaces(tracked, |tracked|, m.chat, m.user);
    WindowPlaces(tracked, |tracked|, m.chat, m.user);
    assert |MessageIds(WindowOf(tracked, m.chat, m.user))| == |WindowOf(tracked, m.chat, m.user)|;
    hide Unique, StreakPrefix, WindowPrefix, MessageIds, Places, PartOf, DeletionIDs, IdsAt, Counted;
  }

  lemma DoomedPlacesMean(tracked: Log, s: Settings, m: Message, part: Part)
    ensures var r := DoomedPlaces(tracked, s, m, part);
      && (forall k, l :: 0 <= k < l < |r| ==> r[k] < r[l])
      && (forall k :: 0 <= k < |r| ==> Doomed(tracked, s, m, part, r[k], tracked[r[k]].message))
  {
    PlacesMean(tracked, part, |tracked|, m.chat, m.user);
    hide Counted, HowMany, Places, PartOf;
  }

  lemma DoomedIsPlaced(tracked: Log, s: Settings, m: Message, part: Part, i: int, id: int)
    requires Doomed(tracked, s, m, part, i, id)
    ensures i in DoomedPlaces(tracked, s, m, part)
  {
    PlacesMean(tracked, part, |tracked|, m.chat, m.user);
    var places := Places(tracked, part, |tracked|, m.chat, m.user);
    assert i in places;
    hide Counted, HowMany, Places;
    var j :| 0 <= j < |places| && places[j] == i;
    if !s.clearAll {
      assert places[LimitOf(s, part)..][j - LimitOf(s, part)] == i;
    }
  }

  lemma DoomedIsInPart(tracked: Log, s: Settings, m: Message, part: Part, i: int, id: int) returns (k: nat)
    requires Doomed(tracked, s, m, part, i, id)
    ensures k < |PartOf(tracked, s, m, part)| && PartOf(tracked, s, m, part)[k] == id && DoomedPlaces(tracked, s, m, part)[k] == i
  {
    DoomedIsPlaced(tracked, s, m, part, i, id);
    var places := DoomedPlaces(tracked, s, m, part);
    hide DoomedPlaces, Counted, HowMany;
    k :| 0 <= k < |places| && places[k] == i;
  }

  // Duplicates go, first occurrences stay in order.
  lemma {:induction false} UniqueOrder(ids: seq<int>, a: nat, b: nat) returns (k: nat)
    requires a < b < |Unique(ids)|
    ensures k < |ids| && ids[k] == Unique(ids)[a] && forall l :: 0 <= l < |ids| && ids[l] == Unique(ids)[b] ==> k < l
  {
    var front, last := ids[..|ids| - 1], ids[|ids| - 1];
    UniqueMeans(front);
    if b < |Unique(front)| {
      UniqueMeans(ids);
      k := UniqueOrder(front, a, b);
      assert Unique(ids)[b] == Unique(front)[b] && Unique(front)[b] in Unique(front) && Unique(front)[b] in front;
      var l :| 0 <= l < |front| && front[l] == Unique(front)[b];
      assert k < l;
    } else {
      assert Unique(front)[a] in Unique(front);
      k :| 0 <= k < |front| && front[k] == Unique(front)[a];
      assert last !in Unique(front) && last != 0;
      assert forall l :: 0 <= l < |front| ==> front[l] in front;
    }
  }

  // An id is deleted iff it is not zero and some message with it goes, in either part.
  lemma DeletedIff(tracked: Log, s: Settings, m: Message, id: int)
    ensures id in ToDelete(tracked, s, m) <==> id != 0 && exists part, i :: Doomed(tracked, s, m, part, i, id)
  {
    ToDeleteByParts(tracked, s, m);
    var a, b := PartOf(tracked, s, m, Streak), PartOf(tracked, s, m, Windowed);
    UniqueMeans(a + b);
    DoomedPlacesMean(tracked, s, m, Streak);
    DoomedPlacesMean(tracked, s, m, Windowed);
    hide Unique, Doomed, DoomedPlaces, ToDelete;
    if id in a {
      var k :| 0 <= k < |a| && a[k] == id;
      assert Doomed(tracked, s, m, Streak, DoomedPlaces(tracked, s, m, Streak)[k], id);
    } else if id in b {
      var k :| 0 <= k < |b| && b[k] == id;
      assert Doomed(tracked, s, m, Windowed, DoomedPlaces(tracked, s, m, Windowed)[k], id);
    }
    if part, i :| Doomed(tracked, s, m, part, i, id) {
      var k := DoomedIsInPart(tracked, s, m, part, i, id);
      assert id in if part == Streak then a else b;
    }
  }

  // A message that goes for x comes before every message that goes for y: the run before the
  // window, and each in the order of the log.
  ghost predicate GoesBefore(tracked: Log, s: Settings, m: Message, x: int, y: int) {
    exists part, i :: Doomed(tracked, s, m, part, i, x) && Precedes(tracked, s, m, part, i, y)
  }

  ghost predicate Precedes(tracked: Log, s: Settings, m: Message, part: Part, i: int, y: int) {
    forall other, j :: Doomed(tracked, s, m, other, j, y) ==> (part == Streak && other == Windowed) || (part == other && i < j)
  }

  lemma PlaceOrder(a: seq<nat>, b: seq<nat>, k: nat, other: Part, l: nat)
    requires k < |a| + |b| && l < |if other == Streak then a else b|
    requires forall i, j :: 0 <= i < j < |a| ==> a[i] < a[j]
    requires forall i, j :: 0 <= i < j < |b| ==> b[i] < b[j]
    requires k < if other == Streak then l else |a| + l
    ensures if k < |a| then other == Windowed || a[k] < a[l] else other == Windowed && b[k - |a|] < b[l]
  {
  }

  lemma AllLater(tracked: Log, s: Settings, m: Message, k: nat, y: int, part: Part, i: int)
    requires
      var a, b := PartOf(tracked, s, m, Streak), PartOf(tracked, s, m, Windowed);
      && k < |a| + |b| && (forall l :: 0 <= l < |a + b| && (a + b)[l] == y ==> k < l)
      && part == (if k < |a| then Streak else Windowed)
      && i == if k < |a| then DoomedPlaces(tracked, s, m, Streak)[k] else DoomedPlaces(tracked, s, m, Windowed)[k - |a|]
    ensures Precedes(tracked, s, m, part, i, y)
  {
    DoomedPlacesMean(tracked, s, m, Streak);
    DoomedPlacesMean(tracked, s, m, Windowed);
    hide Doomed, DoomedPlaces;
    var a, b := PartOf(tracked, s, m, Streak), PartOf(tracked, s, m, Windowed);
    forall other, j | Doomed(tracked, s, m, other, j, y)
      ensures (part == Streak && other == Windowed) || (part == other && i < j)
    {
      var l := DoomedIsInPart(tracked, s, m, other, j, y);
      if other == Streak {
        assert (a + b)[l] == y;
      } else {
        assert (a + b)[|a| + l] == y;
      }
      PlaceOrder(DoomedPlaces(tracked, s, m, Streak), DoomedPlaces(tracked, s, m, Windowed), k, other, l);
    }
  }

  lemma DeletedInOrder(tracked: Log, s: Settings, m: Message, x: nat, y: nat)
    requires x < y < |ToDelete(tracked, s, m)|
    ensures GoesBefore(tracked, s, m, ToDelete(tracked, s, m)[x], ToDelete(tracked, s, m)[y])
  {
    ToDeleteByParts(tracked, s, m);
    DoomedPlacesMean(tracked, s, m, Streak);
    DoomedPlacesMean(tracked, s, m, Windowed);
    hide Unique, Doomed, DoomedPlaces, ToDelete, Precedes;
    var a, b := PartOf(tracked, s, m, Streak), PartOf(tracked, s, m, Windowed);
    var k := UniqueOrder(a + b, x, y);
    var part := if k < |a| then Streak else Windowed;
    var i: int := if k < |a| then DoomedPlaces(tracked, s, m, Streak)[k] else DoomedPlaces(tracked, s, m, Windowed)[k - |a|];
    AllLater(tracked, s, m, k, ToDelete(tracked, s, m)[y], part, i);
    assert Doomed(tracked, s, m, part, i, ToDelete(tracked, s, m)[x]);
  }

  function RunLog(s: Settings, messages: seq<Message>): Log {
    if messages == [] then []
    else LogAfter(RunLog(s, messages[..|messages| - 1]), s, messages[|messages| - 1], true)
  }

  lemma {:induction false} RunStaysBounded(s: Settings, messages: seq<Message>)
    ensures Bounded(RunLog(s, messages), s)
  {
    if messages != [] {
      RunStaysBounded(s, messages[..|messages| - 1]);
      StepStaysBounded(RunLog(s, messages[..|messages| - 1]), s, messages[|messages| - 1]);
    }
  }

  // The ids of the messages that go and no others, each once, in that order.
  ghost predicate DeletesDoomed(tracked: Log, s: Settings, m: Message, deleted: seq<int>) {
    && (forall id :: id in deleted <==> id != 0 && exists part, i :: Doomed(tracked, s, m, part, i, id))
    && (forall x, y :: 0 <= x < y < |deleted| ==> deleted[x] != deleted[y] && GoesBefore(tracked, s, m, deleted[x], deleted[y]))
  }

  lemma DeletedByParts(tracked: Log, s: Settings, m: Message)
    ensures DeletesDoomed(tracked, s, m, ToDelete(tracked, s, m))
  {
    var deleted := ToDelete(tracked, s, m);
    ToDeleteByParts(tracked, s, m);
    UniqueMeans(PartOf(tracked, s, m, Streak) + PartOf(tracked, s, m, Windowed));
    hide ToDelete, Doomed, GoesBefore, Unique, PartOf;
    forall id ensures id in deleted <==> id != 0 && exists part, i :: Doomed(tracked, s, m, part, i, id) {
      DeletedIff(tracked, s, m, id);
    }
    forall x, y | 0 <= x < y < |deleted| ensures GoesBefore(tracked, s, m, deleted[x], deleted[y]) {
      DeletedInOrder(tracked, s, m, x, y);
    }
  }

  // Over every run with fixed settings and successful actions: enforcement fires exactly when
  // a count reaches its limit plus one, the counts are back within the limits after every
  // message, only the flooder's messages are deleted, the current one always is, and without
  // clearflood it is the only one.
  lemma EnforcementOverRuns(s: Settings, messages: seq<Message>, m: Message)
    ensures
      var log := RunLog(s, messages);
      var tracked, verdict := Seen(log, s, m), VerdictOn(log, s, m, true);
      && Bounded(log, s) && Bounded(RunLog(s, messages + [m]), s)
      && (verdict != Quiet <==>
            || 0 < s.limit == |StreakOf(tracked, m.chat)| - 1
            || 0 < s.timedLimit == |WindowOf(tracked, m.chat, m.user)| - 1)
      && (verdict != Quiet ==>
            && verdict.Enforced?
            && (forall id :: id in verdict.deleted ==> WrittenBy(tracked, id, m.chat, m.user))
            && (m.id != 0 ==> m.id in verdict.deleted)
            && (m.id != 0 && !s.clearAll ==> verdict.deleted == [m.id])
            && DeletesDoomed(tracked, s, m, verdict.deleted))
  {
    var log := RunLog(s, messages);
    var tracked := Seen(log, s, m);
    RunStaysBounded(s, messages);
    RunStaysBounded(s, messages + [m]);
    SeenGrows(log, s, m, m.chat, m.user);
    OnlyFloodersMessages(log, s, m);
    DeletedByParts(tracked, s, m);
    hide DeletesDoomed, ToDelete, Bounded, WrittenBy, StreakOf, WindowOf;
    if Fires(tracked, s, m) && m.id != 0 {
      CurrentMessageGoes(log, s, m);
      if !s.clearAll {
        OnlyTheCurrentMessage(log, s, m);
      }
    }
  }
}
