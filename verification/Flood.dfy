// The antiflood index: per chat the run of messages by its last sender, per user a sliding
// window of recent messages. Both summarize a plain log of events, kept here as a ghost.
module Flood {
  import opened Text

  datatype Chat = Chat(botId: string, chatId: int)

  // Track: a message was seen. Clear: a user's flood state in a chat was reset.
  datatype Event =
    | Track(chat: Chat, user: int, message: int, time: int, window: int)
    | Clear(chat: Chat, user: int)

  type Log = seq<Event>

  datatype Timed = Timed(message: int, seenAt: int)

  predicate Own(e: Event, chat: Chat, user: int) {
    e.chat == chat && e.user == user
  }

  // ---------- What the log says ----------

  // Message i still counts in its sender's window: no reset since, and at each of the
  // sender's later messages it was within that message's window.
  predicate InWindow(log: Log, i: nat, chat: Chat, user: int)
    requires i < |log|
  {
    && log[i].Track? && Own(log[i], chat, user)
    && forall j :: i < j < |log| && Own(log[j], chat, user) ==>
         log[j].Track? && log[j].time - log[i].time <= log[j].window
  }

  // Message i belongs to its chat's current run: nobody else has written since and its
  // sender has not been reset since.
  predicate InStreak(log: Log, i: nat, chat: Chat)
    requires i < |log|
  {
    && log[i].Track? && log[i].chat == chat
    && forall j :: i < j < |log| && log[j].chat == chat ==> (log[j].Track? <==> log[j].user == log[i].user)
  }

  // The messages among the first n events that still count, in order.
  function WindowPrefix(log: Log, n: nat, chat: Chat, user: int): seq<Timed>
    requires n <= |log|
  {
    if n == 0 then []
    else
      WindowPrefix(log, n - 1, chat, user)
      + if InWindow(log, n - 1, chat, user) then [Timed(log[n - 1].message, log[n - 1].time)] else []
  }

  function StreakPrefix(log: Log, n: nat, chat: Chat): seq<int>
    requires n <= |log|
  {
    if n == 0 then []
    else StreakPrefix(log, n - 1, chat) + if InStreak(log, n - 1, chat) then [log[n - 1].message] else []
  }

  function WindowOf(log: Log, chat: Chat, user: int): seq<Timed> {
    WindowPrefix(log, |log|, chat, user)
  }

  function StreakOf(log: Log, chat: Chat): seq<int> {
    StreakPrefix(log, |log|, chat)
  }

  // ---------- How one event changes the summaries ----------

  function Kept(entries: seq<Timed>, now: int, window: int): seq<Timed> {
    if entries == [] then []
    else
      var last := entries[|entries| - 1];
      Kept(entries[..|entries| - 1], now, window) + if now - last.seenAt <= window then [last] else []
  }

  lemma KeptAppend(entries: seq<Timed>, entry: Timed, now: int, window: int)
    ensures Kept(entries + [entry], now, window)
      == Kept(entries, now, window) + if now - entry.seenAt <= window then [entry] else []
  {
    assert (entries + [entry])[..|entries|] == entries;
  }

  lemma InWindowAfter(log: Log, e: Event, i: nat, chat: Chat, user: int)
    requires i < |log|
    ensures InWindow(log + [e], i, chat, user) <==>
      InWindow(log, i, chat, user) && (Own(e, chat, user) ==> e.Track? && e.time - log[i].time <= e.window)
  {
    var more := log + [e];
    assert more[|log|] == e && forall j :: 0 <= j < |log| ==> more[j] == log[j];
  }

  lemma {:induction false} WindowPrefixAfter(log: Log, e: Event, n: nat, chat: Chat, user: int)
    requires n <= |log|
    ensures WindowPrefix(log + [e], n, chat, user) ==
      if !Own(e, chat, user) then WindowPrefix(log, n, chat, user)
      else if e.Clear? then []
      else Kept(WindowPrefix(log, n, chat, user), e.time, e.window)
  {
    if n > 0 {
      WindowPrefixAfter(log, e, n - 1, chat, user);
      var i := n - 1;
      InWindowAfter(log, e, i, chat, user);
      hide InWindow;
      var before := WindowPrefix(log, i, chat, user);
      assert before + [] == before;
      if InWindow(log, i, chat, user) && e.Track? {
        KeptAppend(WindowPrefix(log, i, chat, user), Timed(log[i].message, log[i].time), e.time, e.window);
      }
    }
  }

  lemma WindowAfter(log: Log, e: Event, chat: Chat, user: int)
    ensures WindowOf(log + [e], chat, user) ==
      if !Own(e, chat, user) then WindowOf(log, chat, user)
      else if e.Clear? then []
      else Kept(WindowOf(log, chat, user), e.time, e.window) + [Timed(e.message, e.time)]
  {
    WindowPrefixAfter(log, e, |log|, chat, user);
    assert (log + [e])[|log|] == e;
  }

  // All messages of a run have one sender.
  ghost predicate SenderIs(log: Log, chat: Chat, user: int) {
    forall i :: 0 <= i < |log| && InStreak(log, i, chat) ==> log[i].user == user
  }

  lemma {:induction false} StreakPrefixAfter(log: Log, e: Event, n: nat, chat: Chat, user: int)
    requires n <= |log| && SenderIs(log, chat, user)
    ensures StreakPrefix(log + [e], n, chat) ==
      if e.chat != chat || (e.Track? <==> e.user == user) then StreakPrefix(log, n, chat) else []
  {
    if n > 0 {
      StreakPrefixAfter(log, e, n - 1, chat, user);
      var more := log + [e];
      assert InStreak(more, n - 1, chat) <==>
        InStreak(log, n - 1, chat) && (e.chat == chat ==> (e.Track? <==> e.user == log[n - 1].user))
      by {
        assert more[|log|] == e && forall j :: 0 <= j < |log| ==> more[j] == log[j];
      }
    }
  }

  lemma StreakAfter(log: Log, e: Event, chat: Chat, user: int)
    requires SenderIs(log, chat, user)
    ensures StreakOf(log + [e], chat) ==
      if e.chat != chat then StreakOf(log, chat)
      else if e.Clear? then (if e.user == user then [] else StreakOf(log, chat))
      else if e.user == user then StreakOf(log, chat) + [e.message]
      else [e.message]
  {
    StreakPrefixAfter(log, e, |log|, chat, user);
    assert (log + [e])[|log|] == e;
  }

  lemma SenderAfter(log: Log, e: Event, chat: Chat, user: int)
    requires SenderIs(log, chat, user)
    ensures SenderIs(log + [e], chat, if e.Track? && e.chat == chat then e.user else user)
  {
    var more := log + [e];
    forall i | 0 <= i < |more| && InStreak(more, i, chat)
      ensures more[i].user == if e.Track? && e.chat == chat then e.user else user
    {
      if i < |log| {
        assert more[|log|] == e && forall j :: 0 <= j < |log| ==> more[j] == log[j];
        assert InStreak(log, i, chat);
      }
    }
  }

  lemma {:induction false} StreakEmpty(log: Log, n: nat, chat: Chat)
    requires n <= |log|
    ensures StreakPrefix(log, n, chat) == [] <==> forall i :: 0 <= i < n ==> !InStreak(log, i, chat)
  {
    if n > 0 {
      StreakEmpty(log, n - 1, chat);
    }
  }

  // ---------- The in-memory index ----------

  datatype Tracked = Tracked(streakIds: seq<int>, timedIds: seq<int>)

  function MessageIds(entries: seq<Timed>): (ids: seq<int>)
    ensures |ids| == |entries|
    ensures forall i :: 0 <= i < |ids| ==> ids[i] == entries[i].message
  {
    seq(|entries|, i requires 0 <= i < |entries| => entries[i].message)
  }

  // Reading a map under a missing key gives the zero value.
  datatype Index = Index(flood: map<(Chat, int), seq<Timed>>, streakUser: map<Chat, int>, streakMessage: map<Chat, seq<int>>) {
    function FloodAt(chat: Chat, user: int): seq<Timed> {
      if (chat, user) in flood then flood[(chat, user)] else []
    }

    function StreakAt(chat: Chat): seq<int> {
      if chat in streakMessage then streakMessage[chat] else []
    }

    function SenderAt(chat: Chat): int {
      if chat in streakUser then streakUser[chat] else 0
    }

    function Tracking(chat: Chat, user: int, message: int, now: int, window: int): Index {
      var same := SenderAt(chat) == user;
      Index(flood[(chat, user) := Kept(FloodAt(chat, user), now, window) + [Timed(message, now)]],
            if same then streakUser else streakUser[chat := user],
            streakMessage[chat := if same then StreakAt(chat) + [message] else [message]])
    }

    function Cleared(chat: Chat, user: int): Index {
      var same := SenderAt(chat) == user;
      Index(flood - {(chat, user)},
            if same then streakUser - {chat} else streakUser,
            if same then streakMessage - {chat} else streakMessage)
    }

    // The index agrees with the log, for every chat and every user.
    ghost predicate Agrees(log: Log) {
      && (forall chat, user :: FloodAt(chat, user) == WindowOf(log, chat, user))
      && (forall chat :: StreakAt(chat) == StreakOf(log, chat))
      && (forall chat :: SenderIs(log, chat, SenderAt(chat)))
    }
  }

  lemma TrackKeepsAgreement(x: Index, log: Log, e: Event)
    requires x.Agrees(log) && e.Track?
    ensures x.Tracking(e.chat, e.user, e.message, e.time, e.window).Agrees(log + [e])
  {
    var y := x.Tracking(e.chat, e.user, e.message, e.time, e.window);
    forall c, u ensures y.FloodAt(c, u) == WindowOf(log + [e], c, u) {
      WindowAfter(log, e, c, u);
    }
    forall c ensures y.StreakAt(c) == StreakOf(log + [e], c) && SenderIs(log + [e], c, y.SenderAt(c)) {
      StreakAfter(log, e, c, x.SenderAt(c));
      SenderAfter(log, e, c, x.SenderAt(c));
    }
  }

  lemma ClearKeepsAgreement(x: Index, log: Log, e: Event)
    requires x.Agrees(log) && e.Clear?
    ensures x.Cleared(e.chat, e.user).Agrees(log + [e])
  {
    var y := x.Cleared(e.chat, e.user);
    forall c, u ensures y.FloodAt(c, u) == WindowOf(log + [e], c, u) {
      WindowAfter(log, e, c, u);
    }
    forall c ensures y.StreakAt(c) == StreakOf(log + [e], c) && SenderIs(log + [e], c, y.SenderAt(c)) {
      StreakAfter(log, e, c, x.SenderAt(c));
      SenderAfter(log, e, c, x.SenderAt(c));
      if y.StreakAt(c) == [] {
        NoStreakNoSender(log + [e], c);
      }
    }
  }

  lemma NoStreakNoSender(log: Log, chat: Chat)
    ensures StreakOf(log, chat) == [] ==> forall user :: SenderIs(log, chat, user)
  {
    StreakEmpty(log, |log|, chat);
  }

  lemma AgreesAt(x: Index, log: Log, chat: Chat, user: int)
    requires x.Agrees(log)
    ensures x.FloodAt(chat, user) == WindowOf(log, chat, user)
    ensures x.StreakAt(chat) == StreakOf(log, chat)
  {
  }

  // MemoryState
  class FloodIndex {
    var index: Index
    ghost var log: Log

    ghost predicate Valid()
      reads this
    {
      index.Agrees(log)
    }

    constructor ()
      ensures Valid() && log == []
    {
      index := Index(map[], map[], map[]);
      log := [];
    }

    method TrackFlood(chat: Chat, user: int, message: int, now: int, window: int) returns (r: Tracked)
      requires Valid()
      modifies this
      ensures Valid() && log == old(log) + [Track(chat, user, message, now, window)]
      ensures index == old(index).Tracking(chat, user, message, now, window)
      ensures r == Tracked(StreakOf(log, chat), MessageIds(WindowOf(log, chat, user)))
    {
      hide Index.Agrees;
      var entries := index.FloodAt(chat, user);
      var kept: seq<Timed> := [];
      for k := 0 to |entries|
        modifies {}
        invariant kept == Kept(entries[..k], now, window)
      {
        KeptAppend(entries[..k], entries[k], now, window);
        assert entries[..k + 1] == entries[..k] + [entries[k]];
        if now - entries[k].seenAt <= window {
          kept := kept + [entries[k]];
        }
      }
      assert entries[..|entries|] == entries;
      kept := kept + [Timed(message, now)];
      TrackKeepsAgreement(index, log, Track(chat, user, message, now, window));
      if index.SenderAt(chat) == user {
        index := index.(flood := index.flood[(chat, user) := kept],
                        streakMessage := index.streakMessage[chat := index.StreakAt(chat) + [message]]);
      } else {
        index := index.(flood := index.flood[(chat, user) := kept],
                        streakUser := index.streakUser[chat := user],
                        streakMessage := index.streakMessage[chat := [message]]);
      }
      log := log + [Track(chat, user, message, now, window)];
      r := Tracked(index.StreakAt(chat), MessageIds(kept));
      AgreesAt(index, log, chat, user);
    }

    method ClearFlood(chat: Chat, user: int)
      requires Valid()
      modifies this
      ensures Valid() && log == old(log) + [Clear(chat, user)]
      ensures index == old(index).Cleared(chat, user)
    {
      ClearKeepsAgreement(index, log, Clear(chat, user));
      var same := index.SenderAt(chat) == user;
      index := index.(flood := index.flood - {(chat, user)});
      if same {
        index := index.(streakUser := index.streakUser - {chat}, streakMessage := index.streakMessage - {chat});
      }
      log := log + [Clear(chat, user)];
    }
  }

  // ---------- One window, a clock that does not run backwards ----------

  ghost predicate Steady(log: Log, chat: Chat, user: int, window: int) {
    && (forall i :: 0 <= i < |log| && log[i].Track? && Own(log[i], chat, user) ==> log[i].window == window)
    && (forall i, j :: 0 <= i < j < |log| && log[i].Track? && log[j].Track? ==> log[i].time <= log[j].time)
  }

  // Right after a message, the messages that count are exactly the sender's messages since
  // the last reset that are not older than the window.
  lemma WindowIsRecent(log: Log, i: nat, chat: Chat, user: int, window: int)
    requires i < |log| && Steady(log, chat, user, window) && window >= 0
    requires log[|log| - 1].Track? && Own(log[|log| - 1], chat, user)
    ensures InWindow(log, i, chat, user) <==>
      && log[i].Track? && Own(log[i], chat, user)
      && (forall j :: i < j < |log| ==> log[j] != Clear(chat, user))
      && log[|log| - 1].time - log[i].time <= window
  {
    var now := log[|log| - 1].time;
    if log[i].Track? && Own(log[i], chat, user) && now - log[i].time <= window
       && (forall j :: i < j < |log| ==> log[j] != Clear(chat, user)) {
      forall j | i < j < |log| && Own(log[j], chat, user)
        ensures log[j].Track? && log[j].time - log[i].time <= log[j].window
      {
        assert log[j] != Clear(chat, user);
        assert log[j].time <= now;
      }
    }
  }
}
