// The antiflood index as Redis keeps it: a sorted set of messages per user, scored in
// milliseconds, and a list per chat, both under keys that expire.
module FloodRedis {
  import opened Text
  import opened Sorting
  import opened Flood

  const MILLISECOND: int := 1_000_000
  const MINUTE: int := 60_000_000_000

  // UnixMilli
  function Milli(t: int): int {
    t / MILLISECOND
  }

  // One user's sorted set. Its key expires a window and a minute after the last message.
  datatype TimedKey = TimedKey(members: set<Timed>, trackedAt: int, window: int) {
    function ExpiresAt(): int {
      trackedAt + window + MINUTE
    }
  }

  // One chat's last sender and list of messages, written together and expiring together.
  datatype StreakKey = StreakKey(user: int, ids: seq<int>, expiresAt: int)

  function StreakTTL(window: int): int {
    if window < 30 * MINUTE then 30 * MINUTE else window
  }

  // The longer of the window and half an hour.
  lemma StreakTTLMeans(window: int)
    ensures StreakTTL(window) >= window && StreakTTL(window) >= 1_800_000_000_000
    ensures StreakTTL(window) == window || StreakTTL(window) == 1_800_000_000_000
  {
  }

  // ZADD, ZREMRANGEBYSCORE 0 cutoff and EXPIRE in one transaction. `expiring` is false for a
  // Redis that never drops keys.
  function TrackTimed(key: Option<TimedKey>, message: int, now: int, window: int, expiring: bool): TimedKey {
    var live := if key.None? || (expiring && now >= key.value.ExpiresAt()) then {} else key.value.members;
    var cutoff := Milli(now - window);
    TimedKey((set t | t in live + {Timed(message, now)} && !(0 <= Milli(t.seenAt) <= cutoff)), now, window)
  }

  function TrackStreak(key: Option<StreakKey>, user: int, message: int, now: int, window: int): StreakKey {
    var continues := key.Some? && now < key.value.expiresAt && key.value.user == user;
    StreakKey(user, if continues then key.value.ids + [message] else [message], now + StreakTTL(window))
  }

  datatype Keys = Keys(timed: map<(Chat, int), TimedKey>, streak: map<Chat, StreakKey>) {
    function TimedAt(chat: Chat, user: int): Option<TimedKey> {
      if (chat, user) in timed then Some(timed[(chat, user)]) else None
    }

    function StreakAt(chat: Chat): Option<StreakKey> {
      if chat in streak then Some(streak[chat]) else None
    }

    function After(e: Event): Keys {
      match e
      case Track(chat, user, message, now, window) =>
        Keys(timed[(chat, user) := TrackTimed(TimedAt(chat, user), message, now, window, true)],
             streak[chat := TrackStreak(StreakAt(chat), user, message, now, window)])
      case Clear(chat, user) =>
        Keys(timed - {(chat, user)},
             if chat in streak && streak[chat].user == user then streak - {chat} else streak)
    }
  }

  // ---------- The order of a sorted set ----------

  // The text kept for a message: its id and the clock reading.
  function Name(t: Timed): string {
    FormatInt(t.message) + ":" + FormatInt(t.seenAt)
  }

  // By score, and by the bytes of the text at one score.
  predicate RankedBefore(a: Timed, b: Timed) {
    Milli(a.seenAt) < Milli(b.seenAt) || (Milli(a.seenAt) == Milli(b.seenAt) && Leq(Name(a), Name(b)))
  }

  lemma RankTotal(a: Timed, b: Timed)
    ensures RankedBefore(a, b) || RankedBefore(b, a)
  {
    LeqTotal(Name(a), Name(b));
  }

  lemma RankTransitive(a: Timed, b: Timed, c: Timed)
    requires RankedBefore(a, b) && RankedBefore(b, c)
    ensures RankedBefore(a, c)
  {
    if Milli(a.seenAt) == Milli(b.seenAt) == Milli(c.seenAt) {
      LeqTransitive(Name(a), Name(b), Name(c));
    }
  }

  // Each member once, in the order of the sorted set.
  ghost predicate InRankOrder(sorted: seq<Timed>, members: set<Timed>) {
    && |sorted| == |members|
    && (forall t :: t in sorted <==> t in members)
    && forall i, j :: 0 <= i < j < |sorted| ==> RankedBefore(sorted[i], sorted[j])
  }

  // ZRANGE 0 -1
  method SortMembers(members: set<Timed>) returns (sorted: seq<Timed>)
    ensures InRankOrder(sorted, members)
  {
    hide RankedBefore;
    var left := members;
    sorted := [];
    while left != {}
      invariant left <= members && |sorted| + |left| == |members|
      invariant forall t :: t in members <==> t in sorted || t in left
      invariant forall i, j :: 0 <= i < j < |sorted| ==> RankedBefore(sorted[i], sorted[j])
      invariant forall t, k :: t in left && 0 <= k < |sorted| ==> RankedBefore(sorted[k], t)
      decreases |left|
    {
      var first := FirstMember(left);
      sorted := sorted + [first];
      left := left - {first};
    }
  }

  method FirstMember(members: set<Timed>) returns (first: Timed)
    requires members != {}
    ensures first in members && forall t :: t in members && t != first ==> RankedBefore(first, t)
  {
    hide RankedBefore;
    first :| first in members;
    var left := members - {first};
    while left != {}
      invariant left <= members && first in members && first !in left
      invariant forall t :: t in members && t !in left && t != first ==> RankedBefore(first, t)
      decreases |left|
    {
      var t :| t in left;
      left := left - {t};
      RankTotal(first, t);
      if !RankedBefore(first, t) {
        forall u | u in members && u !in left && u != t ensures RankedBefore(t, u) {
          if u != first {
            RankTransitive(t, first, u);
          }
        }
        first := t;
      }
    }
  }

  class RedisStore {
    var keys: Keys

    constructor ()
      ensures keys == Keys(map[], map[])
    {
      keys := Keys(map[], map[]);
    }

    // The transaction on the sorted set, then the read of the last sender and the
    // transaction on the list, here without another caller in between.
    method TrackFlood(chat: Chat, user: int, message: int, now: int, window: int)
      returns (streakIds: seq<int>, timed: seq<Timed>)
      modifies this
      ensures keys == old(keys).After(Track(chat, user, message, now, window))
      ensures streakIds == keys.streak[chat].ids
      ensures InRankOrder(timed, keys.timed[(chat, user)].members)
      ensures forall i, j :: 0 <= i < j < |timed| ==> timed[i].seenAt / 1_000_000 <= timed[j].seenAt / 1_000_000
    {
      keys := keys.(timed := keys.timed[(chat, user) := TrackTimed(keys.TimedAt(chat, user), message, now, window, true)]);
      timed := SortMembers(keys.timed[(chat, user)].members);
      var lastSender := if chat in keys.streak && now < keys.streak[chat].expiresAt then Some(keys.streak[chat].user) else None;
      if lastSender == Some(user) {
        streakIds := keys.streak[chat].ids + [message];
      } else {
        streakIds := [message];
      }
      keys := keys.(streak := keys.streak[chat := StreakKey(user, streakIds, now + StreakTTL(window))]);
    }

    method ClearFlood(chat: Chat, user: int)
      modifies this
      ensures keys == old(keys).After(Clear(chat, user))
    {
      var own := chat in keys.streak && keys.streak[chat].user == user;
      keys := keys.(timed := keys.timed - {(chat, user)});
      if own {
        keys := keys.(streak := keys.streak - {chat});
      }
    }
  }

  // ---------- Expiry of the sorted set ----------

  // No member is younger than the last message.
  ghost predicate KeyOk(key: TimedKey) {
    key.window >= 0 && forall t :: t in key.members ==> 0 <= t.seenAt <= key.trackedAt
  }

  lemma MilliMonotone(s: int, t: int)
    requires s <= t
    ensures Milli(s) <= Milli(t)
  {
  }

  lemma MilliReflects(s: int, t: int)
    requires Milli(s) > Milli(t)
    ensures s > t
  {
  }

  lemma MilliShift(t: int, k: int)
    ensures Milli(t + k * MILLISECOND) == Milli(t) + k
  {
  }

  // For whole-millisecond windows: the expiry of a key goes unnoticed at the next message,
  // whenever that comes, if and only if the new window is at most a minute longer than the
  // old one.
  lemma ExpiryUnnoticedIff(key: TimedKey, message: int, windowMs: nat, oldWindowMs: nat)
    requires KeyOk(key) && key.window == oldWindowMs * MILLISECOND
    requires exists t :: t in key.members && t.seenAt == key.trackedAt
    ensures
      var window := windowMs * MILLISECOND;
      (forall now :: now >= key.trackedAt ==>
         TrackTimed(Some(key), message, now, window, true) == TrackTimed(Some(key), message, now, window, false))
      <==> window <= key.window + MINUTE
  {
    var window := windowMs * MILLISECOND;
    if window <= key.window + MINUTE {
      forall now | now >= key.trackedAt
        ensures TrackTimed(Some(key), message, now, window, true) == TrackTimed(Some(key), message, now, window, false)
      {
        ExpiredAreOld(key, message, now, window);
      }
    } else {
      var t :| t in key.members && t.seenAt == key.trackedAt;
      var now := key.ExpiresAt();
      MilliShift(t.seenAt, oldWindowMs + 60_000 - windowMs);
      assert now - window == t.seenAt + (oldWindowMs + 60_000 - windowMs) * MILLISECOND;
      var kept := TrackTimed(Some(key), message, now, window, false).members;
      var dropped := TrackTimed(Some(key), message, now, window, true).members;
      assert t in kept && t !in dropped;
    }
  }

  lemma ExpiredAreOld(key: TimedKey, message: int, now: int, window: int)
    requires KeyOk(key) && window <= key.window + MINUTE
    ensures TrackTimed(Some(key), message, now, window, true) == TrackTimed(Some(key), message, now, window, false)
  {
    if now >= key.ExpiresAt() {
      forall t | t in key.members ensures 0 <= Milli(t.seenAt) <= Milli(now - window) {
        MilliMonotone(t.seenAt, now - window);
        MilliMonotone(0, t.seenAt);
      }
      var cutoff := Milli(now - window);
      assert (set t | t in {} + {Timed(message, now)} && !(0 <= Milli(t.seenAt) <= cutoff))
          == (set t | t in key.members + {Timed(message, now)} && !(0 <= Milli(t.seenAt) <= cutoff));
    }
  }

  // One user's sorted set after a log.
  function TimedAfter(log: Log, chat: Chat, user: int, expiring: bool): Option<TimedKey> {
    if log == [] then None
    else
      var before, e := TimedAfter(log[..|log| - 1], chat, user, expiring), log[|log| - 1];
      if !Own(e, chat, user) then before
      else if e.Clear? then None
      else Some(TrackTimed(before, e.message, e.time, e.window, expiring))
  }

  // Message i of this user, and none of his events after it up to event j.
  ghost predicate LastOwn(log: Log, i: int, j: int, chat: Chat, user: int)
    requires 0 <= i < j <= |log|
  {
    log[i].Track? && Own(log[i], chat, user) && forall k :: i < k < j ==> !Own(log[k], chat, user)
  }

  // Each message comes no earlier than the one before it, and its window is at most a minute
  // longer; a reset in between frees it.
  ghost predicate Orderly(log: Log, chat: Chat, user: int) {
    && (forall i :: 0 <= i < |log| && log[i].Track? && Own(log[i], chat, user) ==> log[i].time >= 0 && log[i].window >= 0)
    && (forall i, j :: 0 <= i < j < |log| && LastOwn(log, i, j, chat, user) && log[j].Track? && Own(log[j], chat, user) ==>
          log[i].time <= log[j].time && log[j].window <= log[i].window + MINUTE)
  }

  ghost predicate LastTrack(log: Log, chat: Chat, user: int, key: TimedKey) {
    exists i :: 0 <= i < |log| && LastOwn(log, i, |log|, chat, user)
      && key.trackedAt == log[i].time && key.window == log[i].window
  }

  // Over every such run, a Redis that expires the key and one that never does hold the same
  // members after every message.
  lemma {:induction false} ExpiryUnnoticed(log: Log, chat: Chat, user: int)
    requires Orderly(log, chat, user)
    ensures TimedAfter(log, chat, user, true) == TimedAfter(log, chat, user, false)
    ensures var key := TimedAfter(log, chat, user, true);
      key.Some? ==> KeyOk(key.value) && LastTrack(log, chat, user, key.value)
  {
    if log != [] {
      var n, e := |log| - 1, log[|log| - 1];
      var front := log[..n];
      assert forall i :: 0 <= i < n ==> front[i] == log[i];
      assert forall i, j :: 0 <= i < j <= n ==> (LastOwn(front, i, j, chat, user) <==> LastOwn(log, i, j, chat, user));
      ExpiryUnnoticed(front, chat, user);
      var before := TimedAfter(front, chat, user, true);
      if !Own(e, chat, user) {
        if before.Some? {
          var i :| 0 <= i < n && LastOwn(front, i, n, chat, user)
            && before.value.trackedAt == log[i].time && before.value.window == log[i].window;
          assert LastOwn(log, i, n + 1, chat, user);
        }
      } else if e.Track? {
        if before.Some? {
          var i :| 0 <= i < n && LastOwn(front, i, n, chat, user)
            && before.value.trackedAt == log[i].time && before.value.window == log[i].window;
          assert LastOwn(log, i, n, chat, user);
          ExpiredAreOld(before.value, e.message, e.time, e.window);
        }
        assert LastOwn(log, n, n + 1, chat, user);
      }
    }
  }

  // ---------- Redis and the in-memory index ----------

  // Message i is in the sorted set: no reset since, and the cutoffs of its sender's messages
  // from its own on have not reached it.
  predicate InRedis(log: Log, i: nat, chat: Chat, user: int)
    requires i < |log|
  {
    && log[i].Track? && Own(log[i], chat, user)
    && forall j :: i <= j < |log| && Own(log[j], chat, user) ==>
         log[j].Track? && Milli(log[i].time) > Milli(log[j].time - log[j].window)
  }

  lemma InRedisAfter(log: Log, e: Event, i: nat, chat: Chat, user: int)
    requires i < |log|
    ensures InRedis(log + [e], i, chat, user) <==>
      (InRedis(log, i, chat, user) && (Own(e, chat, user) ==> e.Track? && Milli(log[i].time) > Milli(e.time - e.window)))
  {
    hide Milli;
    var more := log + [e];
    assert more[|log|] == e && forall j :: 0 <= j < |log| ==> more[j] == log[j];
  }

  ghost predicate Listed(log: Log, i: nat, chat: Chat, user: int, t: Timed) {
    i < |log| && InRedis(log, i, chat, user) && t == Timed(log[i].message, log[i].time)
  }

  lemma ListedAfter(log: Log, e: Event, chat: Chat, user: int, t: Timed)
    requires t.seenAt >= 0
    ensures (exists i :: Listed(log + [e], i, chat, user, t)) <==>
      if !Own(e, chat, user) then exists i :: Listed(log, i, chat, user, t)
      else
        && e.Track? && !(0 <= Milli(t.seenAt) <= Milli(e.time - e.window))
        && ((exists i :: Listed(log, i, chat, user, t)) || t == Timed(e.message, e.time))
  {
    MilliMonotone(0, t.seenAt);
    hide Milli;
    var more := log + [e];
    assert more[|log|] == e && forall j :: 0 <= j < |log| ==> more[j] == log[j];
    forall i | 0 <= i < |log|
      ensures Listed(more, i, chat, user, t) <==>
        (Listed(log, i, chat, user, t) && (Own(e, chat, user) ==> e.Track? && Milli(t.seenAt) > Milli(e.time - e.window)))
    {
      InRedisAfter(log, e, i, chat, user);
    }
    assert Listed(more, |log|, chat, user, t) <==>
      (Own(e, chat, user) && e.Track? && t == Timed(e.message, e.time) && Milli(t.seenAt) > Milli(e.time - e.window));
  }

  // The members are the messages in the set, nothing else.
  lemma {:induction false} RedisMembers(log: Log, chat: Chat, user: int, t: Timed)
    requires t.seenAt >= 0
    ensures
      var key := TimedAfter(log, chat, user, false);
      (key.Some? && t in key.value.members) <==> exists i :: Listed(log, i, chat, user, t)
  {
    if log != [] {
      var front, e := log[..|log| - 1], log[|log| - 1];
      assert log == front + [e];
      RedisMembers(front, chat, user, t);
      ListedAfter(front, e, chat, user, t);
      hide Milli, Listed;
    }
  }

  // Redis never counts a message the memory index has dropped.
  lemma RedisWithinMemory(log: Log, i: nat, chat: Chat, user: int)
    requires i < |log| && InRedis(log, i, chat, user)
    ensures InWindow(log, i, chat, user)
  {
    forall j | i < j < |log| && Own(log[j], chat, user)
      ensures log[j].Track? && log[j].time - log[i].time <= log[j].window
    {
      assert log[j].Track?;
      MilliReflects(log[i].time, log[j].time - log[j].window);
    }
  }

  // With one window, a message only the memory index counts is exactly one window old, to
  // the millisecond.
  lemma MemoryKeepsOneWindowOld(log: Log, i: nat, chat: Chat, user: int, window: int)
    requires i < |log| && Steady(log, chat, user, window) && window >= 0
    requires log[|log| - 1].Track? && Own(log[|log| - 1], chat, user)
    requires InWindow(log, i, chat, user) && !InRedis(log, i, chat, user)
    ensures Milli(log[i].time) == Milli(log[|log| - 1].time - window)
  {
    var now := log[|log| - 1].time;
    WindowIsRecent(log, i, chat, user, window);
    var j :| i <= j < |log| && Own(log[j], chat, user) && !(log[j].Track? && Milli(log[i].time) > Milli(log[j].time - log[j].window));
    assert log[j].time <= now;
    MilliMonotone(log[j].time - window, now - window);
    MilliMonotone(now - window, log[i].time);
  }

  // ---------- The streak ----------

  function StreakKeyAfter(log: Log, chat: Chat): Option<StreakKey> {
    if log == [] then None
    else
      var before, e := StreakKeyAfter(log[..|log| - 1], chat), log[|log| - 1];
      if e.chat != chat then before
      else if e.Track? then Some(TrackStreak(before, e.user, e.message, e.time, e.window))
      else if before.Some? && before.value.user == e.user then None
      else before
  }

  function RedisStreak(log: Log, chat: Chat): seq<int> {
    var key := StreakKeyAfter(log, chat);
    if key.Some? then key.value.ids else []
  }

  // What Redis calls the current run is always the end of the real one.
  lemma {:induction false} RedisStreakIsSuffix(log: Log, chat: Chat)
    ensures HasSuffixOf(StreakOf(log, chat), RedisStreak(log, chat))
    ensures StreakKeyAfter(log, chat).Some? ==> SenderIs(log, chat, StreakKeyAfter(log, chat).value.user)
    ensures StreakKeyAfter(log, chat).None? ==> StreakOf(log, chat) == []
  {
    if log != [] {
      var front, e := log[..|log| - 1], log[|log| - 1];
      assert log == front + [e];
      RedisStreakIsSuffix(front, chat);
      var before := StreakKeyAfter(front, chat);
      if before.None? {
        NoStreakNoSender(front, chat);
      }
      var sender := if before.Some? then before.value.user else e.user;
      StreakAfter(front, e, chat, sender);
      SenderAfter(front, e, chat, sender);
      hide StreakOf, SenderIs;
      var run, short := StreakOf(front, chat), RedisStreak(front, chat);
      assert e.chat == chat && e.Track? ==> (run + [e.message])[|run| - |short|..] == short + [e.message];
    }
  }

  predicate HasSuffixOf(ids: seq<int>, suffix: seq<int>) {
    |suffix| <= |ids| && ids[|ids| - |suffix|..] == suffix
  }

  // Message i was the last one of the chat, and its run goes on.
  predicate LastOfStreak(log: Log, i: nat, chat: Chat)
    requires i < |log|
  {
    InStreak(log, i, chat) && forall j :: i < j < |log| && log[j].chat == chat ==> log[j].Clear?
  }

  // Messages i and j follow each other in the current run.
  predicate Successive(log: Log, i: nat, j: nat, chat: Chat)
    requires i < j < |log|
  {
    && InStreak(log, i, chat) && InStreak(log, j, chat)
    && forall k :: i < k < j && log[k].chat == chat ==> log[k].Clear?
  }

  // The key of one message of the current run was still there at the next.
  ghost predicate KeptAlive(log: Log, chat: Chat) {
    forall i, j :: 0 <= i < j < |log| && Successive(log, i, j, chat) ==> log[j].time < log[i].time + StreakTTL(log[i].window)
  }

  ghost predicate KeyOfLast(log: Log, chat: Chat, key: StreakKey) {
    exists i :: 0 <= i < |log| && LastOfStreak(log, i, chat)
      && key.user == log[i].user && key.expiresAt == log[i].time + StreakTTL(log[i].window)
  }

  lemma InStreakAfter(log: Log, e: Event, i: nat, chat: Chat)
    requires i < |log|
    ensures InStreak(log + [e], i, chat) <==>
      InStreak(log, i, chat) && (e.chat == chat ==> (e.Track? <==> e.user == log[i].user))
  {
    var more := log + [e];
    assert more[|log|] == e && forall j :: 0 <= j < |log| ==> more[j] == log[j];
  }

  // The key in the list's place always belongs to the last message of the current run.
  lemma {:induction false} KeyIsOfLast(log: Log, chat: Chat)
    ensures StreakKeyAfter(log, chat).Some? ==> KeyOfLast(log, chat, StreakKeyAfter(log, chat).value)
  {
    if log != [] {
      var front, e := log[..|log| - 1], log[|log| - 1];
      assert log == front + [e];
      KeyIsOfLast(front, chat);
      var before := StreakKeyAfter(front, chat);
      if e.Track? && e.chat == chat {
        assert LastOfStreak(log, |front|, chat);
      } else if StreakKeyAfter(log, chat).Some? {
        var i :| 0 <= i < |front| && LastOfStreak(front, i, chat)
          && before.value.user == front[i].user && before.value.expiresAt == front[i].time + StreakTTL(front[i].window);
        InStreakAfter(front, e, i, chat);
        hide InStreak;
        assert LastOfStreak(log, i, chat);
      }
    }
  }

  // One more message of the same run: alive iff it was before and the key was still there.
  lemma KeptAliveAfter(log: Log, e: Event, chat: Chat, key: StreakKey)
    requires e.Track? && e.chat == chat && KeyOfLast(log, chat, key) && key.user == e.user && SenderIs(log, chat, e.user)
    ensures KeptAlive(log + [e], chat) <==> KeptAlive(log, chat) && e.time < key.expiresAt
  {
    var more, n := log + [e], |log|;
    var last :| 0 <= last < n && LastOfStreak(log, last, chat) && key.expiresAt == log[last].time + StreakTTL(log[last].window);
    forall i | 0 <= i < n ensures InStreak(more, i, chat) <==> InStreak(log, i, chat) {
      InStreakAfter(log, e, i, chat);
    }
    assert InStreak(more, n, chat);
    hide InStreak;
    forall i, j | 0 <= i < j < n ensures Successive(more, i, j, chat) <==> Successive(log, i, j, chat) {
      assert forall k :: i < k < j ==> more[k] == log[k];
    }
    forall i | 0 <= i < n ensures Successive(more, i, n, chat) <==> i == last {
      assert forall k :: 0 <= k < n ==> more[k] == log[k];
      InStreakTracks(log, i, chat);
      InStreakTracks(log, last, chat);
    }
    hide Successive;
    if KeptAlive(more, chat) {
      assert Successive(more, last, n, chat);
      forall i, j | 0 <= i < j < n && Successive(log, i, j, chat) ensures log[j].time < log[i].time + StreakTTL(log[i].window) {
        assert Successive(more, i, j, chat) && more[i] == log[i] && more[j] == log[j];
      }
    }
  }

  lemma InStreakTracks(log: Log, i: nat, chat: Chat)
    requires i < |log|
    ensures InStreak(log, i, chat) ==> log[i].Track? && log[i].chat == chat
  {
  }

  // Events that do not continue the run leave at most one message in it, or all of them.
  lemma KeptAliveOtherwise(log: Log, e: Event, chat: Chat, user: int)
    requires SenderIs(log, chat, user)
    requires e.chat == chat && e.Track? ==> e.user != user || StreakOf(log, chat) == []
    ensures e.chat == chat && (e.Track? || e.user == user) ==> KeptAlive(log + [e], chat)
    ensures e.chat != chat || (e.Clear? && e.user != user) ==> (KeptAlive(log + [e], chat) <==> KeptAlive(log, chat))
  {
    var more, n := log + [e], |log|;
    StreakEmpty(log, n, chat);
    forall i | 0 <= i < n ensures InStreak(more, i, chat) <==>
      InStreak(log, i, chat) && (e.chat == chat ==> (e.Track? <==> e.user == log[i].user))
    {
      InStreakAfter(log, e, i, chat);
    }
    if e.chat != chat || (e.Clear? && e.user != user) {
      assert !InStreak(more, n, chat);
      hide InStreak, StreakOf;
      forall i, j | 0 <= i < j < n ensures Successive(more, i, j, chat) <==> Successive(log, i, j, chat) {
        assert forall k :: i < k < j ==> more[k] == log[k];
      }
      hide Successive, SenderIs;
      assert forall i :: 0 <= i < n ==> more[i] == log[i];
    }
  }

  // Redis' run is the real one if and only if no message of it came after the keys of the one
  // before had expired.
  lemma {:induction false} RedisStreakExactIff(log: Log, chat: Chat)
    ensures RedisStreak(log, chat) == StreakOf(log, chat) <==> KeptAlive(log, chat)
  {
    if log == [] {
    } else {
      var front, e := log[..|log| - 1], log[|log| - 1];
      assert log == front + [e];
      RedisStreakExactIff(front, chat);
      RedisStreakIsSuffix(front, chat);
      KeyIsOfLast(front, chat);
      var before := StreakKeyAfter(front, chat);
      if before.None? {
        NoStreakNoSender(front, chat);
      }
      var sender := if before.Some? then before.value.user else e.user;
      StreakAfter(front, e, chat, sender);
      if before.Some? && e.Track? && e.chat == chat && e.user == sender {
        KeyedStreak(front, chat, before.value);
        hide StreakOf, SenderIs, KeptAlive, KeyOfLast;
        KeptAliveAfter(front, e, chat, before.value);
        var run, short := StreakOf(front, chat), RedisStreak(front, chat);
        assert run != [];
        assert run + [e.message] == short + [e.message] <==> run == short by {
          assert (run + [e.message])[..|run|] == run;
          assert |run| == |short| ==> (short + [e.message])[..|run|] == short;
        }
        assert run + [e.message] != [e.message];
      } else {
        hide StreakOf, SenderIs, KeptAlive, KeyOfLast;
        KeptAliveOtherwise(front, e, chat, sender);
      }
    }
  }

  lemma KeyedStreak(log: Log, chat: Chat, key: StreakKey)
    requires KeyOfLast(log, chat, key)
    ensures StreakOf(log, chat) != []
  {
    StreakEmpty(log, |log|, chat);
  }

  // ---------- The store as a whole ----------

  function KeysAfter(log: Log): Keys {
    if log == [] then Keys(map[], map[]) else KeysAfter(log[..|log| - 1]).After(log[|log| - 1])
  }

  // Keys of different users and chats do not disturb each other.
  lemma {:induction false} KeysFollowTheLog(log: Log, chat: Chat, user: int)
    ensures KeysAfter(log).TimedAt(chat, user) == TimedAfter(log, chat, user, true)
    ensures KeysAfter(log).StreakAt(chat) == StreakKeyAfter(log, chat)
  {
    if log != [] {
      KeysFollowTheLog(log[..|log| - 1], chat, user);
    }
  }

  // What the store answers to a user's message, over every orderly run: members are messages
  // the in-memory index counts too.
  lemma RedisAnswersWithinMemory(log: Log, chat: Chat, user: int, t: Timed)
    requires Orderly(log, chat, user)
    requires KeysAfter(log).TimedAt(chat, user).Some? && t in KeysAfter(log).TimedAt(chat, user).value.members
    ensures exists i :: Listed(log, i, chat, user, t) && InWindow(log, i, chat, user)
  {
    KeysFollowTheLog(log, chat, user);
    ExpiryUnnoticed(log, chat, user);
    RedisMembers(log, chat, user, t);
    var i :| Listed(log, i, chat, user, t);
    RedisWithinMemory(log, i, chat, user);
  }
}
