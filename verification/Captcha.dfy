// The in-memory challenge store, the handlers that run on it and the keyboards they offer.
// Each handler is proved to do what the protocol's undisturbed handler does.
module Captcha {
  import opened Text
  import opened CaptchaProtocol

  ghost predicate Keyed(t: Table) {
    forall id :: id in t && t[id].status == Pending ==> t[id].id == id
  }

  // What a sweep is given: due challenges, each once, the longest overdue first, and all of
  // them unless there are more than the limit.
  ghost predicate Listing(t: Table, now: int, limit: nat, cs: seq<Challenge>) {
    && |cs| <= limit
    && (forall i :: 0 <= i < |cs| ==> cs[i].id in t && t[cs[i].id] == cs[i] && cs[i].status == Pending && cs[i].expiresAt <= now)
    && (forall i, j :: 0 <= i < j < |cs| ==> cs[i].id != cs[j].id && cs[i].expiresAt <= cs[j].expiresAt)
    && (forall id :: id in t && t[id].status == Pending && t[id].expiresAt <= now && t[id] !in cs ==>
          |cs| == limit && forall i :: 0 <= i < |cs| ==> cs[i].expiresAt <= t[id].expiresAt)
  }

  class ChallengeStore {
    var challenges: Table

    ghost predicate Valid()
      reads this
    {
      Keyed(challenges) && OnePending(challenges)
    }

    function RecordOf(id: string): Challenge
      reads this
    {
      if id in challenges then challenges[id] else ZERO
    }

    constructor ()
      ensures Valid() && challenges == map[]
    {
      challenges := map[];
    }

    method CreateCaptchaChallenge(c: Challenge)
      requires Valid()
      modifies this
      ensures Valid() && challenges == Created(old(challenges), c)
      ensures c.id in challenges && challenges[c.id] == c
      ensures forall id :: id != c.id ==>
        (id in challenges <==> id in old(challenges) && !(old(challenges)[id].status == Pending && old(challenges)[id].owner == c.owner))
      ensures forall id :: id in challenges && id != c.id ==> challenges[id] == old(challenges)[id]
    {
      CreatedKeepsOnePending(challenges, c);
      hide OnePending;
      DropPending(c.owner);
      challenges := challenges[c.id := c];
    }

    method DropPending(owner: Owner)
      modifies this
      ensures challenges == map id | id in old(challenges) && !PendingFor(old(challenges)[id], owner) :: old(challenges)[id]
    {
      ghost var before := challenges;
      var left := challenges.Keys;
      while left != {}
        invariant left <= before.Keys
        invariant forall id :: id in challenges ==> id in before && challenges[id] == before[id]
        invariant forall id :: id in before && id !in challenges ==> id !in left && PendingFor(before[id], owner)
        invariant forall id :: id in challenges && id !in left ==> !PendingFor(before[id], owner)
        decreases |left|
      {
        var id :| id in left;
        if PendingFor(challenges[id], owner) {
          challenges := challenges - {id};
        }
        left := left - {id};
      }
    }

    method MarkCaptchaRulesAccepted(id: string)
      requires Valid()
      modifies this
      ensures Valid() && challenges == RulesAccepted(Memory, old(challenges), id)
      ensures challenges == old(challenges)[id := old(RecordOf(id)).(rulesAccepted := true)]
    {
      var c := if id in challenges then challenges[id] else ZERO;
      challenges := challenges[id := c.(rulesAccepted := true)];
    }

    method MarkCaptchaSolved(id: string)
      requires Valid()
      modifies this
      ensures Valid() && challenges == MarkedSolved(Memory, old(challenges), id)
      ensures challenges == old(challenges)[id := old(RecordOf(id)).(status := Solved)]
    {
      var c := if id in challenges then challenges[id] else ZERO;
      challenges := challenges[id := c.(status := Solved)];
    }

    method MarkCaptchaExpired(id: string)
      requires Valid()
      modifies this
      ensures Valid() && challenges == MarkedExpired(Memory, old(challenges), id)
      ensures challenges == old(challenges)[id := old(RecordOf(id)).(status := Expired)]
    {
      var c := if id in challenges then challenges[id] else ZERO;
      challenges := challenges[id := c.(status := Expired)];
    }

    method Earliest(ids: set<string>) returns (first: string)
      requires ids != {} && ids <= challenges.Keys
      ensures first in ids && forall id :: id in ids ==> challenges[first].expiresAt <= challenges[id].expiresAt
    {
      first :| first in ids;
      var left := ids - {first};
      while left != {}
        invariant left <= ids && first in ids
        invariant forall id :: id in ids - left ==> challenges[first].expiresAt <= challenges[id].expiresAt
        decreases |left|
      {
        var id :| id in left;
        if challenges[id].expiresAt < challenges[first].expiresAt {
          first := id;
        }
        left := left - {id};
      }
    }

    // The challenges of these ids, the longest overdue first.
    method SortByExpiry(ids: set<string>) returns (result: seq<Challenge>)
      requires ids <= challenges.Keys && forall id :: id in ids ==> challenges[id].id == id
      ensures forall i :: 0 <= i < |result| ==> result[i].id in ids && challenges[result[i].id] == result[i]
      ensures forall id :: id in ids ==> challenges[id] in result
      ensures forall i, j :: 0 <= i < j < |result| ==> result[i].id != result[j].id && result[i].expiresAt <= result[j].expiresAt
    {
      var order := OrderByExpiry(ids);
      result := [];
      for k := 0 to |order|
        invariant |result| == k && forall i :: 0 <= i < k ==> order[i] in ids && result[i] == challenges[order[i]]
      {
        assert order[k] in order;
        result := result + [challenges[order[k]]];
      }
      forall id | id in ids ensures challenges[id] in result {
        var k :| 0 <= k < |order| && order[k] == id;
        assert result[k] == challenges[id];
      }
    }

    method OrderByExpiry(ids: set<string>) returns (order: seq<string>)
      requires ids <= challenges.Keys
      ensures forall id :: id in order <==> id in ids
      ensures forall i :: 0 <= i < |order| ==> order[i] in challenges
      ensures forall i, j :: 0 <= i < j < |order| ==> order[i] != order[j] && challenges[order[i]].expiresAt <= challenges[order[j]].expiresAt
    {
      var left := ids;
      order := [];
      while left != {}
        invariant left <= ids
        invariant forall id :: id in ids <==> id in left || id in order
        invariant forall i :: 0 <= i < |order| ==> order[i] !in left && order[i] in challenges
        invariant forall i, j :: 0 <= i < j < |order| ==> order[i] != order[j] && challenges[order[i]].expiresAt <= challenges[order[j]].expiresAt
        invariant forall i, id :: 0 <= i < |order| && id in left ==> challenges[order[i]].expiresAt <= challenges[id].expiresAt
        decreases |left|
      {
        var first := Earliest(left);
        order := order + [first];
        left := left - {first};
      }
    }

    method ListExpiredCaptchaChallenges(now: int, limit: nat) returns (result: seq<Challenge>)
      requires Valid()
      ensures Listing(challenges, now, limit, result)
    {
      hide OnePending;
      var due := set id | id in challenges && DueForSweep(challenges[id], now);
      result := SortByExpiry(due);
      if |result| > limit {
        ghost var all := result;
        result := result[..limit];
        forall id | id in due && challenges[id] !in result
          ensures forall i :: 0 <= i < |result| ==> result[i].expiresAt <= challenges[id].expiresAt
        {
          var j :| 0 <= j < |all| && all[j] == challenges[id];
          assert j >= limit;
        }
      }
    }
  }

  // ---------- Callbacks ----------

  // `telegramOk` is whether Telegram carries out the call a handler makes to it.
  method CompleteChallenge(store: ChallengeStore, c: Challenge, telegramOk: bool) returns (granted: bool)
    requires store.Valid()
    modifies store
    ensures store.Valid() && store.challenges == MarkedSolved(Memory, old(store.challenges), c.id)
    ensures granted == telegramOk
  {
    store.MarkCaptchaSolved(c.id);
    granted := telegramOk;
  }

  method FailChallenge(store: ChallengeStore, c: Challenge, telegramOk: bool)
    requires store.Valid()
    modifies store
    ensures store.Valid()
    ensures store.challenges == if telegramOk then MarkedExpired(Memory, old(store.challenges), c.id) else old(store.challenges)
  {
    if telegramOk {
      store.MarkCaptchaExpired(c.id);
    }
  }

  method HandleButton(store: ChallengeStore, c: Challenge, telegramOk: bool) returns (granted: bool)
    requires store.Valid()
    modifies store
    ensures store.Valid()
    ensures if c.mode == Button && (c.rulesRequired ==> c.rulesAccepted)
      then store.challenges == MarkedSolved(Memory, old(store.challenges), c.id) && granted == telegramOk
      else store.challenges == old(store.challenges) && !granted
  {
    if c.mode != Button || (c.rulesRequired && !c.rulesAccepted) {
      return false;
    }
    granted := CompleteChallenge(store, c, telegramOk);
  }

  method HandleRules(store: ChallengeStore, c: Challenge, telegramOk: bool) returns (granted: bool)
    requires store.Valid()
    modifies store
    ensures store.Valid() && granted == (c.mode == Button && telegramOk)
    ensures var accepted := if c.rulesRequired && !c.rulesAccepted then RulesAccepted(Memory, old(store.challenges), c.id) else old(store.challenges);
      store.challenges == if c.mode == Button then MarkedSolved(Memory, accepted, c.id) else accepted
  {
    if c.rulesRequired && !c.rulesAccepted {
      store.MarkCaptchaRulesAccepted(c.id);
    }
    granted := false;
    if c.mode == Button {
      granted := CompleteChallenge(store, c, telegramOk);
    }
  }

  method HandleAnswer(store: ChallengeStore, c: Challenge, answer: string, telegramOk: bool) returns (granted: bool)
    requires store.Valid()
    modifies store
    ensures store.Valid()
    ensures var heard := (c.rulesRequired ==> c.rulesAccepted) && !Blank(answer);
      if heard && answer == c.answer then
        store.challenges == MarkedSolved(Memory, old(store.challenges), c.id) && granted == telegramOk
      else if heard && telegramOk then
        store.challenges == MarkedExpired(Memory, old(store.challenges), c.id) && !granted
      else
        store.challenges == old(store.challenges) && !granted
  {
    granted := false;
    BlankIsTrimmedAway(answer);
    if c.rulesRequired && !c.rulesAccepted {
      return;
    }
    if TrimSpace(answer) == "" {
      return;
    }
    if answer != c.answer {
      FailChallenge(store, c, telegramOk);
    } else {
      granted := CompleteChallenge(store, c, telegramOk);
    }
  }

  lemma {:induction false} BlankIsTrimmedAway(s: string)
    ensures TrimSpace(s) == "" <==> Blank(s)
  {
    if s != "" && Blank(s) {
      TrimStartSkips(s, "");
      assert s + "" == s;
    } else if s != "" {
      var i :| 0 <= i < |s| && !IsSpace(s[i]);
      NonSpaceStays(s, s[i]);
    }
  }

  lemma {:induction false} NonSpaceStays(s: string, c: char)
    requires c in s && !IsSpace(c)
    ensures c in TrimStart(s) && c in TrimEnd(s) && TrimSpace(s) != ""
  {
    StartStays(s, c);
    EndStays(s, c);
    EndStays(TrimStart(s), c);
  }

  lemma {:induction false} StartStays(s: string, c: char)
    requires c in s && !IsSpace(c)
    ensures c in TrimStart(s)
  {
    if IsSpace(s[0]) {
      StartStays(s[1..], c);
    }
  }

  lemma {:induction false} EndStays(s: string, c: char)
    requires c in s && !IsSpace(c)
    ensures c in TrimEnd(s)
  {
    if IsSpace(s[|s| - 1]) {
      EndStays(s[..|s| - 1], c);
    }
  }

  // The table after a callback whose Telegram call fails.
  function PressedUnheard(t: Table, now: int, id: string, from: int, action: Action, answer: string): Table {
    if id in t && Answerable(t[id], from, now) && RouteOf(t[id], action, answer) == ToFail then t
    else Pressed(Memory, t, now, id, from, action, answer).0
  }

  lemma PressLeaves(t: Table, now: int, id: string, from: int, action: Action, answer: string, telegramOk: bool)
    requires Keyed(t)
    ensures telegramOk ==> CallbackLeaves(t, Pressed(Memory, t, now, id, from, action, answer).0,
                                          Pressed(Memory, t, now, id, from, action, answer).1, now, id, from, action, answer, true)
    ensures !telegramOk ==> CallbackLeaves(t, PressedUnheard(t, now, id, from, action, answer), false, now, id, from, action, answer, false)
  {
    BlankIsTrimmedAway(answer);
    hide TrimSpace, Blank;
  }

  // What a callback leaves, and whether it gives the permission. It is heard only from the
  // challenge's own user, while the challenge is pending and not overdue. A press completes a
  // button challenge; the rules of a challenge have to be accepted before anything completes
  // it, and accepting them completes a button challenge; the stored answer completes and any
  // other that is not blank fails. Failing takes effect only if Telegram carries out the ban.
  ghost predicate CallbackLeaves(t: Table, u: Table, granted: bool, now: int, id: string, from: int, action: Action, answer: string, telegramOk: bool) {
    if !(id in t && t[id].status == Pending && t[id].owner.userId == from && (now <= t[id].expiresAt || t[id].timeoutAction == NoAction)) then
      u == t && !granted
    else
      var c := t[id];
      var ready := !c.rulesRequired || c.rulesAccepted;
      var heard := action == GiveAnswer && ready && !Blank(answer);
      var completes := (c.mode == Button && (action == AcceptRules || (action == PressButton && ready))) || (heard && answer == c.answer);
      && u == t[id := c.(
           rulesAccepted := c.rulesAccepted || (action == AcceptRules && c.rulesRequired),
           status := if completes then Solved else if heard && answer != c.answer && telegramOk then Expired else Pending)]
      && granted == (completes && telegramOk)
  }

  // A callback does what the protocol's undisturbed handler does. When Telegram refuses, the
  // permission is not given and a wrong answer leaves the challenge pending; a right one has
  // already been marked.
  method HandleCallback(store: ChallengeStore, now: int, id: string, from: int, action: Action, answer: string, telegramOk: bool)
    returns (granted: bool)
    requires store.Valid()
    modifies store
    ensures store.Valid()
    ensures telegramOk ==> (store.challenges, granted) == Pressed(Memory, old(store.challenges), now, id, from, action, answer)
    ensures !telegramOk ==> !granted && store.challenges == PressedUnheard(old(store.challenges), now, id, from, action, answer)
    ensures CallbackLeaves(old(store.challenges), store.challenges, granted, now, id, from, action, answer, telegramOk)
  {
    hide Pressed, PressedUnheard, CallbackLeaves, OnePending;
    PressLeaves(store.challenges, now, id, from, action, answer, telegramOk);
    granted := CheckAndHandle(store, now, id, from, action, answer, telegramOk);
  }

  // Its checks, and the handler they lead to.
  method CheckAndHandle(store: ChallengeStore, now: int, id: string, from: int, action: Action, answer: string, telegramOk: bool)
    returns (granted: bool)
    requires store.Valid()
    modifies store
    ensures store.Valid()
    ensures telegramOk ==> (store.challenges, granted) == Pressed(Memory, old(store.challenges), now, id, from, action, answer)
    ensures !telegramOk ==> !granted && store.challenges == PressedUnheard(old(store.challenges), now, id, from, action, answer)
  {
    BlankIsTrimmedAway(answer);
    hide TrimSpace, Blank, Marked, OnePending;
    granted := false;
    if id !in store.challenges {
      return;
    }
    var c := store.challenges[id];
    if c.status != Pending || c.owner.userId != from || (now > c.expiresAt && c.timeoutAction != NoAction) {
      return;
    }
    match action
    case PressButton => granted := HandleButton(store, c, telegramOk);
    case AcceptRules => granted := HandleRules(store, c, telegramOk);
    case GiveAnswer => granted := HandleAnswer(store, c, answer, telegramOk);
  }

  // ---------- The sweep ----------

  // The challenges of a sweep one after the other, and the ids given their permission.
  function SweepAll(t: Table, now: int, cs: seq<Challenge>, reachable: set<string>): (Table, seq<string>) {
    if cs == [] then (t, [])
    else
      var (u, given) := SweepAll(t, now, cs[..|cs| - 1], reachable);
      var id := cs[|cs| - 1].id;
      var (v, give) := Swept(Memory, u, now, id, id in reachable);
      (v, if give then given + [id] else given)
  }

  // `reachable` are the challenges whose bot loads and whose chat accepts the sweep's calls.
  method SweepExpired(store: ChallengeStore, now: int, reachable: set<string>) returns (listed: seq<Challenge>, unmuted: seq<string>)
    requires store.Valid()
    modifies store
    ensures store.Valid() && Listing(old(store.challenges), now, 100, listed)
    ensures (store.challenges, unmuted) == SweepAll(old(store.challenges), now, listed, reachable)
    ensures store.challenges.Keys == old(store.challenges).Keys
    ensures forall id :: id in store.challenges && id in Ids(listed) && id in reachable ==>
      store.challenges[id] == old(store.challenges)[id].(status := Expired)
    ensures forall id :: id in store.challenges && !(id in Ids(listed) && id in reachable) ==>
      store.challenges[id] == old(store.challenges)[id]
    ensures forall id :: id in unmuted <==>
      id in old(store.challenges) && id in Ids(listed) && id in reachable && old(store.challenges)[id].timeoutAction == Unmute
  {
    listed := store.ListExpiredCaptchaChallenges(now, 100);
    unmuted := [];
    for i := 0 to |listed|
      invariant store.Valid()
      invariant (store.challenges, unmuted) == SweepAll(old(store.challenges), now, listed[..i], reachable)
    {
      var c := listed[i];
      SweepNext(old(store.challenges), now, listed, i, reachable);
      hide SweepAll, Listing, OnePending, Marked;
      if c.id in reachable {
        if c.timeoutAction == Unmute {
          unmuted := unmuted + [c.id];
        }
        store.MarkCaptchaExpired(c.id);
      }
    }
    assert listed[..|listed|] == listed;
    hide Marked, SweepAll, Ids;
    SweepAllEffect(old(store.challenges), now, listed, reachable);
  }

  lemma SweepNext(t: Table, now: int, listed: seq<Challenge>, i: nat, reachable: set<string>)
    requires i < |listed| && Listing(t, now, 100, listed)
    ensures var (u, given) := SweepAll(t, now, listed[..i], reachable);
      var c := listed[i];
      SweepAll(t, now, listed[..i + 1], reachable) ==
        if c.id in reachable then (MarkedExpired(Memory, u, c.id), if c.timeoutAction == Unmute then given + [c.id] else given) else (u, given)
  {
    assert listed[..i + 1][..i] == listed[..i] && listed[i].id !in Ids(listed[..i]);
    hide Marked, SweepAll, Ids;
    SweepAllEffect(t, now, listed[..i], reachable);
    hide Listing, Swept;
    SweepOneMore(t, now, listed[..i + 1], reachable);
  }

  lemma SweepOneMore(t: Table, now: int, cs: seq<Challenge>, reachable: set<string>)
    requires cs != [] && SweepAll(t, now, cs[..|cs| - 1], reachable).0.Keys == t.Keys
    requires cs[|cs| - 1].id in t && DueForSweep(SweepAll(t, now, cs[..|cs| - 1], reachable).0[cs[|cs| - 1].id], now)
    ensures var (u, given) := SweepAll(t, now, cs[..|cs| - 1], reachable);
      var id := cs[|cs| - 1].id;
      SweepAll(t, now, cs, reachable) ==
        if id in reachable then (MarkedExpired(Memory, u, id), if u[id].timeoutAction == Unmute then given + [id] else given) else (u, given)
  {
  }

  function Ids(cs: seq<Challenge>): seq<string> {
    seq(|cs|, i requires 0 <= i < |cs| => cs[i].id)
  }

  // A sweep expires exactly the challenges it was given and could reach, and gives the
  // permission, once each, to exactly those of them whose action is unmute.
  lemma {:induction false} SweepAllEffect(t: Table, now: int, cs: seq<Challenge>, reachable: set<string>)
    requires forall i :: 0 <= i < |cs| ==> cs[i].id in t && t[cs[i].id] == cs[i] && DueForSweep(cs[i], now)
    requires forall i, j :: 0 <= i < j < |cs| ==> cs[i].id != cs[j].id
    ensures var (u, given) := SweepAll(t, now, cs, reachable);
      && u.Keys == t.Keys
      && (forall id :: id in t ==> u[id] == if id in Ids(cs) && id in reachable then t[id].(status := Expired) else t[id])
      && (forall id :: id in given <==> id in t && id in Ids(cs) && id in reachable && t[id].timeoutAction == Unmute)
      && (forall i, j :: 0 <= i < j < |given| ==> given[i] != given[j])
  {
    if cs != [] {
      var front, last := cs[..|cs| - 1], cs[|cs| - 1];
      SweepAllEffect(t, now, front, reachable);
      assert Ids(cs) == Ids(front) + [last.id] && last.id !in Ids(front);
      hide Ids;
      SweepOneMore(t, now, cs, reachable);
      hide SweepAll;
    }
  }

  // ---------- Answer keyboards ----------

  const WORDS: seq<string> := ["shield", "signal", "bridge", "forest", "planet", "rocket", "sunrise", "anchor"]

  // The trimmed options that are not blank.
  function Offers(options: seq<string>): set<string> {
    if options == [] then {}
    else
      var last := TrimSpace(options[|options| - 1]);
      Offers(options[..|options| - 1]) + (if last == "" then {} else {last})
  }

  const ALPHABET := "ABCDEFGHJKLMNPQRSTUVWXYZ23456789"

  predicate Distinct(s: seq<string>) {
    forall i, j :: 0 <= i < j < |s| ==> s[i] != s[j]
  }

  // Fisher and Yates' shuffle with whatever the random source picks.
  method Shuffle(s: seq<string>) returns (t: seq<string>)
    ensures multiset(t) == multiset(s)
  {
    t := s;
    var i := |t| - 1;
    while i > 0
      invariant |t| == |s| && -1 <= i < |t| && multiset(t) == multiset(s)
    {
      var j :| 0 <= j <= i;
      t := t[i := t[j]][j := t[i]];
      i := i - 1;
    }
  }

  // The trimmed options in a random order, each once. The answer is always among them when
  // it is one of at most four options.
  method UniqueOptions(options: seq<string>, answer: string) returns (offer: seq<string>)
    ensures Distinct(offer) && |offer| <= 4
    ensures forall o :: o in offer ==> o == answer || o in Offers(options)
    ensures |options| <= 4 && answer in Offers(options) ==> forall o :: o in Offers(options) ==> o in offer
  {
    var ordered := Dedupe(options);
    hide TrimSpace, Offers;
    if answer !in ordered {
      ordered := ordered + [answer];
    }
    var shuffled := Shuffle(ordered);
    SameElements(ordered, shuffled);
    offer := if |shuffled| > 4 then shuffled[..4] else shuffled;
    assert forall o :: o in offer ==> o in shuffled;
  }

  method Dedupe(options: seq<string>) returns (ordered: seq<string>)
    ensures |ordered| <= |options| && Distinct(ordered)
    ensures forall o :: o in ordered <==> o in Offers(options)
  {
    hide TrimSpace;
    var seen := {};
    ordered := [];
    for i := 0 to |options|
      invariant |ordered| <= i && Distinct(ordered)
      invariant forall o :: o in ordered <==> o in seen
      invariant seen == Offers(options[..i])
    {
      var option := TrimSpace(options[i]);
      assert options[..i + 1][..i] == options[..i];
      if option != "" && option !in seen {
        seen := seen + {option};
        ordered := ordered + [option];
      }
    }
    assert options[..|options|] == options;
  }

  lemma SameElements(s: seq<string>, t: seq<string>)
    requires multiset(t) == multiset(s) && Distinct(s)
    ensures Distinct(t) && |t| == |s| && forall o :: o in t <==> o in s
  {
    assert forall o :: o in t <==> o in multiset(t);
    forall i, j | 0 <= i < j < |t| ensures t[i] != t[j] {
      OnceInDistinct(s, t[i]);
      if t[i] == t[j] {
        TwiceCounts(t, i, j);
        assert false;
      }
    }
    assert |multiset(t)| == |t| && |multiset(s)| == |s|;
  }

  lemma {:induction false} OnceInDistinct(s: seq<string>, o: string)
    requires Distinct(s)
    ensures multiset(s)[o] <= 1
  {
    if s != [] {
      OnceInDistinct(s[1..], o);
      assert s == [s[0]] + s[1..];
      assert o in s[1..] <==> o in multiset(s[1..]);
    }
  }

  lemma TwiceCounts(t: seq<string>, i: nat, j: nat)
    requires i < j < |t| && t[i] == t[j]
    ensures multiset(t)[t[i]] >= 2
  {
    assert t == t[..i] + [t[i]] + t[i + 1..j] + [t[j]] + t[j + 1..];
  }

  // The keyboard of a sum holds the sum, the number before it and the two after it.
  method NumericOptions(left: nat, right: nat) returns (offer: seq<string>)
    requires 1 <= left <= 9 && 1 <= right <= 9
    ensures Distinct(offer) && |offer| == 4
    ensures forall k :: left + right - 1 <= k <= left + right + 2 ==> FormatInt(k) in offer
  {
    hide FormatInt, ParseInt, TrimSpace, Trimmed;
    var answer := FormatInt(left + right);
    var parsed := ParseInt(answer);
    ParseFormatInt(left + right);
    var value := if parsed.Some? then parsed.value else 0;
    var options := [FormatInt(value), FormatInt(value + 1), FormatInt(if value - 1 > 1 then value - 1 else 1), FormatInt(value + 2)];
    ParseFormatInt(value + 1);
    ParseFormatInt(value + 2);
    ParseFormatInt(value - 1);
    OfferedAsIs(options);
    hide Offers;
    offer := UniqueOptions(options, answer);
    assert options[0] == answer;
    AllFourOffered(options, offer);
  }

  method WordOptions(answer: string) returns (offer: seq<string>)
    requires answer in WORDS
    ensures Distinct(offer) && |offer| == 4 && answer in offer && forall o :: o in offer ==> o in WORDS
  {
    var options := [answer];
    WordsAreTrimmed();
    var k := 0;
    while k < |WORDS| && |options| < 4
      invariant 1 <= |options| <= 4 && k <= |WORDS| && |options| == (if answer in WORDS[..k] then k else k + 1)
      invariant Distinct(options) && options[0] == answer
      invariant forall o :: o in options ==> o in WORDS
      invariant forall i :: 1 <= i < |options| ==> options[i] in WORDS[..k]
    {
      if WORDS[k] != answer {
        assert WORDS[k] !in WORDS[..k];
        options := options + [WORDS[k]];
      }
      k := k + 1;
    }
    OfferedAsIs(options);
    hide TrimSpace;
    offer := UniqueOptions(options, answer);
    AllFourOffered(options, offer);
  }

  predicate IsCode(s: string) {
    s != "" && forall i :: 0 <= i < |s| ==> s[i] in ALPHABET
  }

  // A code of the same length that differs from the answer in at most one place.
  ghost predicate NearlyEqual(o: string, answer: string) {
    |o| == |answer| && exists k :: 0 <= k < |answer| && o == answer[k := o[k]]
  }

  method MutateCaptchaCode(answer: string) returns (mutated: string)
    requires IsCode(answer)
    ensures IsCode(mutated) && NearlyEqual(mutated, answer)
  {
    var idx :| 0 <= idx < |answer|;
    var pick :| 0 <= pick < |ALPHABET|;
    mutated := answer[idx := ALPHABET[pick]];
    assert mutated == answer[idx := mutated[idx]];
    if mutated == answer {
      var again :| 0 <= again < |ALPHABET| - 1;
      mutated := answer[idx := ALPHABET[(again + 1) % |ALPHABET|]];
      assert mutated == answer[idx := mutated[idx]];
    }
  }

  method CodeOptions(answer: string) returns (offer: seq<string>)
    requires IsCode(answer)
    ensures Distinct(offer) && answer in offer && |offer| <= 4
    ensures forall o :: o in offer ==> IsCode(o) && NearlyEqual(o, answer)
  {
    assert answer == answer[0 := answer[0]];
    var options := [answer];
    while |options| < 4
      invariant |options| <= 4 && options != [] && options[0] == answer
      invariant forall o :: o in options ==> IsCode(o) && NearlyEqual(o, answer)
    {
      var mutated := MutateCaptchaCode(answer);
      options := options + [mutated];
    }
    forall o | o in options ensures o != "" && Trimmed(o) {
      CodesAreTrimmed(o);
    }
    OfferedAsIs(options);
    hide Offers, NearlyEqual, IsCode, Trimmed;
    offer := UniqueOptions(options, answer);
  }

  lemma CodesAreTrimmed(o: string)
    requires IsCode(o)
    ensures Trimmed(o)
  {
    assert forall c :: c in ALPHABET ==> !IsSpace(c);
    assert o[0] in ALPHABET && o[|o| - 1] in ALPHABET;
  }

  lemma WordsAreTrimmed()
    ensures Distinct(WORDS) && forall o :: o in WORDS ==> o != "" && Trimmed(o)
  {
  }

  lemma {:induction false} OfferedAsIs(options: seq<string>)
    requires forall o :: o in options ==> o != "" && Trimmed(o)
    ensures forall o :: o in Offers(options) <==> o in options
  {
    if options != [] {
      var front, last := options[..|options| - 1], options[|options| - 1];
      assert options == front + [last];
      TrimSpaceTrimmed(last);
      hide TrimSpace, Trimmed;
      OfferedAsIs(front);
    }
  }

  lemma AllFourOffered(options: seq<string>, offer: seq<string>)
    requires |options| == 4 && Distinct(options) && Distinct(offer) && |offer| <= 4
    requires forall o :: o in options ==> o in offer
    ensures |offer| == 4
  {
    var a, b := set o | o in options, set o | o in offer;
    DistinctCount(options, a);
    DistinctCount(offer, b);
    assert a <= b;
    SubsetCount(a, b);
  }

  lemma {:induction false} DistinctCount(s: seq<string>, elements: set<string>)
    requires Distinct(s) && forall o :: o in s <==> o in elements
    ensures |elements| == |s|
  {
    if s != [] {
      assert s[0] !in s[1..];
      assert forall o :: o in s <==> o == s[0] || o in s[1..];
      DistinctCount(s[1..], elements - {s[0]});
    }
  }

  lemma {:induction false} SubsetCount(a: set<string>, b: set<string>)
    requires a <= b
    ensures |a| <= |b|
  {
    if a != {} {
      var x :| x in a;
      SubsetCount(a - {x}, b - {x});
    }
  }
}
