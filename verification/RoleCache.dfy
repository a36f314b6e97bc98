// The two permission caches: bot roles, read from the store, and chat administrators, asked
// from Telegram. Callers interleave between their clock reading, their look at the cache,
// the answer they wait for and their write to the cache.
module RoleCache {

  type Value = seq<string>

  datatype Kind = Roles | Admins

  // Nanoseconds that an entry stays in use.
  function Lifetime(kind: Kind): int {
    if kind == Roles then 30_000_000_000 else 15_000_000_000
  }

  datatype Entry = Entry(value: Value, expiresAt: int)

  type Cache = map<string, Entry>

  datatype Found = Miss | Hit(value: Value)

  function Look(cache: Cache, key: string, now: int): Found {
    if key in cache && now < cache[key].expiresAt then Hit(cache[key].value) else Miss
  }

  // ---------- The cache as an object ----------

  class PermissionCache {
    const kind: Kind
    var entries: Cache

    constructor (kind: Kind)
      ensures this.kind == kind && entries == map[]
    {
      this.kind := kind;
      entries := map[];
    }

    // One call from its clock reading to its return with nobody in between. `answer` is what
    // the store or Telegram says, Miss for an error.
    method Get(key: string, now: int, answer: Found) returns (result: Found)
      modifies this
      ensures result == if Look(old(entries), key, now).Hit? then Look(old(entries), key, now) else answer
      ensures entries == if Look(old(entries), key, now).Hit? || answer.Miss? then old(entries)
                         else old(entries)[key := Entry(answer.value, now + Lifetime(kind))]
      ensures key in old(entries) && now < old(entries)[key].expiresAt ==> result == Hit(old(entries)[key].value) && entries == old(entries)
      ensures !(key in old(entries) && now < old(entries)[key].expiresAt) ==> result == answer
    {
      if key in entries && now < entries[key].expiresAt {
        return Hit(entries[key].value);
      }
      result := answer;
      if answer.Hit? {
        entries := entries[key := Entry(answer.value, now + Lifetime(kind))];
      }
    }

    // RefreshChatAdministrators: the clock is read after the answer has come.
    method Refresh(key: string, answer: Found, answered: int) returns (result: Found)
      modifies this
      ensures result == answer
      ensures entries == if answer.Miss? then old(entries) else old(entries)[key := Entry(answer.value, answered + Lifetime(kind))]
    {
      result := answer;
      if answer.Hit? {
        entries := entries[key := Entry(answer.value, answered + Lifetime(kind))];
      }
    }
  }

  // What was cached answers every call that begins within half a minute for roles and a
  // quarter for administrators, and none later.
  lemma KeptForItsLifetime(kind: Kind, cache: Cache, key: string, value: Value, now: int, later: int)
    ensures Look(cache[key := Entry(value, now + Lifetime(kind))], key, later) ==
      if later - now < (if kind == Roles then 30 else 15) * 1_000_000_000 then Hit(value) else Miss
  {
  }

  // ---------- Interleaved calls ----------

  // The true value of a key over time: each version holds from `since` to the next one's.
  datatype Version = Version(value: Value, since: int)

  // Where a call stands. `began` is when it read the clock, or when a refresh sent its
  // request; `at` is when the answer was true.
  datatype Call =
    | Looking(key: string, began: int)
    | Asking(key: string, began: int)
    | Storing(key: string, began: int, value: Value, at: int)
    | RefreshAsking(key: string, began: int)
    | RefreshStoring(key: string, began: int, value: Value, at: int)

  // A finished call. `at` is when its value was true; `slack` is zero, or the length of the
  // refresh that brought the value.
  datatype Result = Result(key: string, value: Value, began: int, returned: int, at: int, slack: int)

  // `origin` says of each entry when its value was true and how long its refresh took;
  // `refreshes` are the lengths of all refreshes. Together with `results` they are history.
  datatype State = State(
    now: int, truth: map<string, seq<Version>>, start: int, cache: Cache, calls: map<int, Call>,
    origin: map<string, (int, int)>, refreshes: set<(string, int)>, results: seq<Result>)

  datatype Step =
    | Tick(d: nat)
    | Change(key: string, value: Value)
    | Begin(w: int, key: string)
    | BeginRefresh(w: int, key: string)
    | ReadCache(w: int)
    | Answer(w: int)
    | Fail(w: int)
    | Write(w: int)

  const NO_ROLES: Value := []

  function TruthOf(s: State, key: string): (h: seq<Version>)
  {
    if key in s.truth then s.truth[key] else [Version(NO_ROLES, s.start)]
  }

  function Current(s: State, key: string): Value
    requires TruthOf(s, key) != []
  {
    TruthOf(s, key)[|TruthOf(s, key)| - 1].value
  }

  function Init(now: int): State {
    State(now, map[], now, map[], map[], map[], {}, [])
  }

  predicate Enabled(kind: Kind, s: State, step: Step) {
    match step
    case Tick(_) => true
    case Change(_, _) => true
    case Begin(w, _) => w !in s.calls
    case BeginRefresh(w, _) => kind == Admins && w !in s.calls
    case ReadCache(w) => w in s.calls && s.calls[w].Looking?
    case Answer(w) => w in s.calls && (s.calls[w].Asking? || s.calls[w].RefreshAsking?) && TruthOf(s, s.calls[w].key) != []
    case Fail(w) => w in s.calls && (s.calls[w].Asking? || s.calls[w].RefreshAsking?)
    case Write(w) => w in s.calls && (s.calls[w].Storing? || s.calls[w].RefreshStoring?)
  }

  function Next(kind: Kind, s: State, step: Step): State
    requires Enabled(kind, s, step)
  {
    match step
    case Tick(d) => s.(now := s.now + d)
    case Change(key, value) => s.(truth := s.truth[key := TruthOf(s, key) + [Version(value, s.now)]])
    case Begin(w, key) => s.(calls := s.calls[w := Looking(key, s.now)])
    case BeginRefresh(w, key) => s.(calls := s.calls[w := RefreshAsking(key, s.now)])
    case ReadCache(w) =>
      var c := s.calls[w];
      (match Look(s.cache, c.key, c.began)
       case Miss => s.(calls := s.calls[w := Asking(c.key, c.began)])
       case Hit(value) =>
         var (at, slack) := if c.key in s.origin then s.origin[c.key] else (c.began, 0);
         s.(calls := s.calls - {w}, results := s.results + [Result(c.key, value, c.began, s.now, at, slack)]))
    case Answer(w) =>
      var c := s.calls[w];
      var value := Current(s, c.key);
      s.(calls := s.calls[w := if c.Asking? then Storing(c.key, c.began, value, s.now) else RefreshStoring(c.key, c.began, value, s.now)])
    case Fail(w) => s.(calls := s.calls - {w})
    case Write(w) =>
      var c := s.calls[w];
      var length := if c.Storing? then 0 else s.now - c.began;
      s.(cache := s.cache[c.key := Entry(c.value, (if c.Storing? then c.began else s.now) + Lifetime(kind))],
         origin := s.origin[c.key := (c.at, length)],
         refreshes := if c.Storing? then s.refreshes else s.refreshes + {(c.key, length)},
         calls := s.calls - {w},
         results := s.results + [Result(c.key, c.value, c.began, s.now, c.at, 0)])
  }

  predicate Run(kind: Kind, s: State, steps: seq<Step>, t: State)
    decreases |steps|
  {
    if steps == [] then s == t
    else Enabled(kind, s, steps[0]) && Run(kind, Next(kind, s, steps[0]), steps[1..], t)
  }

  // ---------- The invariant ----------

  // The i-th version was the true value at instant x.
  predicate VersionAt(h: seq<Version>, i: int, x: int) {
    0 <= i < |h| && h[i].since <= x && (i + 1 < |h| ==> x <= h[i + 1].since)
  }

  ghost predicate TrueAt(h: seq<Version>, value: Value, x: int) {
    exists i :: VersionAt(h, i, x) && h[i].value == value
  }

  ghost predicate TruthOk(s: State) {
    s.start <= s.now && forall key :: key in s.truth ==>
      s.truth[key] != [] && s.truth[key][|s.truth[key]| - 1].since <= s.now
  }

  ghost predicate EntryOk(kind: Kind, s: State, key: string)
    requires key in s.cache
  {
    && key in s.origin
    && var (at, slack) := s.origin[key];
       && TrueAt(TruthOf(s, key), s.cache[key].value, at) && at <= s.now
       && s.cache[key].expiresAt <= at + Lifetime(kind) + slack
       && (slack == 0 || (kind == Admins && (key, slack) in s.refreshes))
  }

  ghost predicate CallOk(kind: Kind, s: State, c: Call) {
    && c.began <= s.now
    && (c.RefreshAsking? || c.RefreshStoring? ==> kind == Admins)
    && (c.Storing? || c.RefreshStoring? ==> c.began <= c.at <= s.now && TrueAt(TruthOf(s, c.key), c.value, c.at))
  }

  ghost predicate ResultOk(kind: Kind, s: State, r: Result) {
    && TrueAt(TruthOf(s, r.key), r.value, r.at)
    && r.began - Lifetime(kind) - r.slack < r.at <= r.returned <= s.now
    && (r.slack == 0 || (kind == Admins && (r.key, r.slack) in s.refreshes))
  }

  ghost predicate Inv(kind: Kind, s: State) {
    && TruthOk(s)
    && (forall key :: key in s.cache ==> EntryOk(kind, s, key))
    && (forall w :: w in s.calls ==> CallOk(kind, s, s.calls[w]))
    && (forall i :: 0 <= i < |s.results| ==> ResultOk(kind, s, s.results[i]))
  }

  // Steps only add: time passes, versions and refreshes are appended.
  ghost predicate Grows(s: State, t: State) {
    && s.now <= t.now && s.refreshes <= t.refreshes
    && forall key, value, x :: x <= s.now && TrueAt(TruthOf(s, key), value, x) ==> TrueAt(TruthOf(t, key), value, x)
  }

  lemma AppendKeepsTrue(h: seq<Version>, v: Version, value: Value, x: int)
    requires TrueAt(h, value, x) && x <= v.since
    ensures TrueAt(h + [v], value, x)
  {
    var i :| VersionAt(h, i, x) && h[i].value == value;
    assert VersionAt(h + [v], i, x);
  }

  lemma CurrentIsTrue(s: State, key: string)
    requires TruthOk(s)
    ensures TruthOf(s, key) != [] && TrueAt(TruthOf(s, key), Current(s, key), s.now)
  {
    assert VersionAt(TruthOf(s, key), |TruthOf(s, key)| - 1, s.now);
  }

  // Only a change adds to the truth, and only under its key.
  lemma StepTruth(kind: Kind, s: State, step: Step)
    requires TruthOk(s) && Enabled(kind, s, step)
    ensures var t := Next(kind, s, step);
      && TruthOk(t) && s.now <= t.now && s.refreshes <= t.refreshes
      && forall key :: TruthOf(t, key) ==
           if step.Change? && step.key == key then TruthOf(s, key) + [Version(step.value, s.now)] else TruthOf(s, key)
  {
    hide Look;
  }

  lemma StepGrows(kind: Kind, s: State, step: Step)
    requires TruthOk(s) && Enabled(kind, s, step)
    ensures Grows(s, Next(kind, s, step)) && TruthOk(Next(kind, s, step))
  {
    hide TrueAt, VersionAt;
    var t := Next(kind, s, step);
    StepTruth(kind, s, step);
    hide Next, Enabled, TruthOf;
    forall key, value, x | x <= s.now && TrueAt(TruthOf(s, key), value, x) ensures TrueAt(TruthOf(t, key), value, x) {
      if step.Change? && step.key == key {
        AppendKeepsTrue(TruthOf(s, key), Version(step.value, s.now), value, x);
      }
    }
  }

  lemma CallKept(kind: Kind, s: State, t: State, c: Call)
    requires CallOk(kind, s, c) && Grows(s, t)
    ensures CallOk(kind, t, c)
  {
    hide TrueAt, TruthOf;
  }

  lemma EntryKept(kind: Kind, s: State, t: State, key: string)
    requires key in s.cache && EntryOk(kind, s, key) && Grows(s, t)
    requires key in t.cache && t.cache[key] == s.cache[key] && key in t.origin && t.origin[key] == s.origin[key]
    ensures EntryOk(kind, t, key)
  {
    hide TrueAt, TruthOf;
  }

  lemma ResultKept(kind: Kind, s: State, t: State, r: Result)
    requires ResultOk(kind, s, r) && Grows(s, t)
    ensures ResultOk(kind, t, r)
  {
    hide TrueAt, TruthOf;
  }

  lemma StepKeepsCalls(kind: Kind, s: State, step: Step, w: int)
    requires Inv(kind, s) && Enabled(kind, s, step) && w in Next(kind, s, step).calls
    ensures CallOk(kind, Next(kind, s, step), Next(kind, s, step).calls[w])
  {
    hide TrueAt, VersionAt, EntryOk, ResultOk, Grows, Look, TruthOf, Current;
    var t := Next(kind, s, step);
    StepGrows(kind, s, step);
    if w in s.calls {
      assert CallOk(kind, s, s.calls[w]);
      CallKept(kind, s, t, s.calls[w]);
    }
    if step == Answer(w) {
      CurrentIsTrue(s, s.calls[w].key);
      SameTruth(s, t, s.calls[w].key);
    }
  }

  lemma SameTruth(s: State, t: State, key: string)
    requires s.truth == t.truth && s.start == t.start
    ensures TruthOf(s, key) == TruthOf(t, key)
  {
  }

  lemma StepKeepsEntries(kind: Kind, s: State, step: Step, key: string)
    requires Inv(kind, s) && Enabled(kind, s, step) && key in Next(kind, s, step).cache
    ensures EntryOk(kind, Next(kind, s, step), key)
  {
    hide TrueAt, VersionAt, ResultOk, Grows, Look, TruthOf, Current;
    var t := Next(kind, s, step);
    StepGrows(kind, s, step);
    if step.Write? && key == s.calls[step.w].key {
      assert CallOk(kind, s, s.calls[step.w]);
      SameTruth(s, t, key);
    } else {
      EntryKept(kind, s, t, key);
    }
  }

  lemma StepKeepsResults(kind: Kind, s: State, step: Step, i: nat)
    requires Inv(kind, s) && Enabled(kind, s, step) && i < |Next(kind, s, step).results|
    ensures ResultOk(kind, Next(kind, s, step), Next(kind, s, step).results[i])
  {
    hide TrueAt, VersionAt, Grows, TruthOf, Current;
    var t := Next(kind, s, step);
    StepGrows(kind, s, step);
    if i < |s.results| {
      ResultKept(kind, s, t, s.results[i]);
    } else {
      var c := s.calls[step.w];
      assert CallOk(kind, s, c);
      SameTruth(s, t, c.key);
      if step.ReadCache? {
        assert EntryOk(kind, s, c.key);
      }
    }
  }

  lemma StepKeepsInv(kind: Kind, s: State, step: Step)
    requires Inv(kind, s) && Enabled(kind, s, step)
    ensures Inv(kind, Next(kind, s, step))
  {
    hide Next, Enabled, CallOk, EntryOk, ResultOk, TruthOk;
    var t := Next(kind, s, step);
    StepGrows(kind, s, step);
    forall w | w in t.calls ensures CallOk(kind, t, t.calls[w]) {
      StepKeepsCalls(kind, s, step, w);
    }
    forall key | key in t.cache ensures EntryOk(kind, t, key) {
      StepKeepsEntries(kind, s, step, key);
    }
    forall i | 0 <= i < |t.results| ensures ResultOk(kind, t, t.results[i]) {
      StepKeepsResults(kind, s, step, i);
    }
  }

  lemma {:induction false} RunKeepsInv(kind: Kind, s: State, steps: seq<Step>, t: State)
    requires Inv(kind, s) && Run(kind, s, steps, t)
    ensures Inv(kind, t)
    decreases |steps|
  {
    hide Inv, Next, Enabled;
    if steps != [] {
      StepKeepsInv(kind, s, steps[0]);
      RunKeepsInv(kind, Next(kind, s, steps[0]), steps[1..], t);
    }
  }

  // ---------- Staleness ----------

  // Under every interleaving of callers and changes, roles that a call returned were the true
  // ones at some instant later than 30 seconds before the call began, and no later than its
  // return.
  lemma RolesAreFresh(start: int, steps: seq<Step>, t: State, i: nat)
    requires Run(Roles, Init(start), steps, t) && i < |t.results|
    ensures exists x :: t.results[i].began - 30_000_000_000 < x <= t.results[i].returned && TrueAt(TruthOf(t, t.results[i].key), t.results[i].value, x)
  {
    RunKeepsInv(Roles, Init(start), steps, t);
    assert ResultOk(Roles, t, t.results[i]);
    hide TrueAt, TruthOf;
    assert TrueAt(TruthOf(t, t.results[i].key), t.results[i].value, t.results[i].at);
  }

  // For administrators the bound is 15 seconds and the length of one refresh of that chat.
  lemma AdminsAreFresh(start: int, steps: seq<Step>, t: State, i: nat) returns (x: int, slack: int)
    requires Run(Admins, Init(start), steps, t) && i < |t.results|
    ensures slack == 0 || (t.results[i].key, slack) in t.refreshes
    ensures t.results[i].began - 15_000_000_000 - slack < x <= t.results[i].returned
    ensures TrueAt(TruthOf(t, t.results[i].key), t.results[i].value, x)
  {
    RunKeepsInv(Admins, Init(start), steps, t);
    assert ResultOk(Admins, t, t.results[i]);
    hide TrueAt, TruthOf;
    x, slack := t.results[i].at, t.results[i].slack;
  }

  // A call that nobody disturbs is a run in which the cache changes as in PermissionCache.Get.
  lemma UndisturbedCall(kind: Kind, s: State, key: string, w: int) returns (steps: seq<Step>, t: State)
    requires TruthOk(s) && w !in s.calls
    ensures Run(kind, s, steps, t) && |t.results| == |s.results| + 1 && t.calls == s.calls && t.truth == s.truth
    ensures var found, r := Look(s.cache, key, s.now), t.results[|s.results|];
      && r.value == (if found.Hit? then found.value else Current(s, key)) && r.began == r.returned == s.now
      && t.cache == if found.Hit? then s.cache else s.cache[key := Entry(Current(s, key), s.now + Lifetime(kind))]
  {
    hide Run, Current, Look, TrueAt, TruthOk;
    CurrentIsTrue(s, key);
    RunNothing(kind, s);
    steps, t := Then(kind, s, [], s, Begin(w, key));
    steps, t := Then(kind, s, steps, t, ReadCache(w));
    if Look(s.cache, key, s.now).Miss? {
      SameTruth(s, t, key);
      SameCurrent(s, t, key);
      steps, t := AnswerAndWrite(kind, s, steps, t, key, w);
    }
    assert t.calls == s.calls;
  }

  lemma AnswerAndWrite(kind: Kind, s: State, before: seq<Step>, mid: State, key: string, w: int) returns (steps: seq<Step>, t: State)
    requires Run(kind, s, before, mid) && w in mid.calls && mid.calls[w] == Asking(key, mid.now) && TruthOf(mid, key) != []
    ensures Run(kind, s, steps, t) && t.truth == mid.truth && t.calls == mid.calls - {w}
    ensures t.results == mid.results + [Result(key, Current(mid, key), mid.now, mid.now, mid.now, 0)]
    ensures t.cache == mid.cache[key := Entry(Current(mid, key), mid.now + Lifetime(kind))]
  {
    hide Run, Current, Look, TruthOf;
    steps, t := Then(kind, s, before, mid, Answer(w));
    assert t.calls == mid.calls[w := Storing(key, mid.now, Current(mid, key), mid.now)];
    steps, t := Then(kind, s, steps, t, Write(w));
    assert t.calls == mid.calls - {w};
  }

  lemma SameCurrent(s: State, t: State, key: string)
    requires s.truth == t.truth && s.start == t.start && TruthOf(s, key) != []
    ensures Current(s, key) == Current(t, key)
  {
  }

  const S := 1_000_000_000

  // The refresh's own time does count: after a refresh of ten seconds a call gets
  // administrators that were last true 23 seconds before it began.
  lemma SlowRefreshOutlivesLifetime(v: Value) returns (steps: seq<Step>, t: State)
    requires v != NO_ROLES
    ensures Run(Admins, Init(0), steps, t) && |t.results| == 2
    ensures forall x :: TrueAt(TruthOf(t, t.results[1].key), t.results[1].value, x) ==> x <= t.results[1].began - 23 * S
  {
    hide Run, TrueAt, VersionAt;
    steps, t := SlowRefresh(v);
    var truth := t.truth;
    steps, t := Then(Admins, Init(0), steps, t, Tick(14 * S));
    steps, t := Then(Admins, Init(0), steps, t, Begin(2, "c"));
    steps, t := Then(Admins, Init(0), steps, t, ReadCache(2));
    assert t.truth == truth && TruthOf(t, "c") == truth["c"];
    OnlyBefore(truth["c"], NO_ROLES, v, S);
  }

  lemma SlowRefresh(v: Value) returns (steps: seq<Step>, t: State)
    ensures Run(Admins, Init(0), steps, t)
    ensures t.now == 10 * S && t.calls == map[] && |t.results| == 1
    ensures t.cache == map["c" := Entry(NO_ROLES, 25 * S)]
    ensures "c" in t.truth && t.truth["c"] == [Version(NO_ROLES, 0), Version(v, S)]
  {
    hide Run;
    RunNothing(Admins, Init(0));
    steps, t := Then(Admins, Init(0), [], Init(0), BeginRefresh(1, "c"));
    steps, t := Then(Admins, Init(0), steps, t, Answer(1));
    assert t.calls == map[1 := RefreshStoring("c", 0, NO_ROLES, 0)];
    steps, t := Then(Admins, Init(0), steps, t, Tick(S));
    steps, t := Then(Admins, Init(0), steps, t, Change("c", v));
    assert t.truth["c"] == [Version(NO_ROLES, 0)] + [Version(v, S)];
    steps, t := Then(Admins, Init(0), steps, t, Tick(9 * S));
    steps, t := Then(Admins, Init(0), steps, t, Write(1));
  }

  lemma OnlyBefore(h: seq<Version>, before: Value, after: Value, since: int)
    requires |h| == 2 && h[0].value == before && h[1] == Version(after, since) && before != after
    ensures forall x :: TrueAt(h, before, x) ==> x <= since
  {
  }

  lemma RunNothing(kind: Kind, s: State)
    ensures Run(kind, s, [], s)
  {
  }

  // A run and one more step.
  lemma {:induction false} Then(kind: Kind, s: State, steps: seq<Step>, t: State, step: Step) returns (more: seq<Step>, u: State)
    requires Run(kind, s, steps, t) && Enabled(kind, t, step)
    ensures more == steps + [step] && u == Next(kind, t, step) && Run(kind, s, more, u)
    decreases |steps|
  {
    hide Next, Enabled;
    more, u := steps + [step], Next(kind, t, step);
    if steps == [] {
      assert more[1..] == [];
    } else {
      var tail, v := Then(kind, Next(kind, s, steps[0]), steps[1..], t, step);
      assert more[1..] == tail;
    }
  }
}
