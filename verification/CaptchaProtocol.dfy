// The captcha challenges: joins create them, callback handlers and a sweeper read a
// challenge first and mark it later. Every step is one store call, one Telegram call or one
// local decision; the steps of different handlers interleave freely.
module CaptchaProtocol {
  import opened Text

  datatype Store = Memory | Postgres
  datatype Status = Pending | Solved | Expired | Unset
  datatype Mode = Button | Math | Words | Code | NoMode
  datatype TimeoutAction = Kick | Unmute | NoAction

  // At most one pending challenge is kept per bot, chat and user.
  datatype Owner = Owner(botId: string, chatId: int, userId: int)

  datatype Challenge = Challenge(
    id: string, owner: Owner, answer: string, expiresAt: int, status: Status, mode: Mode,
    rulesRequired: bool, rulesAccepted: bool, timeoutAction: TimeoutAction)

  type Table = map<string, Challenge>

  // What the memory store reads under a missing id.
  const ZERO := Challenge("", Owner("", 0, 0), "", 0, Unset, NoMode, false, false, NoAction)

  // ---------- Store calls ----------

  predicate PendingFor(c: Challenge, owner: Owner) {
    c.owner == owner && c.status == Pending
  }

  function Created(t: Table, c: Challenge): Table {
    (map id | id in t && !PendingFor(t[id], c.owner) :: t[id])[c.id := c]
  }

  // Marks do not look at the status they overwrite. Under a missing id Postgres changes
  // nothing; the memory store writes a marked zero record.
  function Marked(store: Store, t: Table, id: string, accept: bool, status: Option<Status>): Table {
    if id !in t && store == Postgres then t
    else
      var c := if id in t then t[id] else ZERO;
      t[id := c.(rulesAccepted := c.rulesAccepted || accept, status := if status.Some? then status.value else c.status)]
  }

  function RulesAccepted(store: Store, t: Table, id: string): Table {
    Marked(store, t, id, true, None)
  }

  function MarkedSolved(store: Store, t: Table, id: string): Table {
    Marked(store, t, id, false, Some(Solved))
  }

  function MarkedExpired(store: Store, t: Table, id: string): Table {
    Marked(store, t, id, false, Some(Expired))
  }

  predicate DueForSweep(c: Challenge, now: int) {
    c.status == Pending && c.expiresAt <= now
  }

  // ---------- Handlers ----------

  datatype Action = PressButton | AcceptRules | GiveAnswer

  // HandleCallback's checks on the challenge it has read.
  predicate Answerable(c: Challenge, from: int, now: int) {
    c.status == Pending && c.owner.userId == from && !(now > c.expiresAt && c.timeoutAction != NoAction)
  }

  datatype Route = ToReply | ToAccept | ToComplete | ToFail

  // What the three callback handlers do with a challenge that HandleCallback lets through.
  function RouteOf(c: Challenge, action: Action, answer: string): Route {
    match action
    case PressButton =>
      if c.mode != Button then ToReply
      else if c.rulesRequired && !c.rulesAccepted then ToReply
      else ToComplete
    case AcceptRules =>
      if c.rulesRequired && !c.rulesAccepted then ToAccept
      else if c.mode == Button then ToComplete
      else ToReply
    case GiveAnswer =>
      if c.rulesRequired && !c.rulesAccepted then ToReply
      else if TrimSpace(answer) == "" then ToReply
      else if answer != c.answer then ToFail
      else ToComplete
  }

  // Where a handler stands, with its own copy of the challenge.
  datatype Thread =
    | Checked(c: Challenge, action: Action, answer: string)
    | Completing(c: Challenge)
    | Granting(c: Challenge)
    | Failing(c: Challenge)
    | FailMarking(c: Challenge)
    | Sweeping(todo: seq<Challenge>)
    | SweepMarking(c: Challenge, todo: seq<Challenge>)

  // The permission to send was given back to the challenge's user.
  datatype Grant = Grant(id: string, bySweep: bool, at: int)

  // A callback that was taken up: who did what on which challenge, and when.
  datatype Act = Act(id: string, from: int, action: Action, answer: string, at: int)

  // `created`, `acts`, `given`, `accepted`, `solved` and `grants` are history: every challenge
  // as it was created, every callback taken up, every answer handed in, every challenge whose
  // rules were accepted, every id marked solved and every permission given.
  datatype State = State(
    now: int, table: Table, threads: map<int, Thread>, created: Table, acts: set<Act>,
    given: set<(string, string)>, accepted: set<string>, solved: set<string>, grants: seq<Grant>)

  // `telegramOk` and `marked` are whether Telegram and the store do what a sweep asks of them;
  // a sweep passes over the error of a mark. Every other handler stops at an error.
  datatype Step =
    | Tick(d: nat)
    | Join(c: Challenge)
    | Callback(w: int, id: string, from: int, action: Action, answer: string)
    | Decide(w: int)
    | Solve(w: int)
    | GiveBack(w: int)
    | Ban(w: int)
    | Expire(w: int)
    | List(w: int, ids: seq<string>)
    | SweepOne(w: int, telegramOk: bool)
    | SweepExpire(w: int, marked: bool)
    | Stop(w: int)

  function Init(now: int): State {
    State(now, map[], map[], map[], {}, {}, {}, {}, [])
  }

  // A challenge as HandleJoin creates it.
  predicate Fresh(s: State, c: Challenge) {
    c.id !in s.created && c.status == Pending && !c.rulesAccepted && c.mode != NoMode
  }

  predicate Enabled(s: State, step: Step) {
    match step
    case Tick(_) => true
    case Join(c) => Fresh(s, c)
    case Callback(w, _, _, _, _) => w !in s.threads
    case Decide(w) => w in s.threads && s.threads[w].Checked?
    case Solve(w) => w in s.threads && s.threads[w].Completing?
    case GiveBack(w) => w in s.threads && s.threads[w].Granting?
    case Ban(w) => w in s.threads && s.threads[w].Failing?
    case Expire(w) => w in s.threads && s.threads[w].FailMarking?
    case List(w, ids) =>
      && w !in s.threads
      && (forall i :: 0 <= i < |ids| ==> ids[i] in s.table && DueForSweep(s.table[ids[i]], s.now))
      && (forall i, j :: 0 <= i < j < |ids| ==> ids[i] != ids[j])
    case SweepOne(w, _) => w in s.threads && s.threads[w].Sweeping? && s.threads[w].todo != []
    case SweepExpire(w, _) => w in s.threads && s.threads[w].SweepMarking?
    case Stop(w) => w in s.threads
  }

  function Snapshots(t: Table, ids: seq<string>): (cs: seq<Challenge>)
    requires forall i :: 0 <= i < |ids| ==> ids[i] in t
    ensures |cs| == |ids| && forall i :: 0 <= i < |ids| ==> cs[i] == t[ids[i]]
  {
    seq(|ids|, i requires 0 <= i < |ids| => t[ids[i]])
  }

  function Next(store: Store, s: State, step: Step): State
    requires Enabled(s, step)
  {
    match step
    case Tick(d) => s.(now := s.now + d)
    case Join(c) => s.(table := Created(s.table, c), created := s.created[c.id := c])
    case Callback(w, id, from, action, answer) =>
      if id in s.table && Answerable(s.table[id], from, s.now) then
        s.(threads := s.threads[w := Checked(s.table[id], action, answer)],
           acts := s.acts + {Act(id, from, action, answer, s.now)},
           given := if action == GiveAnswer then s.given + {(id, answer)} else s.given)
      else s
    case Decide(w) =>
      var h := s.threads[w];
      (match RouteOf(h.c, h.action, h.answer)
       case ToReply => s.(threads := s.threads - {w})
       case ToComplete => s.(threads := s.threads[w := Completing(h.c)])
       case ToFail => s.(threads := s.threads[w := Failing(h.c)])
       case ToAccept =>
         var t := RulesAccepted(store, s.table, h.c.id);
         if h.c.mode == Button then
           s.(table := t, accepted := s.accepted + {h.c.id}, threads := s.threads[w := Completing(h.c.(rulesAccepted := true))])
         else s.(table := t, accepted := s.accepted + {h.c.id}, threads := s.threads - {w}))
    case Solve(w) =>
      var c := s.threads[w].c;
      s.(table := MarkedSolved(store, s.table, c.id), solved := s.solved + {c.id}, threads := s.threads[w := Granting(c)])
    case GiveBack(w) =>
      s.(grants := s.grants + [Grant(s.threads[w].c.id, false, s.now)], threads := s.threads - {w})
    case Ban(w) => s.(threads := s.threads[w := FailMarking(s.threads[w].c)])
    case Expire(w) =>
      s.(table := MarkedExpired(store, s.table, s.threads[w].c.id), threads := s.threads - {w})
    case List(w, ids) => s.(threads := s.threads[w := Sweeping(Snapshots(s.table, ids))])
    case SweepOne(w, telegramOk) =>
      var c, rest := s.threads[w].todo[0], s.threads[w].todo[1..];
      if !telegramOk then s.(threads := s.threads[w := Sweeping(rest)])
      else
        s.(threads := s.threads[w := SweepMarking(c, rest)],
           grants := if c.timeoutAction == Unmute then s.grants + [Grant(c.id, true, s.now)] else s.grants)
    case SweepExpire(w, marked) =>
      s.(table := if marked then MarkedExpired(store, s.table, s.threads[w].c.id) else s.table,
         threads := s.threads[w := Sweeping(s.threads[w].todo)])
    case Stop(w) => s.(threads := s.threads - {w})
  }

  predicate Run(store: Store, s: State, steps: seq<Step>, t: State)
    decreases |steps|
  {
    if steps == [] then s == t
    else Enabled(s, steps[0]) && Run(store, Next(store, s, steps[0]), steps[1..], t)
  }

  // ---------- The inductive invariant ----------

  // A record of the challenge c: only status and acceptance may differ.
  predicate SameChallenge(c: Challenge, original: Challenge) {
    c == original.(status := c.status, rulesAccepted := c.rulesAccepted)
  }

  predicate ZeroRecord(c: Challenge) {
    c == ZERO.(status := c.status, rulesAccepted := c.rulesAccepted) && c.status != Pending
  }

  predicate TakesAnswer(c: Challenge) {
    c.mode == Math || c.mode == Words || c.mode == Code
  }

  // The challenge's question was answered, if it has one.
  predicate Passed(s: State, original: Challenge) {
    TakesAnswer(original) ==> (original.id, original.answer) in s.given
  }

  predicate RowOk(s: State, id: string)
    requires id in s.table
  {
    var c := s.table[id];
    && id in s.created
    && (SameChallenge(c, s.created[id]) || ZeroRecord(c))
    && (c.rulesAccepted && SameChallenge(c, s.created[id]) ==> id in s.accepted)
    && (c.status == Solved && SameChallenge(c, s.created[id]) ==> Passed(s, s.created[id]) && (c.rulesRequired ==> c.rulesAccepted))
  }

  // A handler's copy: its challenge was created, and an acceptance it has seen is recorded.
  predicate CopyOk(s: State, c: Challenge) {
    && c.id in s.created && SameChallenge(c, s.created[c.id])
    && (c.rulesAccepted ==> c.id in s.accepted)
    && (c.rulesAccepted && c.id in s.table && SameChallenge(s.table[c.id], s.created[c.id]) ==> s.table[c.id].rulesAccepted)
  }

  predicate SweepCopyOk(s: State, c: Challenge) {
    c.id in s.created && SameChallenge(c, s.created[c.id]) && c.expiresAt <= s.now
  }

  predicate Lists(todo: seq<Challenge>, id: string) {
    exists i :: 0 <= i < |todo| && todo[i].id == id
  }

  // What is left of a sweep: copies in order, each challenge once.
  predicate TodoOk(s: State, todo: seq<Challenge>) {
    && (forall i :: 0 <= i < |todo| ==> SweepCopyOk(s, todo[i]))
    && (forall i, j :: 0 <= i < j < |todo| ==> todo[i].id != todo[j].id)
  }

  predicate ThreadOk(s: State, h: Thread) {
    match h
    case Checked(c, action, answer) => CopyOk(s, c) && (action == GiveAnswer ==> (c.id, answer) in s.given)
    case Completing(c) => CopyOk(s, c) && (c.rulesRequired ==> c.rulesAccepted) && Passed(s, c)
    case Granting(c) => CopyOk(s, c) && c.id in s.solved
    case Failing(c) => CopyOk(s, c)
    case FailMarking(c) => CopyOk(s, c)
    case Sweeping(todo) => TodoOk(s, todo)
    case SweepMarking(c, todo) => SweepCopyOk(s, c) && TodoOk(s, todo) && !Lists(todo, c.id)
  }

  // A challenge that was marked solved had passed every gate it has.
  predicate SolvedOk(s: State, id: string) {
    id in s.created && Passed(s, s.created[id]) && (s.created[id].rulesRequired ==> id in s.accepted)
  }

  predicate GrantOk(s: State, g: Grant) {
    && g.id in s.created
    && (if g.bySweep then s.created[g.id].timeoutAction == Unmute && s.created[g.id].expiresAt <= g.at
        else g.id in s.solved)
  }

  ghost predicate OnePending(t: Table) {
    forall i, j :: i in t && j in t && t[i].status == Pending && t[j].status == Pending && t[i].owner == t[j].owner ==> i == j
  }

  ghost predicate Inv(s: State) {
    && (forall id :: id in s.table ==> RowOk(s, id))
    && (forall id :: id in s.created ==> s.created[id].id == id && s.created[id].mode != NoMode)
    && (forall w :: w in s.threads ==> ThreadOk(s, s.threads[w]))
    && (forall id :: id in s.solved ==> SolvedOk(s, id))
    && (forall i :: 0 <= i < |s.grants| ==> GrantOk(s, s.grants[i]))
    && OnePending(s.table)
  }

  // What every step keeps: history only grows, acceptance of the rules is never taken back,
  // and a deleted challenge never reappears as itself.
  ghost predicate Extends(s: State, t: State) {
    && s.now <= t.now && s.given <= t.given && s.accepted <= t.accepted && s.solved <= t.solved
    && (forall id :: id in s.created ==> id in t.created && t.created[id] == s.created[id])
    && (forall id :: id in s.created && id in t.table && SameChallenge(t.table[id], s.created[id]) ==>
          && id in s.table && SameChallenge(s.table[id], s.created[id])
          && (s.table[id].rulesAccepted ==> t.table[id].rulesAccepted))
  }

  ghost predicate HistoryGrows(s: State, t: State) {
    && s.now <= t.now && s.given <= t.given && s.accepted <= t.accepted && s.solved <= t.solved
    && forall id :: id in s.created ==> id in t.created && t.created[id] == s.created[id]
  }

  lemma MarkExtends(store: Store, s: State, t: State, id: string, accept: bool, status: Option<Status>)
    requires Inv(s) && id in s.created && HistoryGrows(s, t)
    requires t.table == Marked(store, s.table, id, accept, status)
    ensures Extends(s, t)
  {
    hide ThreadOk, GrantOk, OnePending;
    if id in s.table {
      assert RowOk(s, id);
    }
  }

  predicate Marks(step: Step) {
    step.Decide? || step.Solve? || step.Expire? || step.SweepExpire?
  }

  function MarkOf(step: Step): Option<Status> {
    if step.Decide? then None else if step.Solve? then Some(Solved) else Some(Expired)
  }

  // A step leaves the table alone, adds a challenge to it, or marks the challenge of a handler.
  lemma TableChanges(store: Store, s: State, step: Step)
    requires Enabled(s, step) && (step.Join? ==> step.c.id !in s.created)
    ensures var t := Next(store, s, step);
      && HistoryGrows(s, t)
      && (step.Join? ==> t.table == Created(s.table, step.c) && t.created == s.created[step.c.id := step.c])
      && (!step.Join? ==> t.created == s.created)
      && (!step.Join? && t.table != s.table ==>
            && Marks(step) && (step.SweepExpire? ==> step.marked) && t.table == Marked(store, s.table, s.threads[step.w].c.id, step.Decide?, MarkOf(step))
            && (step.Decide? ==> s.threads[step.w].c.id in t.accepted))
  {
    hide TrimSpace, RouteOf, Marked, Created;
  }

  lemma StepExtends(store: Store, s: State, step: Step)
    requires Inv(s) && Enabled(s, step)
    ensures Extends(s, Next(store, s, step))
  {
    hide TrimSpace, GrantOk, OnePending, RowOk;
    var t := Next(store, s, step);
    TableChanges(store, s, step);
    hide Next;
    if t.table != s.table && !step.Join? {
      assert ThreadOk(s, s.threads[step.w]);
      hide Marked, Inv, ThreadOk;
      MarkExtends(store, s, t, s.threads[step.w].c.id, step.Decide?, MarkOf(step));
    }
  }

  lemma ThreadKept(s: State, t: State, h: Thread)
    requires ThreadOk(s, h) && Extends(s, t)
    ensures ThreadOk(t, h)
  {
  }

  lemma RowKept(s: State, t: State, id: string)
    requires id in s.table && id in t.table && s.table[id] == t.table[id]
    requires RowOk(s, id) && Extends(s, t)
    ensures RowOk(t, id)
  {
  }

  // A mark by a handler whose copy is in order leaves the row in order.
  lemma MarkedRowOk(store: Store, s: State, t: State, c: Challenge, accept: bool, status: Option<Status>)
    requires Inv(s) && Extends(s, t) && CopyOk(s, c) && t.created == s.created
    requires t.table == Marked(store, s.table, c.id, accept, status) && status != Some(Pending)
    requires status == Some(Solved) ==> (c.rulesRequired ==> c.rulesAccepted) && Passed(s, c)
    requires accept ==> c.id in t.accepted
    ensures c.id in t.table ==> RowOk(t, c.id)
  {
    hide ThreadOk, GrantOk, OnePending;
    if c.id in s.table {
      assert RowOk(s, c.id);
    }
  }

  // The marks of a handler that is in order leave a row in order.
  lemma MarkedByHandlerOk(store: Store, s: State, t: State, step: Step)
    requires Inv(s) && Enabled(s, step) && Extends(s, t) && Marks(step) && t.created == s.created
    requires t.table == Marked(store, s.table, s.threads[step.w].c.id, step.Decide?, MarkOf(step))
    requires step.Decide? ==> s.threads[step.w].c.id in t.accepted
    ensures s.threads[step.w].c.id in t.table ==> RowOk(t, s.threads[step.w].c.id)
  {
    hide RowOk, Marked, Extends, CopyOk, SweepCopyOk, TodoOk, Lists, Passed;
    assert ThreadOk(s, s.threads[step.w]);
    if step.SweepExpire? {
      SweptRowOk(store, s, t, s.threads[step.w].c);
    } else {
      MarkedRowOk(store, s, t, s.threads[step.w].c, step.Decide?, MarkOf(step));
    }
  }

  lemma MarksOneRow(store: Store, t: Table, id: string, accept: bool, status: Option<Status>, other: string)
    requires other in Marked(store, t, id, accept, status) && other != id
    ensures other in t && Marked(store, t, id, accept, status)[other] == t[other]
  {
  }

  lemma NewRowOk(store: Store, s: State, step: Step, id: string)
    requires Inv(s) && Enabled(s, step) && step.Join? && id in Next(store, s, step).table
    requires !(id in s.table && s.table[id] == Next(store, s, step).table[id])
    ensures RowOk(Next(store, s, step), id)
  {
    hide ThreadOk, GrantOk, SolvedOk, OnePending;
  }

  // The row a step leaves is the one it found, a new challenge, or the mark of a handler.
  lemma StepKeepsRow(store: Store, s: State, step: Step, id: string)
    requires Inv(s) && Enabled(s, step) && Extends(s, Next(store, s, step))
    requires id in Next(store, s, step).table
    ensures RowOk(Next(store, s, step), id)
  {
    hide RowOk, ThreadOk, GrantOk, SolvedOk, OnePending, Extends, Next, Marked, Created;
    var t := Next(store, s, step);
    TableChanges(store, s, step) by {
      NewIdFresh(s, step);
    }
    if id in s.table && s.table[id] == t.table[id] {
      RowKept(s, t, id);
    } else if step.Join? {
      NewRowOk(store, s, step, id);
    } else {
      if id != s.threads[step.w].c.id {
        MarksOneRow(store, s.table, s.threads[step.w].c.id, step.Decide?, MarkOf(step), id);
      }
      MarkedByHandlerOk(store, s, t, step);
    }
  }

  lemma NewIdFresh(s: State, step: Step)
    requires Enabled(s, step)
    ensures step.Join? ==> step.c.id !in s.created
  {
  }

  lemma SweptRowOk(store: Store, s: State, t: State, c: Challenge)
    requires Inv(s) && Extends(s, t) && SweepCopyOk(s, c) && t.created == s.created
    requires t.table == MarkedExpired(store, s.table, c.id)
    ensures c.id in t.table ==> RowOk(t, c.id)
  {
    hide ThreadOk, GrantOk, OnePending;
    if c.id in s.table {
      assert RowOk(s, c.id);
    }
  }

  // The copy a handler takes, and the copy it keeps after deciding, are in order.
  lemma NewCopyOk(s: State, id: string)
    requires Inv(s) && id in s.table && s.table[id].status == Pending
    ensures CopyOk(s, s.table[id]) && s.table[id].id == id
    ensures DueForSweep(s.table[id], s.now) ==> SweepCopyOk(s, s.table[id])
  {
    assert RowOk(s, id);
    hide ThreadOk, GrantOk, OnePending;
  }

  lemma AcceptedCopyOk(store: Store, before: Table, t: State, c: Challenge)
    requires CopyOk(t, c) && t.table == RulesAccepted(store, before, c.id) && c.id in t.accepted
    ensures CopyOk(t, c.(rulesAccepted := true))
  {
  }

  lemma DecidedThreadOk(store: Store, s: State, w: int)
    requires Enabled(s, Decide(w)) && ThreadOk(Next(store, s, Decide(w)), s.threads[w])
    requires w in Next(store, s, Decide(w)).threads
    ensures ThreadOk(Next(store, s, Decide(w)), Next(store, s, Decide(w)).threads[w])
  {
    hide TrimSpace, CopyOk, Marked;
    var t := Next(store, s, Decide(w));
    var h := s.threads[w];
    if RouteOf(h.c, h.action, h.answer) == ToAccept {
      assert t.table == RulesAccepted(store, s.table, h.c.id);
      AcceptedCopyOk(store, s.table, t, h.c);
    }
  }

  lemma StepKeepsThread(store: Store, s: State, step: Step, w: int)
    requires Inv(s) && Enabled(s, step) && Extends(s, Next(store, s, step))
    requires w in Next(store, s, step).threads
    ensures ThreadOk(Next(store, s, step), Next(store, s, step).threads[w])
  {
    hide Inv, Extends, RowOk, CopyOk, SweepCopyOk, Passed, Next, Enabled;
    var t := Next(store, s, step);
    if w !in s.threads {
      NewThreadOk(store, s, step, w);
    } else {
      HandlersOk(s, w);
      ThreadKept(s, t, s.threads[w]);
      if step == Decide(w) {
        DecidedThreadOk(store, s, w);
      } else {
        MovedThreadOk(store, s, step, w);
      }
    }
  }

  lemma HandlersOk(s: State, w: int)
    requires Inv(s) && w in s.threads
    ensures ThreadOk(s, s.threads[w])
  {
  }

  lemma MovedThreadOk(store: Store, s: State, step: Step, w: int)
    requires Enabled(s, step) && step != Decide(w) && w in s.threads && w in Next(store, s, step).threads
    requires ThreadOk(Next(store, s, step), s.threads[w])
    ensures ThreadOk(Next(store, s, step), Next(store, s, step).threads[w])
  {
    hide CopyOk, SweepCopyOk, Passed, Marked, RouteOf, Created, TrimSpace;
  }

  lemma NewThreadOk(store: Store, s: State, step: Step, w: int)
    requires Inv(s) && Enabled(s, step)
    requires w !in s.threads && w in Next(store, s, step).threads
    ensures ThreadOk(Next(store, s, step), Next(store, s, step).threads[w])
  {
    hide TrimSpace, GrantOk, OnePending, RowOk, RouteOf;
    if step.Callback? {
      NewCopyOk(s, step.id);
    } else {
      forall i | 0 <= i < |step.ids| ensures SweepCopyOk(s, s.table[step.ids[i]]) && s.table[step.ids[i]].id == step.ids[i] {
        NewCopyOk(s, step.ids[i]);
      }
    }
  }

  lemma StepKeepsSolved(store: Store, s: State, step: Step, id: string)
    requires Inv(s) && Enabled(s, step) && Extends(s, Next(store, s, step))
    requires id in Next(store, s, step).solved
    ensures SolvedOk(Next(store, s, step), id)
  {
    hide TrimSpace, OnePending, RowOk, GrantOk, Marked, RouteOf;
    if id in s.solved {
      assert SolvedOk(s, id);
    } else {
      assert ThreadOk(s, s.threads[step.w]);
    }
  }

  lemma StepKeepsGrant(store: Store, s: State, step: Step, i: nat)
    requires Inv(s) && Enabled(s, step)
    requires i < |Next(store, s, step).grants|
    ensures GrantOk(Next(store, s, step), Next(store, s, step).grants[i])
  {
    hide TrimSpace, OnePending, RowOk, Marked, RouteOf;
    if i < |s.grants| {
      assert GrantOk(s, s.grants[i]);
    } else {
      assert ThreadOk(s, s.threads[step.w]);
    }
  }

  lemma CreatedKeepsOnePending(t: Table, c: Challenge)
    requires OnePending(t)
    ensures OnePending(Created(t, c))
  {
  }

  lemma MarkedKeepsOnePending(store: Store, t: Table, id: string, accept: bool, status: Option<Status>)
    requires OnePending(t) && status != Some(Pending)
    ensures OnePending(Marked(store, t, id, accept, status))
  {
  }

  lemma StepKeepsOnePending(store: Store, s: State, step: Step)
    requires Inv(s) && Enabled(s, step)
    ensures OnePending(Next(store, s, step).table)
  {
    hide TrimSpace, GrantOk, RowOk, ThreadOk, OnePending, Marked, Created;
    TableChanges(store, s, step);
    hide Next;
    if step.Join? {
      CreatedKeepsOnePending(s.table, step.c);
    } else if Next(store, s, step).table != s.table {
      MarkedKeepsOnePending(store, s.table, s.threads[step.w].c.id, step.Decide?, MarkOf(step));
    }
  }

  lemma StepKeepsInv(store: Store, s: State, step: Step)
    requires Inv(s) && Enabled(s, step)
    ensures Inv(Next(store, s, step))
  {
    hide RowOk, ThreadOk, SolvedOk, GrantOk, OnePending, Next, Enabled, Extends;
    StepExtends(store, s, step);
    var t := Next(store, s, step);
    forall id | id in t.table ensures RowOk(t, id) {
      StepKeepsRow(store, s, step, id);
    }
    forall w | w in t.threads ensures ThreadOk(t, t.threads[w]) {
      StepKeepsThread(store, s, step, w);
    }
    forall id | id in t.solved ensures SolvedOk(t, id) {
      StepKeepsSolved(store, s, step, id);
    }
    forall i | 0 <= i < |t.grants| ensures GrantOk(t, t.grants[i]) {
      StepKeepsGrant(store, s, step, i);
    }
    StepKeepsOnePending(store, s, step);
    CreatedKeyed(store, s, step);
  }

  lemma CreatedKeyed(store: Store, s: State, step: Step)
    requires Inv(s) && Enabled(s, step)
    ensures var t := Next(store, s, step);
      forall id :: id in t.created ==> t.created[id].id == id && t.created[id].mode != NoMode
  {
    hide RowOk, ThreadOk, SolvedOk, GrantOk, OnePending, Marked, RouteOf, Created, TrimSpace;
  }

  lemma {:induction false} RunKeepsInv(store: Store, s: State, steps: seq<Step>, t: State)
    requires Inv(s) && Run(store, s, steps, t)
    ensures Inv(t)
    decreases |steps|
  {
    if steps != [] {
      StepKeepsInv(store, s, steps[0]);
      hide Inv, Next, Enabled;
      RunKeepsInv(store, Next(store, s, steps[0]), steps[1..], t);
    }
  }

  // ---------- What holds under every interleaving ----------

  // In every reachable state: a solved challenge that requires rules has them accepted; a
  // solved challenge with a question was handed its stored answer; the permission to send
  // was given back only for a challenge marked solved before, whose rules had been accepted and
  // whose question had been answered as far as it has them, or by a sweep that was due and
  // whose action is unmute; and a chat has at most one pending challenge per user.
  lemma CaptchaGates(store: Store, start: int, steps: seq<Step>, t: State)
    requires Run(store, Init(start), steps, t)
    ensures forall id :: id in t.table && id in t.created && t.table[id].status == Solved && SameChallenge(t.table[id], t.created[id]) ==>
      && (t.table[id].rulesRequired ==> t.table[id].rulesAccepted)
      && (TakesAnswer(t.table[id]) ==> (id, t.table[id].answer) in t.given)
    ensures forall i :: 0 <= i < |t.grants| ==>
      var g := t.grants[i];
      && g.id in t.created
      && (if g.bySweep then t.created[g.id].timeoutAction == Unmute && t.created[g.id].expiresAt <= g.at
          else
            && g.id in t.solved && (t.created[g.id].rulesRequired ==> g.id in t.accepted)
            && (TakesAnswer(t.created[g.id]) ==> (g.id, t.created[g.id].answer) in t.given))
    ensures OnePending(t.table)
  {
    RunKeepsInv(store, Init(start), steps, t);
    forall id | id in t.table ensures RowOk(t, id) {
    }
    forall i | 0 <= i < |t.grants| ensures GrantOk(t, t.grants[i]) && (!t.grants[i].bySweep ==> SolvedOk(t, t.grants[i].id)) {
    }
  }

  ghost predicate IsPending(s: State, id: string) {
    id in s.table && s.table[id].status == Pending
  }

  // A challenge leaves the pending state at most once: having left it, by a mark or by being
  // replaced, it never returns.
  lemma {:induction false} NeverPendingAgain(store: Store, s: State, steps: seq<Step>, t: State, id: string)
    requires Inv(s) && Run(store, s, steps, t)
    requires id in s.created && !IsPending(s, id)
    ensures !IsPending(t, id)
    decreases |steps|
  {
    if steps != [] {
      StepKeepsInv(store, s, steps[0]);
      StepNeverRevives(store, s, steps[0], id);
      hide Inv, Next, Enabled, IsPending;
      NeverPendingAgain(store, Next(store, s, steps[0]), steps[1..], t, id);
    }
  }

  lemma StepNeverRevives(store: Store, s: State, step: Step, id: string)
    requires Inv(s) && Enabled(s, step)
    requires id in s.created && !IsPending(s, id)
    ensures id in Next(store, s, step).created && !IsPending(Next(store, s, step), id)
  {
    hide TrimSpace, Inv, RouteOf;
  }

  // ---------- What needs handlers that run undisturbed ----------

  // A callback handled from its read to its last mark with nothing in between: the table it
  // leaves and whether it gives the permission to send.
  function Pressed(store: Store, t: Table, now: int, id: string, from: int, action: Action, answer: string): (Table, bool) {
    if id !in t || !Answerable(t[id], from, now) then (t, false)
    else
      match RouteOf(t[id], action, answer)
      case ToReply => (t, false)
      case ToComplete => (MarkedSolved(store, t, id), true)
      case ToFail => (MarkedExpired(store, t, id), false)
      case ToAccept =>
        var accepted := RulesAccepted(store, t, id);
        if t[id].mode == Button then (MarkedSolved(store, accepted, id), true) else (accepted, false)
  }

  // One challenge of a sweep.
  function Swept(store: Store, t: Table, now: int, id: string, telegramOk: bool): (Table, bool) {
    if id in t && DueForSweep(t[id], now) && telegramOk then (MarkedExpired(store, t, id), t[id].timeoutAction == Unmute)
    else (t, false)
  }

  datatype Operation =
    | Wait(d: nat)
    | JoinUser(c: Challenge)
    | Press(id: string, from: int, action: Action, answer: string)
    | Sweep(id: string, telegramOk: bool)

  // `used` are the ids ever created, `granted` the challenges that gave the permission.
  datatype Desk = Desk(now: int, table: Table, used: set<string>, granted: seq<string>)

  function Perform(store: Store, d: Desk, op: Operation): Desk {
    match op
    case Wait(n) => d.(now := d.now + n)
    case JoinUser(c) =>
      if c.id in d.used || c.status != Pending then d
      else d.(table := Created(d.table, c), used := d.used + {c.id})
    case Press(id, from, action, answer) =>
      var (t, give) := Pressed(store, d.table, d.now, id, from, action, answer);
      d.(table := t, granted := if give then d.granted + [id] else d.granted)
    case Sweep(id, telegramOk) =>
      var (t, give) := Swept(store, d.table, d.now, id, telegramOk);
      d.(table := t, granted := if give then d.granted + [id] else d.granted)
  }

  function PerformAll(store: Store, start: int, ops: seq<Operation>): Desk {
    if ops == [] then Desk(start, map[], {}, [])
    else Perform(store, PerformAll(store, start, ops[..|ops| - 1]), ops[|ops| - 1])
  }

  predicate Settled(d: Desk, id: string) {
    id in d.table ==> d.table[id].status != Pending
  }

  ghost predicate DeskOk(d: Desk) {
    && d.table.Keys <= d.used
    && (forall i :: 0 <= i < |d.granted| ==> d.granted[i] in d.used && Settled(d, d.granted[i]))
    && (forall i, j :: 0 <= i < j < |d.granted| ==> d.granted[i] != d.granted[j])
  }

  // An undisturbed handler leaves every settled challenge exactly as it is.
  lemma SettledStays(store: Store, d: Desk, op: Operation, id: string)
    requires d.table.Keys <= d.used && id in d.used && Settled(d, id)
    ensures Settled(Perform(store, d, op), id)
    ensures id in d.table ==> id in Perform(store, d, op).table && Perform(store, d, op).table[id] == d.table[id]
    ensures Perform(store, d, op).table.Keys <= Perform(store, d, op).used && d.used <= Perform(store, d, op).used
  {
    hide RouteOf;
  }

  // The permission is given for a challenge that was pending before and is not afterwards.
  lemma GrantSettles(store: Store, d: Desk, op: Operation)
    ensures var e := Perform(store, d, op);
      || e.granted == d.granted
      || exists id :: e.granted == d.granted + [id] && id in d.table && d.table[id].status == Pending && Settled(e, id)
  {
    hide TrimSpace;
  }

  lemma PerformStaysOk(store: Store, d: Desk, op: Operation)
    requires DeskOk(d)
    ensures DeskOk(Perform(store, d, op))
  {
    var e := Perform(store, d, op);
    GrantSettles(store, d, op);
    forall i | 0 <= i < |d.granted| ensures Settled(e, d.granted[i]) && d.granted[i] in e.used {
      SettledStays(store, d, op, d.granted[i]);
    }
    assert e.table.Keys <= e.used && d.used <= e.used by {
      hide RouteOf;
    }
    hide Perform;
  }

  lemma {:induction false} DeskStaysOk(store: Store, start: int, ops: seq<Operation>)
    ensures DeskOk(PerformAll(store, start, ops))
  {
    if ops != [] {
      DeskStaysOk(store, start, ops[..|ops| - 1]);
      PerformStaysOk(store, PerformAll(store, start, ops[..|ops| - 1]), ops[|ops| - 1]);
    }
  }

  // With handlers that run undisturbed, a challenge that is solved or expired stays so with
  // every field it has, and gives the permission to send at most once.
  lemma {:induction false} UndisturbedHandlersSettle(store: Store, start: int, ops: seq<Operation>, more: seq<Operation>, id: string)
    requires id in PerformAll(store, start, ops).table && PerformAll(store, start, ops).table[id].status != Pending
    ensures id in PerformAll(store, start, ops + more).table
    ensures PerformAll(store, start, ops + more).table[id] == PerformAll(store, start, ops).table[id]
    ensures forall i, j :: 0 <= i < j < |PerformAll(store, start, ops + more).granted| ==>
      PerformAll(store, start, ops + more).granted[i] != PerformAll(store, start, ops + more).granted[j]
  {
    DeskStaysOk(store, start, ops + more);
    if more == [] {
      assert ops + more == ops;
    } else {
      var front := more[..|more| - 1];
      assert (ops + more)[..|ops + more| - 1] == ops + front;
      UndisturbedHandlersSettle(store, start, ops, front, id);
      DeskStaysOk(store, start, ops + front);
      SettledStays(store, PerformAll(store, start, ops + front), more[|more| - 1], id);
    }
  }

  lemma {:induction false} RunThen(store: Store, s: State, steps: seq<Step>, t: State, step: Step)
    requires Run(store, s, steps, t) && Enabled(t, step)
    ensures Run(store, s, steps + [step], Next(store, t, step))
    decreases |steps|
  {
    hide Next, Enabled;
    if steps == [] {
      assert ([step])[1..] == [] && steps + [step] == [step];
    } else {
      RunThen(store, Next(store, s, steps[0]), steps[1..], t, step);
      assert (steps + [step])[1..] == steps[1..] + [step];
    }
  }

  lemma RunOf(store: Store, s: State, step: Step)
    requires Enabled(s, step)
    ensures Run(store, s, [step], Next(store, s, step))
  {
    hide Next, Enabled;
    RunThen(store, s, [], s, step);
    assert [] + [step] == [step];
  }

  lemma CompletesAlone(store: Store, s: State, steps: seq<Step>, mid: State, c: Challenge) returns (more: seq<Step>, t: State)
    requires Run(store, s, steps, mid) && mid.threads == map[0 := Completing(c)]
    ensures Run(store, s, more, t) && t.threads == map[]
    ensures t.table == MarkedSolved(store, mid.table, c.id) && t.grants == mid.grants + [Grant(c.id, false, mid.now)]
  {
    hide Run, Marked;
    var solved := Next(store, mid, Solve(0));
    RunThen(store, s, steps, mid, Solve(0));
    RunThen(store, s, steps + [Solve(0)], solved, GiveBack(0));
    more, t := steps + [Solve(0)] + [GiveBack(0)], Next(store, solved, GiveBack(0));
    assert t.threads == map[];
  }

  lemma FailsAlone(store: Store, s: State, steps: seq<Step>, mid: State, c: Challenge) returns (more: seq<Step>, t: State)
    requires Run(store, s, steps, mid) && mid.threads == map[0 := Failing(c)]
    ensures Run(store, s, more, t) && t.threads == map[]
    ensures t.table == MarkedExpired(store, mid.table, c.id) && t.grants == mid.grants
  {
    hide Run, Marked;
    var banned := Next(store, mid, Ban(0));
    RunThen(store, s, steps, mid, Ban(0));
    RunThen(store, s, steps + [Ban(0)], banned, Expire(0));
    more, t := steps + [Ban(0)] + [Expire(0)], Next(store, banned, Expire(0));
    assert t.threads == map[];
  }

  // Undisturbed handlers are runs of the interleaved system, so the gates hold for them too.
  lemma PressIsARun(store: Store, s: State, id: string, from: int, action: Action, answer: string) returns (steps: seq<Step>, t: State)
    requires Inv(s) && s.threads == map[]
    ensures Run(store, s, steps, t) && t.threads == map[]
    ensures t.table == Pressed(store, s.table, s.now, id, from, action, answer).0
    ensures t.grants == if Pressed(store, s.table, s.now, id, from, action, answer).1 then s.grants + [Grant(id, false, s.now)] else s.grants
  {
    hide TrimSpace, Run, Marked, RowOk, ThreadOk, GrantOk, OnePending;
    var read := Callback(0, id, from, action, answer);
    steps, t := [read], Next(store, s, read);
    RunOf(store, s, read);
    if id in s.table && Answerable(s.table[id], from, s.now) {
      NewCopyOk(s, id);
      hide Inv, CopyOk, SweepCopyOk;
      assert t.threads == map[0 := Checked(s.table[id], action, answer)];
      RunThen(store, s, steps, t, Decide(0));
      steps, t := steps + [Decide(0)], Next(store, t, Decide(0));
      hide Next, Enabled;
      match RouteOf(s.table[id], action, answer)
      case ToReply =>
      case ToFail => steps, t := FailsAlone(store, s, steps, t, s.table[id]);
      case ToComplete => steps, t := CompletesAlone(store, s, steps, t, s.table[id]);
      case ToAccept =>
        if s.table[id].mode == Button {
          steps, t := CompletesAlone(store, s, steps, t, s.table[id].(rulesAccepted := true));
        }
    }
  }

  // When handlers do overlap, marks overwrite each other: while one handler of a user is
  // about to act on a wrong answer another completes the challenge, and the solved challenge
  // ends up expired.
  lemma OverlappingHandlersOverwrite(store: Store) returns (first: seq<Step>, before: State, second: seq<Step>, t: State)
    ensures Run(store, Init(0), first, before) && Run(store, before, second, t)
    ensures exists id :: id in before.table && before.table[id].status == Solved && id in t.table && t.table[id].status == Expired
  {
    hide TrimSpace, Run;
    first, before := BothDecided(store);
    var c := before.threads[1].c;
    RunThen(store, Init(0), first, before, Solve(2));
    first, before := first + [Solve(2)], Next(store, before, Solve(2));
    var banned := Next(store, before, Ban(1));
    RunOf(store, before, Ban(1));
    RunThen(store, before, [Ban(1)], banned, Expire(1));
    second, t := [Ban(1)] + [Expire(1)], Next(store, banned, Expire(1));
    assert before.table["c"].status == Solved && t.table["c"].status == Expired;
  }

  lemma BothRead(store: Store, c: Challenge) returns (steps: seq<Step>, t: State)
    requires c == Challenge("c", Owner("b", 1, 2), "7", 10, Pending, Math, false, false, Kick)
    ensures Run(store, Init(0), steps, t) && t.table == map["c" := c]
    ensures t.threads == map[1 := Checked(c, GiveAnswer, "8"), 2 := Checked(c, GiveAnswer, "7")]
  {
    hide Run, RouteOf;
    RunOf(store, Init(0), Join(c));
    steps, t := [Join(c)], Next(store, Init(0), Join(c));
    assert t.table == map["c" := c];
    var wrong, right := Callback(1, "c", 2, GiveAnswer, "8"), Callback(2, "c", 2, GiveAnswer, "7");
    RunThen(store, Init(0), steps, t, wrong);
    steps, t := steps + [wrong], Next(store, t, wrong);
    RunThen(store, Init(0), steps, t, right);
    steps, t := steps + [right], Next(store, t, right);
  }

  lemma AnswersRoute(c: Challenge, answer: string)
    requires !c.rulesRequired && |answer| == 1 && !IsSpace(answer[0])
    ensures RouteOf(c, GiveAnswer, answer) == if answer == c.answer then ToComplete else ToFail
  {
    TrimSpaceTrimmed(answer);
    hide TrimSpace;
  }

  lemma BothDecided(store: Store) returns (steps: seq<Step>, t: State)
    ensures Run(store, Init(0), steps, t)
    ensures t.table.Keys == {"c"} && t.threads.Keys == {1, 2}
    ensures t.threads[1].Failing? && t.threads[2].Completing? && t.threads[1].c == t.threads[2].c == t.table["c"]
    ensures t.table["c"].id == "c"
  {
    hide TrimSpace, Run, RouteOf, Next;
    var c := Challenge("c", Owner("b", 1, 2), "7", 10, Pending, Math, false, false, Kick);
    steps, t := BothRead(store, c);
    AnswersRoute(c, "8");
    DecideOutcome(store, t, 1);
    RunThen(store, Init(0), steps, t, Decide(1));
    steps, t := steps + [Decide(1)], Next(store, t, Decide(1));
    AnswersRoute(c, "7");
    DecideOutcome(store, t, 2);
    RunThen(store, Init(0), steps, t, Decide(2));
    steps, t := steps + [Decide(2)], Next(store, t, Decide(2));
  }

  lemma DecideOutcome(store: Store, s: State, w: int)
    requires w in s.threads && s.threads[w].Checked?
    ensures var h := s.threads[w];
      var route := RouteOf(h.c, h.action, h.answer);
      && (route == ToFail ==> Next(store, s, Decide(w)) == s.(threads := s.threads[w := Failing(h.c)]))
      && (route == ToComplete ==> Next(store, s, Decide(w)) == s.(threads := s.threads[w := Completing(h.c)]))
  {
    hide RouteOf;
  }
}
