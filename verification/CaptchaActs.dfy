// Who solves a challenge: every mark and every permission goes back to something the
// challenge's own user did in time, or to a sweep that was due.
module CaptchaActs {
  import opened Text
  import opened CaptchaProtocol

  // The challenge's own user did this, and not too late: after the expiry only challenges
  // without a timeout action are still open.
  predicate OwnInTime(s: State, a: Act) {
    && a.id in s.created && a.from == s.created[a.id].owner.userId && a.at <= s.now
    && (a.at <= s.created[a.id].expiresAt || s.created[a.id].timeoutAction == NoAction)
  }

  // A callback has an effect iff it comes from the challenge's own user while the challenge is
  // pending and not overdue: then, and only then, a handler takes a copy of the challenge.
  lemma TakenUpIff(store: Store, s: State, w: int, id: string, from: int, action: Action, answer: string)
    requires Enabled(s, Callback(w, id, from, action, answer))
    ensures var t := Next(store, s, Callback(w, id, from, action, answer));
      && t.table == s.table && t.grants == s.grants
      && (t == s || t.threads == s.threads[w := Checked(s.table[id], action, answer)])
      && (t != s <==>
            && id in s.table && s.table[id].status == Pending && s.table[id].owner.userId == from
            && (s.now <= s.table[id].expiresAt || s.table[id].timeoutAction == NoAction))
  {
  }

  // ---------- What goes back to what ----------

  ghost predicate Did(s: State, id: string, action: Action, answer: string) {
    exists a :: a in s.acts && a.id == id && a.action == action && a.answer == answer
  }

  ghost predicate AcceptedRules(s: State, id: string) {
    exists a :: a in s.acts && a.id == id && a.action == AcceptRules
  }

  // What solves a challenge: a press, where there is nothing to answer, or the stored answer.
  predicate Solves(s: State, a: Act, id: string) {
    && a in s.acts && a.id == id && id in s.created
    && if a.action == GiveAnswer then a.answer == s.created[id].answer else s.created[id].mode == Button
  }

  ghost predicate SolvedBy(s: State, id: string, until: int) {
    exists a :: Solves(s, a, id) && a.at <= until
  }

  ghost predicate WrongAnswer(s: State, id: string) {
    exists a :: a in s.acts && a.id == id && id in s.created && a.action == GiveAnswer && a.answer != s.created[id].answer
  }

  // Why a challenge may have expired.
  ghost predicate Failed(s: State, id: string) {
    WrongAnswer(s, id) || (id in s.created && s.created[id].expiresAt <= s.now)
  }

  ghost predicate RowWitnessed(s: State, id: string)
    requires id in s.table
  {
    id in s.created && SameChallenge(s.table[id], s.created[id]) ==>
      && (s.table[id].status == Solved ==> SolvedBy(s, id, s.now))
      && (s.table[id].status == Expired ==> Failed(s, id))
  }

  ghost predicate ThreadWitnessed(s: State, h: Thread) {
    match h
    case Checked(c, action, answer) => Did(s, c.id, action, answer)
    case Completing(c) => SolvedBy(s, c.id, s.now)
    case Granting(c) => SolvedBy(s, c.id, s.now)
    case Failing(c) => Failed(s, c.id)
    case FailMarking(c) => Failed(s, c.id)
    case Sweeping(_) => true
    case SweepMarking(c, _) => Failed(s, c.id)
  }

  ghost predicate GrantWitnessed(s: State, g: Grant) {
    g.at <= s.now && (!g.bySweep ==> SolvedBy(s, g.id, g.at))
  }

  ghost predicate Witnessed(s: State) {
    && (forall a :: a in s.acts ==> OwnInTime(s, a))
    && (forall id :: id in s.accepted ==> AcceptedRules(s, id))
    && (forall id :: id in s.table ==> RowWitnessed(s, id))
    && (forall w :: w in s.threads ==> ThreadWitnessed(s, s.threads[w]))
    && (forall i :: 0 <= i < |s.grants| ==> GrantWitnessed(s, s.grants[i]))
  }

  // History that only grows keeps its witnesses.
  ghost predicate ActsGrow(s: State, t: State) {
    && s.now <= t.now && s.acts <= t.acts
    && forall id :: id in s.created ==> id in t.created && t.created[id] == s.created[id]
  }

  lemma StepActs(store: Store, s: State, step: Step)
    requires Inv(s) && Enabled(s, step)
    ensures ActsGrow(s, Next(store, s, step))
  {
    hide RouteOf, Marked, Created, RowOk, ThreadOk, GrantOk, SolvedOk, OnePending;
  }

  lemma WitnessKept(s: State, t: State, id: string, until: int)
    requires ActsGrow(s, t)
    ensures SolvedBy(s, id, until) ==> SolvedBy(t, id, until) && (until <= s.now ==> SolvedBy(t, id, t.now))
    ensures Failed(s, id) ==> Failed(t, id)
    ensures AcceptedRules(s, id) ==> AcceptedRules(t, id)
  {
    if SolvedBy(s, id, until) {
      var a :| Solves(s, a, id) && a.at <= until;
      assert Solves(t, a, id);
    }
  }

  lemma ThreadStaysWitnessed(s: State, t: State, h: Thread)
    requires ActsGrow(s, t) && ThreadWitnessed(s, h)
    ensures ThreadWitnessed(t, h)
  {
    hide SolvedBy, Failed, AcceptedRules;
    if !h.Sweeping? {
      WitnessKept(s, t, h.c.id, s.now);
    }
  }

  // ---------- One step ----------

  lemma TakenUpInTime(store: Store, s: State, step: Step)
    requires Inv(s) && Enabled(s, step) && (forall a :: a in s.acts ==> OwnInTime(s, a))
    ensures forall a :: a in Next(store, s, step).acts ==> OwnInTime(Next(store, s, step), a)
  {
    StepActs(store, s, step);
    if step.Callback? && step.id in s.table {
      assert RowOk(s, step.id);
    }
    hide RouteOf, Marked, Created, RowOk, ThreadOk, GrantOk, SolvedOk, OnePending;
  }

  lemma NewAcceptance(store: Store, s: State, step: Step, id: string)
    requires Enabled(s, step) && id in Next(store, s, step).accepted && id !in s.accepted
    ensures step.Decide? && s.threads[step.w].c.id == id && s.threads[step.w].action == AcceptRules
    ensures Next(store, s, step).acts == s.acts
  {
    hide Marked, Created, TrimSpace;
  }

  lemma AcceptanceWitnessed(store: Store, s: State, step: Step, id: string)
    requires Inv(s) && Enabled(s, step) && Witnessed(s) && id in Next(store, s, step).accepted
    ensures AcceptedRules(Next(store, s, step), id)
  {
    hide Inv, Next, SolvedBy, Failed, RowWitnessed, GrantWitnessed, OwnInTime;
    if id in s.accepted {
      StepActs(store, s, step);
      WitnessKept(s, Next(store, s, step), id, s.now);
    } else {
      NewAcceptance(store, s, step, id);
      assert ThreadWitnessed(s, s.threads[step.w]);
    }
  }

  // A decision to complete or to fail has its reason in what was done.
  lemma DecisionWitnessed(s: State, c: Challenge, action: Action, answer: string)
    requires CopyOk(s, c) && Did(s, c.id, action, answer) && (forall a :: a in s.acts ==> OwnInTime(s, a))
    ensures var route := RouteOf(c, action, answer);
      && (route == ToComplete || (route == ToAccept && c.mode == Button) ==> SolvedBy(s, c.id, s.now))
      && (route == ToFail ==> Failed(s, c.id))
  {
    hide TrimSpace;
    var a :| a in s.acts && a.id == c.id && a.action == action && a.answer == answer;
    assert OwnInTime(s, a);
    assert RouteOf(c, action, answer) == ToComplete || (RouteOf(c, action, answer) == ToAccept && c.mode == Button) ==> Solves(s, a, c.id);
  }

  lemma HandlerDecides(store: Store, s: State, w: int)
    requires Inv(s) && Enabled(s, Decide(w)) && Witnessed(s) && w in Next(store, s, Decide(w)).threads
    ensures ThreadWitnessed(Next(store, s, Decide(w)), Next(store, s, Decide(w)).threads[w])
  {
    var t, h := Next(store, s, Decide(w)), s.threads[w];
    assert ThreadOk(s, h) && ThreadWitnessed(s, h);
    StepActs(store, s, Decide(w));
    DecisionWitnessed(s, h.c, h.action, h.answer);
    WitnessKept(s, t, h.c.id, s.now);
    hide Inv, Witnessed, RouteOf, Marked, Created, CopyOk, SolvedBy, WrongAnswer, Failed, Did;
  }

  lemma MovedThreadWitnessed(store: Store, s: State, step: Step, w: int)
    requires Enabled(s, step) && step != Decide(w) && w in s.threads && w in Next(store, s, step).threads
    requires ThreadWitnessed(Next(store, s, step), s.threads[w])
    requires step.SweepOne? && step.w == w ==> Failed(Next(store, s, step), s.threads[w].todo[0].id)
    ensures ThreadWitnessed(Next(store, s, step), Next(store, s, step).threads[w])
  {
    hide SolvedBy, Failed, Did, RouteOf, Marked, Created, TrimSpace;
  }

  lemma HandlerMoves(store: Store, s: State, step: Step, w: int)
    requires Inv(s) && Enabled(s, step) && Witnessed(s) && w in s.threads && w in Next(store, s, step).threads
    ensures ThreadWitnessed(Next(store, s, step), Next(store, s, step).threads[w])
  {
    var t, h := Next(store, s, step), s.threads[w];
    if step == Decide(w) {
      HandlerDecides(store, s, w);
    } else {
      assert ThreadOk(s, h) && ThreadWitnessed(s, h);
      StepActs(store, s, step);
      hide Next, Inv, Witnessed;
      ThreadStaysWitnessed(s, t, h);
      MovedThreadWitnessed(store, s, step, w);
    }
  }

  lemma ThreadGetsWitness(store: Store, s: State, step: Step, w: int)
    requires Inv(s) && Enabled(s, step) && Witnessed(s) && w in Next(store, s, step).threads
    ensures ThreadWitnessed(Next(store, s, step), Next(store, s, step).threads[w])
  {
    if w in s.threads {
      HandlerMoves(store, s, step, w);
    } else {
      hide Witnessed, RouteOf, Marked, Created, RowOk, ThreadOk, GrantOk, SolvedOk, OnePending;
      if step.Callback? {
        NewCopyOk(s, step.id);
        assert Act(step.id, step.from, step.action, step.answer, s.now) in Next(store, s, step).acts;
      }
      hide Inv;
    }
  }

  // The marks of handlers whose reasons are known.
  lemma MarkedRowWitnessed(store: Store, s: State, t: State, c: Challenge, accept: bool, status: Option<Status>)
    requires ActsGrow(s, t) && t.created == s.created && c.id in s.created
    requires c.id in s.table ==> RowWitnessed(s, c.id)
    requires t.table == Marked(store, s.table, c.id, accept, status)
    requires status == Some(Solved) ==> SolvedBy(s, c.id, s.now)
    requires status == Some(Expired) ==> Failed(s, c.id)
    ensures c.id in t.table ==> RowWitnessed(t, c.id)
  {
    WitnessKept(s, t, c.id, s.now);
    hide SolvedBy, Failed, AcceptedRules;
  }

  lemma MarkGetsWitness(store: Store, s: State, step: Step, id: string)
    requires Inv(s) && Enabled(s, step) && Witnessed(s) && Marks(step) && id in Next(store, s, step).table
    requires Next(store, s, step).table == Marked(store, s.table, s.threads[step.w].c.id, step.Decide?, MarkOf(step))
    requires Next(store, s, step).created == s.created
    requires !(id in s.table && s.table[id] == Next(store, s, step).table[id])
    ensures RowWitnessed(Next(store, s, step), id)
  {
    var t, h := Next(store, s, step), s.threads[step.w];
    StepActs(store, s, step);
    hide SolvedBy, Failed, AcceptedRules, Inv, Marked, Next, RowWitnessed;
    HandlerCreated(s, step.w);
    assert ThreadWitnessed(s, h);
    if id != h.c.id {
      MarksOneRow(store, s.table, h.c.id, step.Decide?, MarkOf(step), id);
    }
    MarkReasons(s, step);
    MarkedRowWitnessed(store, s, t, h.c, step.Decide?, MarkOf(step));
  }

  lemma RowGetsWitness(store: Store, s: State, step: Step, id: string)
    requires Inv(s) && Enabled(s, step) && Witnessed(s) && id in Next(store, s, step).table
    ensures RowWitnessed(Next(store, s, step), id)
  {
    var t := Next(store, s, step);
    StepActs(store, s, step);
    WitnessKept(s, t, id, s.now);
    hide SolvedBy, Failed, AcceptedRules, Inv, Created, Marked, Next, Enabled;
    TableChanges(store, s, step) by {
      NewIdFresh(s, step);
    }
    if id in s.table && s.table[id] == t.table[id] {
      assert RowWitnessed(s, id);
      RowCreated(s, id);
    } else if step.Join? {
      NewRowPending(store, s, step, id);
    } else {
      MarkGetsWitness(store, s, step, id);
    }
  }

  lemma RowCreated(s: State, id: string)
    requires Inv(s) && id in s.table
    ensures id in s.created
  {
    assert RowOk(s, id);
  }

  lemma NewRowPending(store: Store, s: State, step: Step, id: string)
    requires Inv(s) && Enabled(s, step) && step.Join? && id in Next(store, s, step).table
    requires !(id in s.table && s.table[id] == Next(store, s, step).table[id])
    ensures Next(store, s, step).table[id].status == Pending
  {
    hide Inv;
  }

  lemma HandlerCreated(s: State, w: int)
    requires Inv(s) && w in s.threads && !s.threads[w].Sweeping?
    ensures s.threads[w].c.id in s.created
  {
    assert ThreadOk(s, s.threads[w]);
  }

  lemma MarkReasons(s: State, step: Step)
    requires Enabled(s, step) && Marks(step) && ThreadWitnessed(s, s.threads[step.w])
    ensures MarkOf(step) == Some(Solved) ==> SolvedBy(s, s.threads[step.w].c.id, s.now)
    ensures MarkOf(step) == Some(Expired) ==> Failed(s, s.threads[step.w].c.id)
  {
    hide SolvedBy, Failed, Did;
  }

  lemma GrantGetsWitness(store: Store, s: State, step: Step, i: nat)
    requires Inv(s) && Enabled(s, step) && Witnessed(s) && i < |Next(store, s, step).grants|
    ensures GrantWitnessed(Next(store, s, step), Next(store, s, step).grants[i])
  {
    var t := Next(store, s, step);
    StepActs(store, s, step);
    hide Inv, RouteOf, Marked, Created, SolvedBy, Failed, Did;
    if i < |s.grants| {
      assert GrantWitnessed(s, s.grants[i]);
      WitnessKept(s, t, s.grants[i].id, s.grants[i].at);
    } else {
      assert ThreadWitnessed(s, s.threads[step.w]);
      WitnessKept(s, t, t.grants[i].id, s.now);
    }
  }

  lemma StepStaysWitnessed(store: Store, s: State, step: Step)
    requires Inv(s) && Enabled(s, step) && Witnessed(s)
    ensures Witnessed(Next(store, s, step))
  {
    hide Inv, Next, Enabled, RowWitnessed, ThreadWitnessed, GrantWitnessed, OwnInTime, AcceptedRules;
    var t := Next(store, s, step);
    TakenUpInTime(store, s, step);
    forall id | id in t.accepted ensures AcceptedRules(t, id) {
      AcceptanceWitnessed(store, s, step, id);
    }
    forall id | id in t.table ensures RowWitnessed(t, id) {
      RowGetsWitness(store, s, step, id);
    }
    forall w | w in t.threads ensures ThreadWitnessed(t, t.threads[w]) {
      ThreadGetsWitness(store, s, step, w);
    }
    forall i | 0 <= i < |t.grants| ensures GrantWitnessed(t, t.grants[i]) {
      GrantGetsWitness(store, s, step, i);
    }
  }

  lemma {:induction false} RunStaysWitnessed(store: Store, s: State, steps: seq<Step>, t: State)
    requires Inv(s) && Witnessed(s) && Run(store, s, steps, t)
    ensures Inv(t) && Witnessed(t)
    decreases |steps|
  {
    if steps != [] {
      StepKeepsInv(store, s, steps[0]);
      StepStaysWitnessed(store, s, steps[0]);
      hide Inv, Witnessed, Next, Enabled;
      RunStaysWitnessed(store, Next(store, s, steps[0]), steps[1..], t);
    }
  }

  // ---------- The gates, with who passed them and when ----------

  // Under every interleaving: whatever was taken up was done by the challenge's own user in
  // time. A solved challenge was solved by such an act, a press for a button and the stored
  // answer otherwise, after the rules were accepted by such an act if it has any; so was every
  // challenge that gave the permission, other than by a sweep. An expired one is overdue or
  // was given a wrong answer by its own user.
  lemma GatesPassedByOwnUser(store: Store, start: int, steps: seq<Step>, t: State)
    requires Run(store, Init(start), steps, t)
    ensures forall a :: a in t.acts ==> OwnInTime(t, a)
    ensures forall id :: id in t.table && id in t.created && SameChallenge(t.table[id], t.created[id]) ==>
      && (t.table[id].status == Solved ==>
            SolvedBy(t, id, t.now) && (t.created[id].rulesRequired ==> AcceptedRules(t, id)))
      && (t.table[id].status == Expired ==> t.created[id].expiresAt <= t.now || WrongAnswer(t, id))
    ensures forall i :: 0 <= i < |t.grants| && !t.grants[i].bySweep ==>
      var g := t.grants[i];
      g.id in t.created && SolvedBy(t, g.id, g.at) && (t.created[g.id].rulesRequired ==> AcceptedRules(t, g.id))
  {
    RunStaysWitnessed(store, Init(start), steps, t);
    hide Run, SolvedBy, AcceptedRules, WrongAnswer, OwnInTime;
    forall id | id in t.table && id in t.created && SameChallenge(t.table[id], t.created[id])
      ensures t.table[id].status == Solved ==> SolvedBy(t, id, t.now) && (t.created[id].rulesRequired ==> AcceptedRules(t, id))
    {
      assert RowOk(t, id) && RowWitnessed(t, id);
    }
    forall i | 0 <= i < |t.grants| && !t.grants[i].bySweep
      ensures var g := t.grants[i];
        g.id in t.created && SolvedBy(t, g.id, g.at) && (t.created[g.id].rulesRequired ==> AcceptedRules(t, g.id))
    {
      assert GrantOk(t, t.grants[i]) && GrantWitnessed(t, t.grants[i]) && SolvedOk(t, t.grants[i].id);
    }
  }
}
