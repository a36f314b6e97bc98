// When a challenge that has left the pending state stays as it is, and when it can no longer
// give the permission to send twice: exact conditions on the handlers in flight, whose copies
// may be older than the table.
module CaptchaSettlement {
  import opened Text
  import opened CaptchaProtocol

  // ---------- Settled rows ----------

  // A mark that a handler with this copy may still set would change the row of `id`.
  predicate Harms(row: Challenge, id: string, h: Thread) {
    match h
    case Checked(c, action, answer) =>
      && c.id == id
      && (match RouteOf(c, action, answer)
          case ToReply => false
          case ToAccept => !row.rulesAccepted || (c.mode == Button && row.status != Solved)
          case ToComplete => row.status != Solved
          case ToFail => row.status != Expired)
    case Completing(c) => c.id == id && row.status != Solved
    case Granting(_) => false
    case Failing(c) => c.id == id && row.status != Expired
    case FailMarking(c) => c.id == id && row.status != Expired
    case Sweeping(todo) => Lists(todo, id) && row.status != Expired
    case SweepMarking(c, todo) => (c.id == id || Lists(todo, id)) && row.status != Expired
  }

  ghost predicate Threatened(s: State, id: string) {
    id in s.table && exists w :: w in s.threads && Harms(s.table[id], id, s.threads[w])
  }

  ghost predicate SettledRow(s: State, id: string) {
    id in s.table && s.table[id].status != Pending
  }

  // ---------- A row that nobody threatens ----------

  lemma MarkHarmless(store: Store, s: State, step: Step, id: string)
    requires Inv(s) && Enabled(s, step) && Marks(step) && SettledRow(s, id) && !Threatened(s, id)
    requires Next(store, s, step).table == Marked(store, s.table, s.threads[step.w].c.id, step.Decide?, MarkOf(step))
    requires step.Decide? ==> RouteOf(s.threads[step.w].c, s.threads[step.w].action, s.threads[step.w].answer) == ToAccept
    ensures id in Next(store, s, step).table && Next(store, s, step).table[id] == s.table[id]
  {
    hide Inv, RouteOf, Next;
    assert !Harms(s.table[id], id, s.threads[step.w]);
  }

  // Only an acceptance of the rules marks at the moment of the decision.
  lemma DecideMarks(store: Store, s: State, w: int)
    requires Enabled(s, Decide(w))
    ensures Next(store, s, Decide(w)).table != s.table ==>
      RouteOf(s.threads[w].c, s.threads[w].action, s.threads[w].answer) == ToAccept
  {
    hide RouteOf, Marked;
  }

  lemma StepKeepsRowAsIs(store: Store, s: State, step: Step, id: string)
    requires Inv(s) && Enabled(s, step) && SettledRow(s, id) && !Threatened(s, id)
    ensures id in Next(store, s, step).table && Next(store, s, step).table[id] == s.table[id]
  {
    hide ThreadOk, GrantOk, SolvedOk, OnePending, Marked, RouteOf, Threatened;
    assert RowOk(s, id);
    TableChanges(store, s, step);
    if step.Decide? {
      DecideMarks(store, s, step.w);
    }
    if !step.Join? && Next(store, s, step).table != s.table {
      hide Inv, Next, RowOk;
      MarkHarmless(store, s, step, id);
    }
  }

  lemma ShorterList(todo: seq<Challenge>, id: string)
    requires todo != []
    ensures Lists(todo, id) <==> todo[0].id == id || Lists(todo[1..], id)
  {
    if Lists(todo, id) && todo[0].id != id {
      var i :| 0 <= i < |todo| && todo[i].id == id;
      assert todo[1..][i - 1].id == id;
    }
    if Lists(todo[1..], id) {
      var i :| 0 <= i < |todo[1..]| && todo[1..][i].id == id;
      assert todo[i + 1].id == id;
    }
  }

  // A handler that is harmless stays so, and a new one reads only pending challenges.
  lemma StepAddsNoHarm(store: Store, s: State, step: Step, id: string, w: int)
    requires Inv(s) && Enabled(s, step) && SettledRow(s, id) && !Threatened(s, id)
    requires w in Next(store, s, step).threads
    ensures !Harms(s.table[id], id, Next(store, s, step).threads[w])
  {
    hide ThreadOk, GrantOk, SolvedOk, OnePending, Marked, RowOk, TrimSpace;
    if w in s.threads {
      assert !Harms(s.table[id], id, s.threads[w]);
      if step.SweepOne? && step.w == w {
        ShorterList(s.threads[w].todo, id);
      }
      hide Inv, Lists;
    } else {
      hide RouteOf;
      if step.Callback? {
        NewCopyOk(s, step.id);
      } else {
        forall i | 0 <= i < |step.ids| ensures s.table[step.ids[i]].id == step.ids[i] != id {
          NewCopyOk(s, step.ids[i]);
        }
      }
      hide Inv, CopyOk, SweepCopyOk;
    }
  }

  lemma StepStaysUnthreatened(store: Store, s: State, step: Step, id: string)
    requires Inv(s) && Enabled(s, step) && SettledRow(s, id) && !Threatened(s, id)
    ensures SettledRow(Next(store, s, step), id) && !Threatened(Next(store, s, step), id)
    ensures Next(store, s, step).table[id] == s.table[id]
  {
    hide Inv, Next, Enabled, Harms;
    var t := Next(store, s, step);
    StepKeepsRowAsIs(store, s, step, id);
    forall w | w in t.threads ensures !Harms(t.table[id], id, t.threads[w]) {
      StepAddsNoHarm(store, s, step, id, w);
    }
  }

  lemma {:induction false} UnthreatenedStays(store: Store, s: State, steps: seq<Step>, t: State, id: string)
    requires Inv(s) && Run(store, s, steps, t) && SettledRow(s, id) && !Threatened(s, id)
    ensures id in t.table && t.table[id] == s.table[id]
    decreases |steps|
  {
    hide Inv, Next, Enabled, Threatened;
    if steps != [] {
      StepKeepsInv(store, s, steps[0]);
      StepStaysUnthreatened(store, s, steps[0], id);
      UnthreatenedStays(store, Next(store, s, steps[0]), steps[1..], t, id);
    }
  }

  // ---------- A threat can be carried out ----------

  lemma {:induction false} RunThenRun(store: Store, s: State, first: seq<Step>, t: State, second: seq<Step>, u: State)
    requires Run(store, s, first, t) && Run(store, t, second, u)
    ensures Run(store, s, first + second, u)
    decreases |first|
  {
    hide Next, Enabled;
    if first == [] {
      assert first + second == second;
    } else {
      RunThenRun(store, Next(store, s, first[0]), first[1..], t, second, u);
      assert (first + second)[1..] == first[1..] + second;
    }
  }

  // One more step at the front of a run.
  lemma StepThenRun(store: Store, s: State, step: Step, t: State, rest: seq<Step>, u: State)
    requires Enabled(s, step) && t == Next(store, s, step) && Run(store, t, rest, u)
    ensures Run(store, s, [step] + rest, u)
  {
    hide Next, Enabled;
    RunOf(store, s, step);
    RunThenRun(store, s, [step], t, rest, u);
  }

  lemma Completes(store: Store, s: State, w: int) returns (steps: seq<Step>, t: State)
    requires w in s.threads && s.threads[w].Completing? && s.threads[w].c.id in s.table
    ensures Run(store, s, steps, t) && s.threads[w].c.id in t.table && t.table[s.threads[w].c.id].status == Solved
  {
    hide Run;
    steps, t := [Solve(w)], Next(store, s, Solve(w));
    RunOf(store, s, Solve(w));
  }

  lemma MarksFailure(store: Store, s: State, w: int) returns (steps: seq<Step>, t: State)
    requires w in s.threads && (s.threads[w].Failing? || s.threads[w].FailMarking?) && s.threads[w].c.id in s.table
    ensures Run(store, s, steps, t) && s.threads[w].c.id in t.table && t.table[s.threads[w].c.id].status == Expired
    decreases s.threads[w].Failing?
  {
    hide Run;
    if s.threads[w].FailMarking? {
      steps, t := [Expire(w)], Next(store, s, Expire(w));
      RunOf(store, s, Expire(w));
    } else {
      var u := Next(store, s, Ban(w));
      var rest;
      rest, t := MarksFailure(store, u, w);
      steps := [Ban(w)] + rest;
      StepThenRun(store, s, Ban(w), u, rest, t);
    }
  }

  // A sweep comes to every challenge on its list, and until then leaves it alone.
  lemma {:induction false} SweepComesTo(store: Store, s: State, w: int, id: string) returns (steps: seq<Step>, t: State)
    requires w in s.threads && id in s.table
    requires (s.threads[w].Sweeping? && Lists(s.threads[w].todo, id)) || (s.threads[w].SweepMarking? && (s.threads[w].c.id == id || Lists(s.threads[w].todo, id)))
    ensures Run(store, s, steps, t) && id in t.table && t.table[id].status == Expired
    decreases if s.threads[w].Sweeping? then 2 * |s.threads[w].todo| else 2 * |s.threads[w].todo| + 1
  {
    hide Run;
    var h := s.threads[w];
    if h.SweepMarking? {
      var step := SweepExpire(w, h.c.id == id);
      var u := Next(store, s, step);
      if h.c.id == id {
        steps, t := [step], u;
        RunOf(store, s, step);
      } else {
        var rest;
        rest, t := SweepComesTo(store, u, w, id);
        steps := [step] + rest;
        StepThenRun(store, s, step, u, rest, t);
      }
    } else {
      ShorterList(h.todo, id);
      var step := SweepOne(w, h.todo[0].id == id);
      var u := Next(store, s, step);
      assert u.table == s.table;
      var rest;
      rest, t := SweepComesTo(store, u, w, id);
      steps := [step] + rest;
      StepThenRun(store, s, step, u, rest, t);
    }
  }

  lemma CheckedCarriesOut(store: Store, s: State, w: int, id: string) returns (steps: seq<Step>, t: State)
    requires SettledRow(s, id) && w in s.threads && s.threads[w].Checked? && Harms(s.table[id], id, s.threads[w])
    ensures Run(store, s, steps, t) && id in t.table && t.table[id] != s.table[id]
  {
    hide Run, RouteOf;
    var h := s.threads[w];
    var u := Next(store, s, Decide(w));
    RunOf(store, s, Decide(w));
    match RouteOf(h.c, h.action, h.answer)
    case ToReply =>
    case ToAccept =>
      if s.table[id].rulesAccepted {
        assert u.table[id] == s.table[id] && u.threads[w].Completing? && u.threads[w].c.id == id;
        var rest;
        rest, t := Completes(store, u, w);
        steps := [Decide(w)] + rest;
        StepThenRun(store, s, Decide(w), u, rest, t);
      } else {
        steps, t := [Decide(w)], u;
      }
    case ToComplete =>
      var rest;
      rest, t := Completes(store, u, w);
      steps := [Decide(w)] + rest;
      StepThenRun(store, s, Decide(w), u, rest, t);
    case ToFail =>
      var rest;
      rest, t := MarksFailure(store, u, w);
      steps := [Decide(w)] + rest;
      StepThenRun(store, s, Decide(w), u, rest, t);
  }

  lemma ThreatCarriedOut(store: Store, s: State, w: int, id: string) returns (steps: seq<Step>, t: State)
    requires SettledRow(s, id) && w in s.threads && Harms(s.table[id], id, s.threads[w])
    ensures Run(store, s, steps, t) && id in t.table && t.table[id] != s.table[id]
  {
    hide Run, Next, Enabled, RouteOf;
    match s.threads[w]
    case Checked(_, _, _) => steps, t := CheckedCarriesOut(store, s, w, id);
    case Completing(_) => steps, t := Completes(store, s, w);
    case Granting(_) =>
    case Failing(_) => steps, t := MarksFailure(store, s, w);
    case FailMarking(_) => steps, t := MarksFailure(store, s, w);
    case Sweeping(_) => steps, t := SweepComesTo(store, s, w, id);
    case SweepMarking(_, _) => steps, t := SweepComesTo(store, s, w, id);
  }

  // A challenge that is no longer pending keeps every field in every continuation, however the
  // handlers interleave, if and only if no handler in flight holds a copy of it whose route
  // still leads to a mark that changes its row.
  lemma SettledStaysIff(store: Store, s: State, id: string)
    requires Inv(s) && SettledRow(s, id)
    ensures (forall steps, t :: Run(store, s, steps, t) ==> id in t.table && t.table[id] == s.table[id]) <==> !Threatened(s, id)
  {
    hide Inv, Run, Harms;
    if Threatened(s, id) {
      var w :| w in s.threads && Harms(s.table[id], id, s.threads[w]);
      var steps, t := ThreatCarriedOut(store, s, w, id);
    } else {
      forall steps, t | Run(store, s, steps, t) ensures id in t.table && t.table[id] == s.table[id] {
        UnthreatenedStays(store, s, steps, t, id);
      }
    }
  }

  // ---------- The permission to send ----------

  function Given(grants: seq<Grant>, id: string): nat {
    if grants == [] then 0
    else Given(grants[..|grants| - 1], id) + if grants[|grants| - 1].id == id then 1 else 0
  }

  predicate ListsUnmute(todo: seq<Challenge>, id: string) {
    exists i :: 0 <= i < |todo| && todo[i].id == id && todo[i].timeoutAction == Unmute
  }

  // The handler may still give the permission for `id`.
  predicate Gives(id: string, h: Thread) {
    match h
    case Checked(c, action, answer) =>
      && c.id == id
      && (RouteOf(c, action, answer) == ToComplete || (RouteOf(c, action, answer) == ToAccept && c.mode == Button))
    case Completing(c) => c.id == id
    case Granting(c) => c.id == id
    case Failing(_) => false
    case FailMarking(_) => false
    case Sweeping(todo) => ListsUnmute(todo, id)
    case SweepMarking(_, todo) => ListsUnmute(todo, id)
  }

  // At most one permission was given or is still to be expected.
  ghost predicate OneGift(s: State, id: string) {
    && Given(s.grants, id) <= 1
    && (forall w :: w in s.threads && Gives(id, s.threads[w]) ==> Given(s.grants, id) == 0)
    && (forall v, w :: v in s.threads && w in s.threads && Gives(id, s.threads[v]) && Gives(id, s.threads[w]) ==> v == w)
  }

  ghost predicate Left(s: State, id: string) {
    id in s.created && !IsPending(s, id)
  }

  lemma ShorterUnmute(todo: seq<Challenge>, id: string)
    requires todo != []
    ensures ListsUnmute(todo, id) <==> (todo[0].id == id && todo[0].timeoutAction == Unmute) || ListsUnmute(todo[1..], id)
  {
    if ListsUnmute(todo, id) && !(todo[0].id == id && todo[0].timeoutAction == Unmute) {
      var i :| 0 <= i < |todo| && todo[i].id == id && todo[i].timeoutAction == Unmute;
      assert todo[1..][i - 1] == todo[i];
    }
    if ListsUnmute(todo[1..], id) {
      var i :| 0 <= i < |todo[1..]| && todo[1..][i].id == id && todo[1..][i].timeoutAction == Unmute;
      assert todo[i + 1] == todo[1..][i];
    }
  }

  lemma GivenMore(grants: seq<Grant>, g: Grant, id: string)
    ensures Given(grants + [g], id) == Given(grants, id) + if g.id == id then 1 else 0
  {
    assert (grants + [g])[..|grants|] == grants;
  }

  // A step gives at most one permission for `id`, by a handler that was to give it and is not
  // to give it again; no other handler becomes one that gives.
  lemma StepGives(store: Store, s: State, step: Step, id: string)
    requires Inv(s) && Enabled(s, step) && Left(s, id)
    ensures var t := Next(store, s, step);
      && (forall w :: w in t.threads && Gives(id, t.threads[w]) ==> w in s.threads && Gives(id, s.threads[w]))
      && (Given(t.grants, id) == Given(s.grants, id)
          || ((step.GiveBack? || step.SweepOne?) && Given(t.grants, id) == Given(s.grants, id) + 1
              && step.w in s.threads && Gives(id, s.threads[step.w]) && (step.w in t.threads ==> !Gives(id, t.threads[step.w]))))
  {
    hide ThreadOk, GrantOk, SolvedOk, OnePending, Marked, RowOk, TrimSpace, Given;
    var t := Next(store, s, step);
    forall w | w in t.threads && Gives(id, t.threads[w]) ensures w in s.threads && Gives(id, s.threads[w]) {
      NoNewGift(store, s, step, id, w);
    }
    hide Inv, RouteOf;
    if step.GiveBack? {
      GivenMore(s.grants, Grant(s.threads[step.w].c.id, false, s.now), id);
    } else if step.SweepOne? {
      SweepGives(store, s, step, id);
    }
  }

  lemma SweepGives(store: Store, s: State, step: Step, id: string)
    requires Inv(s) && Enabled(s, step) && step.SweepOne?
    ensures var t := Next(store, s, step);
      || Given(t.grants, id) == Given(s.grants, id)
      || (Given(t.grants, id) == Given(s.grants, id) + 1 && Gives(id, s.threads[step.w])
          && step.w in t.threads && !Gives(id, t.threads[step.w]))
  {
    hide GrantOk, SolvedOk, OnePending, Marked, RowOk, TrimSpace, Given, RouteOf, SweepCopyOk;
    var todo := s.threads[step.w].todo;
    assert ThreadOk(s, s.threads[step.w]);
    ShorterUnmute(todo, id);
    GivenMore(s.grants, Grant(todo[0].id, true, s.now), id);
    assert todo[0].id == id ==> !ListsUnmute(todo[1..], id);
  }

  lemma NoNewGift(store: Store, s: State, step: Step, id: string, w: int)
    requires Inv(s) && Enabled(s, step) && Left(s, id)
    requires w in Next(store, s, step).threads && Gives(id, Next(store, s, step).threads[w])
    ensures w in s.threads && Gives(id, s.threads[w])
  {
    hide ThreadOk, GrantOk, SolvedOk, OnePending, Marked, RowOk, TrimSpace;
    if w in s.threads {
      if step.SweepOne? && step.w == w {
        ShorterUnmute(s.threads[w].todo, id);
      }
      hide Inv, ListsUnmute;
    } else if step.Callback? {
      NewCopyOk(s, step.id);
    } else {
      forall i | 0 <= i < |step.ids| ensures s.table[step.ids[i]].id == step.ids[i] != id {
        NewCopyOk(s, step.ids[i]);
      }
    }
  }

  lemma StepKeepsOneGift(store: Store, s: State, step: Step, id: string)
    requires Inv(s) && Enabled(s, step) && Left(s, id) && OneGift(s, id)
    ensures Left(Next(store, s, step), id) && OneGift(Next(store, s, step), id)
  {
    hide Inv, Next, Enabled, Gives, Given, IsPending;
    StepGives(store, s, step, id);
    StepNeverRevives(store, s, step, id);
  }

  lemma {:induction false} OneGiftStays(store: Store, s: State, steps: seq<Step>, t: State, id: string)
    requires Inv(s) && Run(store, s, steps, t) && Left(s, id) && OneGift(s, id)
    ensures Given(t.grants, id) <= 1
    decreases |steps|
  {
    hide Inv, Next, Enabled, Left;
    if steps != [] {
      StepKeepsInv(store, s, steps[0]);
      StepKeepsOneGift(store, s, steps[0], id);
      OneGiftStays(store, Next(store, s, steps[0]), steps[1..], t, id);
    }
  }

  // How far a handler is from giving.
  function Distance(h: Thread): nat {
    match h
    case Checked(_, _, _) => 2
    case Completing(_) => 1
    case Sweeping(todo) => 2 * |todo|
    case SweepMarking(_, todo) => 2 * |todo| + 1
    case _ => 0
  }

  predicate GivesAtOnce(id: string, h: Thread) {
    h.Granting? || (h.Sweeping? && h.todo != [] && h.todo[0].id == id && h.todo[0].timeoutAction == Unmute)
  }

  lemma Approaches(store: Store, s: State, w: int, id: string) returns (step: Step, u: State)
    requires w in s.threads && Gives(id, s.threads[w]) && !GivesAtOnce(id, s.threads[w])
    ensures Enabled(s, step) && u == Next(store, s, step) && u.grants == s.grants
    ensures w in u.threads && Gives(id, u.threads[w]) && Distance(u.threads[w]) < Distance(s.threads[w])
    ensures forall v :: v in s.threads && v != w ==> v in u.threads && u.threads[v] == s.threads[v]
  {
    hide RouteOf, Marked;
    var h := s.threads[w];
    if h.Sweeping? {
      ShorterUnmute(h.todo, id);
    }
    step := match h
      case Checked(_, _, _) => Decide(w)
      case Completing(_) => Solve(w)
      case Sweeping(_) => SweepOne(w, false)
      case _ => SweepExpire(w, false);
    u := Next(store, s, step);
  }

  lemma GivesHere(store: Store, s: State, w: int, id: string) returns (step: Step, t: State)
    requires w in s.threads && Gives(id, s.threads[w]) && GivesAtOnce(id, s.threads[w])
    ensures Enabled(s, step) && t == Next(store, s, step) && Given(t.grants, id) == Given(s.grants, id) + 1
    ensures forall v :: v in s.threads && v != w ==> v in t.threads && t.threads[v] == s.threads[v]
  {
    hide RouteOf, Marked, Given;
    step := if s.threads[w].Granting? then GiveBack(w) else SweepOne(w, true);
    t := Next(store, s, step);
    var last := t.grants[|s.grants|];
    GivenMore(s.grants, last, id);
    assert t.grants == s.grants + [last];
  }

  // A handler that may give the permission can do so without disturbing the others.
  lemma {:induction false} GivesNow(store: Store, s: State, w: int, id: string) returns (steps: seq<Step>, t: State)
    requires w in s.threads && Gives(id, s.threads[w])
    ensures Run(store, s, steps, t) && Given(t.grants, id) == Given(s.grants, id) + 1
    ensures forall v :: v in s.threads && v != w ==> v in t.threads && t.threads[v] == s.threads[v]
    decreases Distance(s.threads[w])
  {
    hide Run, Next, Enabled, Gives, Given, Distance, GivesAtOnce;
    if GivesAtOnce(id, s.threads[w]) {
      var step;
      step, t := GivesHere(store, s, w, id);
      steps := [step];
      RunOf(store, s, step);
    } else {
      var step, u := Approaches(store, s, w, id);
      var rest;
      rest, t := GivesNow(store, u, w, id);
      steps := [step] + rest;
      StepThenRun(store, s, step, u, rest, t);
    }
  }

  lemma SecondGift(store: Store, s: State, id: string) returns (steps: seq<Step>, t: State)
    requires !OneGift(s, id)
    ensures Run(store, s, steps, t) && Given(t.grants, id) >= 2
  {
    hide Run, Gives, Given;
    if Given(s.grants, id) >= 2 {
      steps, t := [], s;
      RunOfNothing(store, s);
    } else if w :| w in s.threads && Gives(id, s.threads[w]) && Given(s.grants, id) != 0 {
      steps, t := GivesNow(store, s, w, id);
    } else {
      var v, w :| v in s.threads && w in s.threads && Gives(id, s.threads[v]) && Gives(id, s.threads[w]) && v != w;
      var first, u := GivesNow(store, s, v, id);
      var second;
      second, t := GivesNow(store, u, w, id);
      steps := first + second;
      RunThenRun(store, s, first, u, second, t);
    }
  }

  lemma RunOfNothing(store: Store, s: State)
    ensures Run(store, s, [], s)
  {
  }

  // A challenge that is no longer pending gives the permission at most once in every
  // continuation if and only if what was given and the handlers in flight that may still give
  // it make at most one together.
  lemma AtMostOnceIff(store: Store, s: State, id: string)
    requires Inv(s) && Left(s, id)
    ensures (forall steps, t :: Run(store, s, steps, t) ==> Given(t.grants, id) <= 1) <==> OneGift(s, id)
  {
    hide Inv, Run, Left, Given, Gives;
    if OneGift(s, id) {
      forall steps, t | Run(store, s, steps, t) ensures Given(t.grants, id) <= 1 {
        OneGiftStays(store, s, steps, t, id);
      }
    } else {
      var steps, t := SecondGift(store, s, id);
    }
  }
}
