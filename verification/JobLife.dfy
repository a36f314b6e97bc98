// The whole life of a job that goes over many targets: the queue hands it out again after a
// failure or never after a crash, and every time it is worked on from its first target.
module JobLife {
  import opened Text
  import opened QueueProtocol
  import FanOut

  // One target attempted in the course of one claim; claims of a job count from one.
  datatype Deed = Deed(job: int, claim: nat, target: int)

  // `todo` holds what is left of the list of each worker that has listed its targets. `listed`
  // and `deeds` are history.
  datatype Life = Life(queue: State, todo: map<int, seq<int>>, listed: map<(int, nat), seq<int>>, deeds: seq<Deed>)

  datatype Move =
    | Queue(step: Step)
    | List(w: int, targets: seq<int>)
    | Attempt(w: int)

  function Start(now: int): Life {
    Life(Init(now), map[], map[], [])
  }

  predicate NoRepeats(targets: seq<int>) {
    forall i, j :: 0 <= i < j < |targets| ==> targets[i] != targets[j]
  }

  // The targets are listed once per claim, each target once. A job succeeds only when none is
  // left; it may fail, and its worker may die, at any moment.
  predicate CanMove(l: Life, move: Move) {
    match move
    case Queue(step) =>
      && Enabled(Jobs, l.queue, step)
      && (step.Finish? && step.failure.None? ==> step.w in l.todo && l.todo[step.w] == [])
    case List(w, targets) => w in l.queue.workers && l.queue.workers[w].Holding? && w !in l.todo && NoRepeats(targets)
    case Attempt(w) => w in l.queue.workers && w in l.todo && l.todo[w] != []
  }

  function After(store: Store, l: Life, move: Move): Life
    requires CanMove(l, move)
  {
    match move
    case Queue(step) =>
      l.(queue := Next(Jobs, store, l.queue, step), todo := if step.Finish? || step.Crash? then l.todo - {step.w} else l.todo)
    case List(w, targets) =>
      var h := l.queue.workers[w];
      l.(todo := l.todo[w := targets], listed := l.listed[(h.id, h.attempts) := targets])
    case Attempt(w) =>
      var h := l.queue.workers[w];
      l.(todo := l.todo[w := l.todo[w][1..]], deeds := l.deeds + [Deed(h.id, h.attempts, l.todo[w][0])])
  }

  predicate LifeRun(store: Store, l: Life, moves: seq<Move>, m: Life)
    decreases |moves|
  {
    if moves == [] then l == m
    else CanMove(l, moves[0]) && LifeRun(store, After(store, l, moves[0]), moves[1..], m)
  }

  // The targets attempted during one claim, in order.
  function DeedsOf(deeds: seq<Deed>, job: int, claim: nat): seq<int> {
    if deeds == [] then []
    else
      var last := deeds[|deeds| - 1];
      DeedsOf(deeds[..|deeds| - 1], job, claim) + if last.job == job && last.claim == claim then [last.target] else []
  }

  // How often a target was attempted for a job.
  function Times(deeds: seq<Deed>, job: int, target: int): nat {
    if deeds == [] then 0
    else
      var last := deeds[|deeds| - 1];
      Times(deeds[..|deeds| - 1], job, target) + if last.job == job && last.target == target then 1 else 0
  }

  lemma DeedsOfMore(deeds: seq<Deed>, d: Deed, job: int, claim: nat)
    ensures DeedsOf(deeds + [d], job, claim) ==
      DeedsOf(deeds, job, claim) + if d.job == job && d.claim == claim then [d.target] else []
  {
    assert (deeds + [d])[..|deeds|] == deeds;
  }

  lemma {:induction false} NoDeeds(deeds: seq<Deed>, job: int, claim: nat)
    requires forall d :: d in deeds ==> d.job != job || d.claim != claim
    ensures DeedsOf(deeds, job, claim) == []
  {
    if deeds != [] {
      assert deeds[|deeds| - 1] in deeds;
      NoDeeds(deeds[..|deeds| - 1], job, claim);
    }
  }

  // ---------- The inductive invariant ----------

  // Every claim has worked on its list from the first target on.
  ghost predicate ListsOk(l: Life) {
    && (forall job, claim :: (job, claim) in l.listed ==>
          && job in l.queue.rows && 1 <= claim <= l.queue.rows[job].attempts
          && NoRepeats(l.listed[(job, claim)]) && DeedsOf(l.deeds, job, claim) <= l.listed[(job, claim)])
    && (forall d :: d in l.deeds ==> (d.job, d.claim) in l.listed)
  }

  ghost predicate WholeList(l: Life, job: int, claim: nat) {
    (job, claim) in l.listed && DeedsOf(l.deeds, job, claim) == l.listed[(job, claim)]
  }

  ghost predicate WorkerLifeOk(l: Life, w: int)
    requires w in l.queue.workers
  {
    var h := l.queue.workers[w];
    if w in l.todo then
      && h.Holding? && (h.id, h.attempts) in l.listed
      && DeedsOf(l.deeds, h.id, h.attempts) + l.todo[w] == l.listed[(h.id, h.attempts)]
    else if h.Holding? then (h.id, h.attempts) !in l.listed
    else h.mark.ToCompleted? ==> WholeList(l, h.id, h.attempts)
  }

  ghost predicate WorkersOk(l: Life) {
    && l.todo.Keys <= l.queue.workers.Keys
    && forall w :: w in l.queue.workers ==> WorkerLifeOk(l, w)
  }

  ghost predicate CompletedOk(l: Life) {
    forall job :: job in l.queue.rows && l.queue.rows[job].status == Completed ==>
      WholeList(l, job, l.queue.rows[job].attempts)
  }

  ghost predicate LifeInv(l: Life) {
    Inv(Jobs, l.queue) && ListsOk(l) && WorkersOk(l) && CompletedOk(l)
  }

  lemma HeldRow(s: State, w: int)
    requires Inv(Jobs, s) && w in s.workers
    ensures var h := s.workers[w];
      h.id in s.rows && s.rows[h.id].status == Processing && 1 <= h.attempts == s.rows[h.id].attempts
    ensures forall v :: v in s.workers && v != w ==> s.workers[v].id != s.workers[w].id
  {
    assert WorkerOk(s, s.workers[w]);
    assert RowOk(s.rows[s.workers[w].id]);
    hide ClaimsOk, WorkerOk;
  }

  // What one step of the queue does to the rows: attempts never fall, and only the mark a
  // worker has decided on completes a row.
  lemma StepRows(store: Store, s: State, step: Step, job: int)
    requires Inv(Jobs, s) && Enabled(Jobs, s, step) && job in s.rows
    ensures var t := Next(Jobs, store, s, step);
      && job in t.rows && s.rows[job].attempts <= t.rows[job].attempts
      && (t.rows[job].status == Completed ==>
            && t.rows[job].attempts == s.rows[job].attempts
            && (s.rows[job].status == Completed ||
                (step.Apply? && s.workers[step.w].id == job && s.workers[step.w].mark.ToCompleted?)))
  {
    if step.Apply? {
      HeldRow(s, step.w);
    } else if step.Progress? {
      HeldRow(s, step.w);
    }
    hide Inv, Backoff;
  }

  lemma NewRowNotCompleted(store: Store, s: State, step: Step, job: int)
    requires Enabled(Jobs, s, step) && job in Next(Jobs, store, s, step).rows && job !in s.rows
    ensures Next(Jobs, store, s, step).rows[job].status == Pending
  {
  }

  lemma QueueKeepsLists(store: Store, l: Life, step: Step)
    requires LifeInv(l) && CanMove(l, Queue(step))
    ensures ListsOk(After(store, l, Queue(step))) && CompletedOk(After(store, l, Queue(step)))
  {
    var m := After(store, l, Queue(step));
    forall job | job in l.queue.rows
      ensures job in m.queue.rows && l.queue.rows[job].attempts <= m.queue.rows[job].attempts
    {
      StepRows(store, l.queue, step, job);
      hide Next;
    }
    forall job | job in m.queue.rows && m.queue.rows[job].status == Completed
      ensures WholeList(m, job, m.queue.rows[job].attempts)
    {
      if job !in l.queue.rows {
        NewRowNotCompleted(store, l.queue, step, job);
        assert false;
      }
      StepRows(store, l.queue, step, job);
      if l.queue.rows[job].status != Completed {
        HeldRow(l.queue, step.w);
        assert WorkerLifeOk(l, step.w);
        hide Next;
        assert WholeList(l, job, l.queue.rows[job].attempts);
      }
      hide Next;
      assert WholeList(l, job, l.queue.rows[job].attempts);
    }
    hide Next, Inv, WholeList, WorkersOk;
  }

  lemma QueueKeepsWorkers(store: Store, l: Life, step: Step)
    requires LifeInv(l) && CanMove(l, Queue(step))
    ensures WorkersOk(After(store, l, Queue(step)))
  {
    var m := After(store, l, Queue(step));
    hide Inv, Backoff, CompletedOk, RowOk, ClaimsOk;
    assert m.todo.Keys <= m.queue.workers.Keys by {
      assert step.Apply? ==> WorkerLifeOk(l, step.w);
    }
    forall w | w in m.queue.workers ensures WorkerLifeOk(m, w) {
      if w in l.queue.workers {
        assert WorkerLifeOk(l, w);
      } else {
        assert step.Claim? && m.queue.workers[w].attempts == l.queue.rows[step.id].attempts + 1;
      }
    }
  }

  // An attempt adds to the deeds of the claim it belongs to.
  lemma AttemptDeeds(store: Store, l: Life, w: int, job: int, claim: nat)
    requires CanMove(l, Attempt(w))
    ensures var h := l.queue.workers[w];
      DeedsOf(After(store, l, Attempt(w)).deeds, job, claim) ==
        DeedsOf(l.deeds, job, claim) + if job == h.id && claim == h.attempts then [l.todo[w][0]] else []
  {
    var h := l.queue.workers[w];
    DeedsOfMore(l.deeds, Deed(h.id, h.attempts, l.todo[w][0]), job, claim);
  }

  lemma AttemptKeepsLists(store: Store, l: Life, w: int)
    requires LifeInv(l) && CanMove(l, Attempt(w))
    ensures ListsOk(After(store, l, Attempt(w)))
  {
    var m, h := After(store, l, Attempt(w)), l.queue.workers[w];
    assert WorkerLifeOk(l, w);
    hide Inv, NoRepeats;
    forall job, claim | (job, claim) in m.listed ensures DeedsOf(m.deeds, job, claim) <= m.listed[(job, claim)] {
      AttemptDeeds(store, l, w, job, claim);
      hide DeedsOf;
      assert l.todo[w] == [l.todo[w][0]] + l.todo[w][1..];
      assert DeedsOf(l.deeds, job, claim) <= l.listed[(job, claim)];
    }
    hide DeedsOf;
    assert forall d :: d in m.deeds ==> d in l.deeds || (d.job == h.id && d.claim == h.attempts);
  }

  // What one worker's entry depends on.
  ghost predicate SameEntry(l: Life, m: Life, w: int)
    requires w in l.queue.workers
  {
    var h := l.queue.workers[w];
    && w in m.queue.workers && m.queue.workers[w] == h
    && (w in m.todo <==> w in l.todo) && (w in l.todo ==> m.todo[w] == l.todo[w])
    && ((h.id, h.attempts) in m.listed <==> (h.id, h.attempts) in l.listed)
    && ((h.id, h.attempts) in l.listed ==> m.listed[(h.id, h.attempts)] == l.listed[(h.id, h.attempts)])
    && DeedsOf(m.deeds, h.id, h.attempts) == DeedsOf(l.deeds, h.id, h.attempts)
  }

  lemma EntryKept(l: Life, m: Life, w: int)
    requires w in l.queue.workers && SameEntry(l, m, w) && WorkerLifeOk(l, w)
    ensures WorkerLifeOk(m, w)
  {
    hide DeedsOf;
  }

  lemma AttemptKeepsWorker(store: Store, l: Life, w: int, v: int)
    requires LifeInv(l) && CanMove(l, Attempt(w)) && v in l.queue.workers
    ensures WorkerLifeOk(After(store, l, Attempt(w)), v)
  {
    var g := l.queue.workers[v];
    HeldRow(l.queue, w);
    AttemptDeeds(store, l, w, g.id, g.attempts);
    assert WorkerLifeOk(l, v);
    hide Inv, ListsOk, WorkersOk, CompletedOk, DeedsOf;
    if v == w {
      assert l.todo[w] == [l.todo[w][0]] + l.todo[w][1..];
      ConcatAssoc(DeedsOf(l.deeds, g.id, g.attempts), [l.todo[w][0]], l.todo[w][1..]);
    } else {
      hide WorkerLifeOk;
      EntryKept(l, After(store, l, Attempt(w)), v);
    }
  }

  lemma AttemptKeepsCompleted(store: Store, l: Life, w: int)
    requires LifeInv(l) && CanMove(l, Attempt(w))
    ensures CompletedOk(After(store, l, Attempt(w)))
  {
    HeldRow(l.queue, w);
    hide Inv, ListsOk, WorkersOk, DeedsOf;
    var m := After(store, l, Attempt(w));
    forall job | job in m.queue.rows && m.queue.rows[job].status == Completed
      ensures WholeList(m, job, m.queue.rows[job].attempts)
    {
      assert WholeList(l, job, l.queue.rows[job].attempts);
      AttemptDeeds(store, l, w, job, m.queue.rows[job].attempts);
    }
  }

  lemma AttemptKeepsInv(store: Store, l: Life, w: int)
    requires LifeInv(l) && CanMove(l, Attempt(w))
    ensures LifeInv(After(store, l, Attempt(w)))
  {
    hide Inv, ListsOk, CompletedOk, WorkerLifeOk, DeedsOf;
    var m := After(store, l, Attempt(w));
    assert m.queue == l.queue && m.todo.Keys == l.todo.Keys;
    AttemptKeepsLists(store, l, w);
    AttemptKeepsCompleted(store, l, w);
    forall v | v in m.queue.workers ensures WorkerLifeOk(m, v) {
      AttemptKeepsWorker(store, l, w, v);
    }
  }

  lemma ListKeepsWorker(store: Store, l: Life, w: int, targets: seq<int>, v: int)
    requires LifeInv(l) && CanMove(l, List(w, targets)) && v in l.queue.workers
    ensures WorkerLifeOk(After(store, l, List(w, targets)), v)
  {
    var h := l.queue.workers[w];
    HeldRow(l.queue, w);
    assert WorkerLifeOk(l, w) && WorkerLifeOk(l, v);
    NoDeeds(l.deeds, h.id, h.attempts);
    hide Inv, ListsOk, WorkersOk, CompletedOk, DeedsOf, NoRepeats;
    if v != w {
      hide WorkerLifeOk;
      EntryKept(l, After(store, l, List(w, targets)), v);
    }
  }

  lemma ListKeepsInv(store: Store, l: Life, w: int, targets: seq<int>)
    requires LifeInv(l) && CanMove(l, List(w, targets))
    ensures LifeInv(After(store, l, List(w, targets)))
  {
    var m, h := After(store, l, List(w, targets)), l.queue.workers[w];
    HeldRow(l.queue, w);
    hide Inv;
    assert WorkerLifeOk(l, w);
    NoDeeds(l.deeds, h.id, h.attempts);
    hide DeedsOf, NoRepeats, WorkerLifeOk;
    forall v | v in m.queue.workers ensures WorkerLifeOk(m, v) {
      ListKeepsWorker(store, l, w, targets, v);
    }
  }

  lemma MoveKeepsInv(store: Store, l: Life, move: Move)
    requires LifeInv(l) && CanMove(l, move)
    ensures LifeInv(After(store, l, move))
  {
    match move
    case Queue(step) =>
      StepKeepsInv(Jobs, store, l.queue, step);
      QueueKeepsLists(store, l, step);
      QueueKeepsWorkers(store, l, step);
      hide Inv, Next, ListsOk, WorkersOk, CompletedOk;
    case List(w, targets) => ListKeepsInv(store, l, w, targets);
    case Attempt(w) => AttemptKeepsInv(store, l, w);
  }

  lemma {:induction false} LifeRunKeepsInv(store: Store, l: Life, moves: seq<Move>, m: Life)
    requires LifeInv(l) && LifeRun(store, l, moves, m)
    ensures LifeInv(m)
    decreases |moves|
  {
    if moves != [] {
      MoveKeepsInv(store, l, moves[0]);
      hide LifeInv, CanMove, After;
      LifeRunKeepsInv(store, After(store, l, moves[0]), moves[1..], m);
    }
  }

  // ---------- How often a target is attempted ----------

  // Attempts of a target during the first n claims.
  function TimesUpTo(deeds: seq<Deed>, job: int, target: int, n: nat): nat {
    if deeds == [] then 0
    else
      var last := deeds[|deeds| - 1];
      TimesUpTo(deeds[..|deeds| - 1], job, target, n)
      + if last.job == job && last.target == target && last.claim <= n then 1 else 0
  }

  lemma {:induction false} OneMoreClaim(deeds: seq<Deed>, job: int, target: int, n: nat)
    ensures TimesUpTo(deeds, job, target, n + 1)
      == TimesUpTo(deeds, job, target, n) + multiset(DeedsOf(deeds, job, n + 1))[target]
  {
    if deeds != [] {
      OneMoreClaim(deeds[..|deeds| - 1], job, target, n);
    }
  }

  lemma {:induction false} AllClaims(deeds: seq<Deed>, job: int, target: int, n: nat)
    requires forall d :: d in deeds && d.job == job ==> 1 <= d.claim <= n
    ensures TimesUpTo(deeds, job, target, n) == Times(deeds, job, target)
    ensures TimesUpTo(deeds, job, target, 0) == 0
  {
    if deeds != [] {
      assert deeds[|deeds| - 1] in deeds;
      AllClaims(deeds[..|deeds| - 1], job, target, n);
    }
  }

  lemma {:induction false} AtMostOnce(targets: seq<int>, target: int)
    requires NoRepeats(targets)
    ensures multiset(targets)[target] <= 1
  {
    if targets != [] {
      var front, last := targets[..|targets| - 1], targets[|targets| - 1];
      assert targets == front + [last];
      AtMostOnce(front, target);
      assert last !in front;
    }
  }

  lemma {:induction false} AtMostPerClaim(deeds: seq<Deed>, job: int, target: int, n: nat)
    requires forall d :: d in deeds && d.job == job ==> 1 <= d.claim
    requires forall claim :: 1 <= claim <= n ==> NoRepeats(DeedsOf(deeds, job, claim))
    ensures TimesUpTo(deeds, job, target, n) <= n
  {
    if n == 0 {
      NoneBefore(deeds, job, target);
    } else {
      AtMostPerClaim(deeds, job, target, n - 1);
      OneMoreClaim(deeds, job, target, n - 1);
      AtMostOnce(DeedsOf(deeds, job, n), target);
    }
  }

  lemma {:induction false} NoneBefore(deeds: seq<Deed>, job: int, target: int)
    requires forall d :: d in deeds && d.job == job ==> 1 <= d.claim
    ensures TimesUpTo(deeds, job, target, 0) == 0
  {
    if deeds != [] {
      assert deeds[|deeds| - 1] in deeds;
      NoneBefore(deeds[..|deeds| - 1], job, target);
    }
  }

  lemma {:induction false} AttemptedSometime(deeds: seq<Deed>, job: int, claim: nat, target: int)
    requires target in DeedsOf(deeds, job, claim)
    ensures Times(deeds, job, target) >= 1
  {
    if deeds != [] && target in DeedsOf(deeds[..|deeds| - 1], job, claim) {
      AttemptedSometime(deeds[..|deeds| - 1], job, claim, target);
    }
  }

  lemma ClaimDeeds(l: Life, job: int, claim: nat)
    requires LifeInv(l)
    ensures NoRepeats(DeedsOf(l.deeds, job, claim))
  {
    hide Inv, WorkersOk, CompletedOk;
    if (job, claim) !in l.listed {
      NoDeeds(l.deeds, job, claim);
    }
    hide DeedsOf;
  }

  // However workers interleave, fail and crash: a job's target is attempted at most once per
  // claim, so no more often than the job's limit; every claim has gone through its list from
  // the first target on; and the claim that completed a job has gone through all of it.
  lemma EachTargetPerClaim(store: Store, start: int, moves: seq<Move>, l: Life)
    requires LifeRun(store, Start(start), moves, l)
    ensures forall job, target :: job in l.queue.rows ==>
      Times(l.deeds, job, target) <= l.queue.rows[job].attempts <= Limit(l.queue.rows[job].maxAttempts)
    ensures forall d :: d in l.deeds ==> d.job in l.queue.rows && 1 <= d.claim <= l.queue.rows[d.job].attempts
    ensures forall job, claim :: (job, claim) in l.listed ==> DeedsOf(l.deeds, job, claim) <= l.listed[(job, claim)]
    ensures forall job :: job in l.queue.rows && l.queue.rows[job].status == Completed ==>
      var last := (job, l.queue.rows[job].attempts);
      && last in l.listed && DeedsOf(l.deeds, last.0, last.1) == l.listed[last]
      && forall target :: target in l.listed[last] ==> Times(l.deeds, job, target) >= 1
  {
    InitOk(Jobs, start);
    LifeRunKeepsInv(store, Start(start), moves, l);
    forall job, target | job in l.queue.rows
      ensures Times(l.deeds, job, target) <= l.queue.rows[job].attempts <= Limit(l.queue.rows[job].maxAttempts)
    {
      TimesBounded(l, job, target);
      hide LifeInv, Times;
    }
    hide Inv, WorkersOk, Times, LifeRun;
    forall job, target | job in l.queue.rows && l.queue.rows[job].status == Completed
        && target in l.listed[(job, l.queue.rows[job].attempts)]
      ensures Times(l.deeds, job, target) >= 1
    {
      AttemptedSometime(l.deeds, job, l.queue.rows[job].attempts, target);
    }
    hide DeedsOf, NoRepeats;
  }

  lemma TimesBounded(l: Life, job: int, target: int)
    requires LifeInv(l) && job in l.queue.rows
    ensures Times(l.deeds, job, target) <= l.queue.rows[job].attempts <= Limit(l.queue.rows[job].maxAttempts)
  {
    var n := l.queue.rows[job].attempts;
    assert RowOk(l.queue.rows[job]);
    hide Inv, WorkersOk, CompletedOk;
    forall claim ensures NoRepeats(DeedsOf(l.deeds, job, claim)) {
      ClaimDeeds(l, job, claim);
    }
    assert forall d :: d in l.deeds && d.job == job ==> 1 <= d.claim <= n;
    hide ListsOk, DeedsOf, NoRepeats;
    AllClaims(l.deeds, job, target, n);
    AtMostPerClaim(l.deeds, job, target, n);
  }

  // A job that is completed or dead attempts nothing any more.
  lemma {:induction false} SettledJobRests(store: Store, l: Life, moves: seq<Move>, m: Life, job: int)
    requires LifeInv(l) && LifeRun(store, l, moves, m)
    requires job in l.queue.rows && Terminal(l.queue.rows[job])
    ensures forall claim :: DeedsOf(m.deeds, job, claim) == DeedsOf(l.deeds, job, claim)
    decreases |moves|
  {
    if moves != [] {
      var next := After(store, l, moves[0]);
      MoveKeepsInv(store, l, moves[0]);
      match moves[0] {
        case Queue(step) => StepKeepsTerminal(Jobs, store, l.queue, step, job);
        case List(_, _) =>
        case Attempt(w) =>
          HeldRow(l.queue, w);
          forall claim ensures DeedsOf(next.deeds, job, claim) == DeedsOf(l.deeds, job, claim) {
            var h := l.queue.workers[w];
            DeedsOfMore(l.deeds, Deed(h.id, h.attempts, l.todo[w][0]), job, claim);
          }
      }
      assert job in next.queue.rows && Terminal(next.queue.rows[job]);
      hide LifeInv, CanMove, After, DeedsOf;
      SettledJobRests(store, next, moves[1..], m, job);
    }
  }

  // ---------- The loops over the targets are such moves ----------

  lemma {:induction false} LifeRunsConcat(store: Store, l: Life, first: seq<Move>, m: Life, second: seq<Move>, n: Life)
    requires LifeRun(store, l, first, m) && LifeRun(store, m, second, n)
    ensures LifeRun(store, l, first + second, n)
    decreases |first|
  {
    hide CanMove, After;
    if first == [] {
      assert first + second == second;
    } else {
      LifeRunsConcat(store, After(store, l, first[0]), first[1..], m, second, n);
      assert (first + second)[1..] == first[1..] + second;
    }
  }

  lemma OneMoveMore(store: Store, l: Life, moves: seq<Move>, m: Life, move: Move)
    requires LifeRun(store, l, moves, m) && CanMove(m, move)
    ensures LifeRun(store, l, moves + [move], After(store, m, move))
  {
    hide CanMove, After;
    var last, n := [move], After(store, m, move);
    assert LifeRun(store, n, last[1..], n) && LifeRun(store, m, last, n);
    LifeRunsConcat(store, l, moves, m, last, n);
  }

  // The moves for the first k targets: the list, the first progress write, and then each
  // target with its progress write if one is due. `text` stands for the failures written.
  function Loop(w: int, targets: seq<int>, k: nat, text: nat -> string): seq<Move>
    requires k <= |targets|
  {
    if k == 0 then [List(w, targets)] + [Write(w, targets, 0, text)]
    else
      var moves := Loop(w, targets, k - 1, text) + [Attempt(w)];
      if FanOut.ShouldFlush(k, |targets|) then moves + [Write(w, targets, k, text)] else moves
  }

  function Write(w: int, targets: seq<int>, k: nat, text: nat -> string): Move {
    Queue(Progress(w, k, |targets|, text(k)))
  }

  function Tagged(h: Worker, targets: seq<int>): seq<Deed> {
    seq(|targets|, i requires 0 <= i < |targets| => Deed(h.id, h.attempts, targets[i]))
  }

  // The worker holds a job it has not listed the targets of.
  predicate Begins(l: Life, w: int) {
    w in l.queue.workers && l.queue.workers[w].Holding? && l.queue.workers[w].id in l.queue.rows && w !in l.todo
  }

  // It has attempted exactly these of its targets since.
  predicate Attempted(l: Life, m: Life, w: int, targets: seq<int>, k: nat)
    requires Begins(l, w) && k <= |targets|
  {
    var h := l.queue.workers[w];
    && m.queue.workers == l.queue.workers && m.queue.now == l.queue.now && h.id in m.queue.rows
    && w in m.todo && m.todo[w] == targets[k..] && m.deeds == l.deeds + Tagged(h, targets[..k])
  }

  lemma Listed(store: Store, l: Life, w: int, targets: seq<int>)
    requires Begins(l, w) && NoRepeats(targets)
    ensures CanMove(l, List(w, targets)) && LifeRun(store, l, [List(w, targets)], After(store, l, List(w, targets)))
    ensures Attempted(l, After(store, l, List(w, targets)), w, targets, 0)
  {
    assert targets[0..] == targets;
    assert l.deeds + Tagged(l.queue.workers[w], targets[..0]) == l.deeds;
    OneMoveMore(store, l, [], l, List(w, targets));
    assert [] + [List(w, targets)] == [List(w, targets)];
  }

  lemma WriteKeepsAttempted(store: Store, l: Life, m: Life, w: int, targets: seq<int>, k: nat, text: nat -> string)
    requires Begins(l, w) && k <= |targets| && Attempted(l, m, w, targets, k)
    ensures CanMove(m, Write(w, targets, k, text))
    ensures Attempted(l, After(store, m, Write(w, targets, k, text)), w, targets, k)
  {
  }

  lemma AttemptOneMore(store: Store, l: Life, m: Life, w: int, targets: seq<int>, k: nat)
    requires Begins(l, w) && k < |targets| && Attempted(l, m, w, targets, k)
    ensures CanMove(m, Attempt(w)) && Attempted(l, After(store, m, Attempt(w)), w, targets, k + 1)
  {
    var h := l.queue.workers[w];
    assert targets[k..][0] == targets[k] && targets[k..][1..] == targets[k + 1..];
    assert Tagged(h, targets[..k + 1]) == Tagged(h, targets[..k]) + [Deed(h.id, h.attempts, targets[k])];
  }

  lemma {:induction false} LoopRuns(store: Store, l: Life, w: int, targets: seq<int>, k: nat, text: nat -> string) returns (m: Life)
    requires Begins(l, w) && NoRepeats(targets) && k <= |targets|
    ensures LifeRun(store, l, Loop(w, targets, k, text), m) && Attempted(l, m, w, targets, k)
  {
    hide LifeRun, Attempted, CanMove, After, NoRepeats, Begins;
    if k == 0 {
      Listed(store, l, w, targets);
      m := After(store, l, List(w, targets));
      WriteKeepsAttempted(store, l, m, w, targets, 0, text);
      OneMoveMore(store, l, [List(w, targets)], m, Write(w, targets, 0, text));
      m := After(store, m, Write(w, targets, 0, text));
    } else {
      var front := Loop(w, targets, k - 1, text);
      m := LoopRuns(store, l, w, targets, k - 1, text);
      AttemptOneMore(store, l, m, w, targets, k - 1);
      OneMoveMore(store, l, front, m, Attempt(w));
      m := After(store, m, Attempt(w));
      if FanOut.ShouldFlush(k, |targets|) {
        WriteKeepsAttempted(store, l, m, w, targets, k, text);
        OneMoveMore(store, l, front + [Attempt(w)], m, Write(w, targets, k, text));
        m := After(store, m, Write(w, targets, k, text));
      }
    }
  }

  // The progress values a run writes, and those of a list of reports.
  function Progressed(moves: seq<Move>): seq<(int, int)> {
    if moves == [] then []
    else
      var last := moves[|moves| - 1];
      Progressed(moves[..|moves| - 1])
      + if last.Queue? && last.step.Progress? then [(last.step.progress, last.step.total)] else []
  }

  function Values(reports: seq<FanOut.Report>): seq<(int, int)> {
    seq(|reports|, i requires 0 <= i < |reports| => (reports[i].progress, reports[i].total))
  }

  lemma ProgressedMore(moves: seq<Move>, move: Move)
    ensures Progressed(moves + [move]) ==
      Progressed(moves) + if move.Queue? && move.step.Progress? then [(move.step.progress, move.step.total)] else []
  {
    assert (moves + [move])[..|moves|] == moves;
  }

  lemma ValuesMore(reports: seq<FanOut.Report>, report: FanOut.Report)
    ensures Values(reports + [report]) == Values(reports) + [(report.progress, report.total)]
    ensures reports == [] ==> Values(reports) == [] && reports + [report] == [report]
  {
  }

  lemma {:induction false} LoopWritesReports(w: int, targets: seq<int>, delivers: int -> bool, k: nat, text: nat -> string)
    requires k <= |targets|
    ensures Progressed(Loop(w, targets, k, text)) == Values(FanOut.ReportsFor(targets, delivers, |targets|, k))
  {
    hide Progressed, Values, FanOut.ShouldFlush;
    var total := |targets|;
    if k == 0 {
      NothingWritten(w, targets);
      ValuesMore([], FanOut.ReportAt(targets, delivers, total, 0));
      ProgressedMore([List(w, targets)], Write(w, targets, 0, text));
    } else {
      var front := Loop(w, targets, k - 1, text);
      LoopWritesReports(w, targets, delivers, k - 1, text);
      var reports := FanOut.ReportsFor(targets, delivers, total, k - 1);
      ValuesMore(reports, FanOut.ReportAt(targets, delivers, total, k));
      assert reports + [] == reports;
      ProgressedMore(front, Attempt(w));
      ProgressedMore(front + [Attempt(w)], Write(w, targets, k, text));
    }
  }

  function FailureOf(outcome: FanOut.Outcome, error: string): Option<string> {
    if outcome.ProgressError? then Some(error) else None
  }

  // What OverChats has done when it returns, and Purge over a range that ends.
  ghost predicate Returned(c: FanOut.Channel, targets: seq<int>, outcome: FanOut.Outcome)
    reads c
  {
    if targets == [] then outcome == FanOut.Nothing && c.attempted == [] && c.reports == []
    else c.Ran(targets, |targets|, outcome) && !outcome.Unfinished?
  }

  // The worker's mark after these moves is the one for that outcome.
  predicate Decided(l: Life, m: Life, w: int, failure: Option<string>)
    requires Begins(l, w)
  {
    var h := l.queue.workers[w];
    w in m.queue.workers && m.queue.workers[w] ==
      Marking(h.id, h.attempts, h.maxAttempts, Decide(h.attempts, h.maxAttempts, failure, l.queue.now))
  }

  lemma FinishAfter(store: Store, l: Life, moves: seq<Move>, m: Life, w: int, targets: seq<int>, k: nat, failure: Option<string>)
    requires Begins(l, w) && k <= |targets| && Attempted(l, m, w, targets, k) && LifeRun(store, l, moves, m)
    requires failure.None? ==> k == |targets|
    ensures CanMove(m, Queue(Finish(w, failure)))
    ensures var n := After(store, m, Queue(Finish(w, failure)));
      LifeRun(store, l, moves + [Queue(Finish(w, failure))], n) && n.deeds == m.deeds && Decided(l, n, w, failure)
    ensures Progressed(moves + [Queue(Finish(w, failure))]) == Progressed(moves)
  {
    hide LifeRun, Decide;
    OneMoveMore(store, l, moves, m, Queue(Finish(w, failure)));
    ProgressedMore(moves, Queue(Finish(w, failure)));
  }

  // A purge lists each id of its range once.
  lemma RangeNoRepeats(low: int, high: int)
    requires MIN_INT64 <= low <= high <= MAX_INT64
    ensures NoRepeats(FanOut.Ids(low, high - low + 1))
  {
    FanOut.IdsOfRange(low, high);
  }

  // Once a fan-out has returned, its attempts and reports are those of a run of a worker that
  // began on the job, and its outcome is the worker's decision.
  lemma FanOutIsARun(store: Store, l: Life, w: int, c: FanOut.Channel, targets: seq<int>, outcome: FanOut.Outcome, text: nat -> string, error: string)
    returns (moves: seq<Move>, m: Life)
    requires Begins(l, w) && NoRepeats(targets) && Returned(c, targets, outcome)
    ensures LifeRun(store, l, moves, m) && Decided(l, m, w, FailureOf(outcome, error))
    ensures m.deeds == l.deeds + Tagged(l.queue.workers[w], c.attempted)
    ensures Progressed(moves) == Values(c.reports)
  {
    hide LifeRun, CanMove, After, NoRepeats, Decided, Progressed, FanOut.ReportsFor, FanOut.ShouldFlush;
    var failure := FailureOf(outcome, error);
    var k := |c.attempted|;
    if targets == [] || (outcome.ProgressError? && outcome.progress == 0) {
      Listed(store, l, w, targets);
      moves, m := [List(w, targets)], After(store, l, List(w, targets));
      NothingWritten(w, targets);
    } else if outcome.ProgressError? {
      m := LoopRuns(store, l, w, targets, k - 1, text);
      moves := Loop(w, targets, k - 1, text);
      LoopWritesReports(w, targets, c.delivers, k - 1, text);
      AttemptOneMore(store, l, m, w, targets, k - 1);
      OneMoveMore(store, l, moves, m, Attempt(w));
      ProgressedMore(moves, Attempt(w));
      moves, m := moves + [Attempt(w)], After(store, m, Attempt(w));
    } else {
      m := LoopRuns(store, l, w, targets, k, text);
      moves := Loop(w, targets, k, text);
      LoopWritesReports(w, targets, c.delivers, k, text);
    }
    assert targets[..k] == c.attempted;
    FinishAfter(store, l, moves, m, w, targets, k, failure);
    moves, m := moves + [Queue(Finish(w, failure))], After(store, m, Queue(Finish(w, failure)));
  }

  lemma NothingWritten(w: int, targets: seq<int>)
    ensures Progressed([List(w, targets)]) == []
  {
    assert [List(w, targets)][..0] == [];
  }

  // ---------- The bound is reached ----------

  lemma {:induction false} LifeRunOfStates(store: Store, moves: seq<Move>, lives: seq<Life>)
    requires |lives| == |moves| + 1
    requires forall i :: 0 <= i < |moves| ==> CanMove(lives[i], moves[i]) && After(store, lives[i], moves[i]) == lives[i + 1]
    ensures LifeRun(store, lives[0], moves, lives[|moves|])
    decreases |moves|
  {
    hide CanMove, After;
    if moves != [] {
      assert CanMove(lives[0], moves[0]) && After(store, lives[0], moves[0]) == lives[1];
      LifeRunOfStates(store, moves[1..], lives[1..]);
    }
  }

  // The queue is idle and the job is due.
  predicate Idle(l: Life, job: int) {
    l.queue.workers == map[] && l.todo == map[] && job in l.queue.rows
  }

  // A claim whose one target has been attempted.
  predicate AtItsEnd(l: Life, job: int, attempts: nat, maxAttempts: int) {
    && l.queue.workers == map[0 := Holding(job, attempts, maxAttempts)] && l.todo == map[0 := []]
    && job in l.queue.rows && l.queue.rows[job].attempts == attempts && l.queue.rows[job].maxAttempts == maxAttempts
  }

  lemma AttemptedRound(store: Store, l: Life, job: int, target: int) returns (moves: seq<Move>, m: Life)
    requires Idle(l, job) && Claimable(l.queue.rows[job], l.queue.now)
    ensures LifeRun(store, l, moves, m) && AtItsEnd(m, job, l.queue.rows[job].attempts + 1, l.queue.rows[job].maxAttempts)
    ensures Times(m.deeds, job, target) == Times(l.deeds, job, target) + 1
  {
    hide LifeRun, Limit;
    moves := [Queue(Claim(0, job)), List(0, [target]), Attempt(0)];
    var l1 := After(store, l, moves[0]);
    var l2 := After(store, l1, moves[1]);
    m := After(store, l2, moves[2]);
    assert AtItsEnd(m, job, l.queue.rows[job].attempts + 1, l.queue.rows[job].maxAttempts);
    assert m.deeds[..|l.deeds|] == l.deeds;
    var lives := [l, l1, l2, m];
    assert forall i :: 0 <= i < 3 ==> CanMove(lives[i], moves[i]) && After(store, lives[i], moves[i]) == lives[i + 1];
    hide CanMove, After, Claimable, AtItsEnd;
    LifeRunOfStates(store, moves, lives);
  }

  lemma FailedEnd(store: Store, l: Life, job: int, attempts: nat, maxAttempts: int) returns (moves: seq<Move>, m: Life)
    requires AtItsEnd(l, job, attempts, maxAttempts)
    ensures LifeRun(store, l, moves, m) && Idle(m, job) && m.deeds == l.deeds
    ensures m.queue.rows[job].attempts == attempts && m.queue.rows[job].maxAttempts == maxAttempts
    ensures attempts < Limit(maxAttempts) ==> Claimable(m.queue.rows[job], m.queue.now)
  {
    hide LifeRun, Backoff;
    moves := [Queue(Finish(0, Some(""))), Queue(Apply(0)), Queue(Tick(Backoff(attempts)))];
    var l1 := After(store, l, moves[0]);
    var l2 := After(store, l1, moves[1]);
    m := After(store, l2, moves[2]);
    assert m.queue.workers == map[] && m.todo == map[];
    var lives := [l, l1, l2, m];
    assert forall i :: 0 <= i < 3 ==> CanMove(lives[i], moves[i]) && After(store, lives[i], moves[i]) == lives[i + 1];
    hide CanMove, After, AtItsEnd, MarkRow, Decide;
    LifeRunOfStates(store, moves, lives);
  }

  // A round that attempts its one target, fails, and waits until the job is due again.
  lemma FailedRound(store: Store, l: Life, job: int, target: int) returns (moves: seq<Move>, m: Life)
    requires Idle(l, job) && Claimable(l.queue.rows[job], l.queue.now)
    ensures LifeRun(store, l, moves, m) && Idle(m, job)
    ensures m.queue.rows[job].attempts == l.queue.rows[job].attempts + 1 && m.queue.rows[job].maxAttempts == l.queue.rows[job].maxAttempts
    ensures m.queue.rows[job].attempts < Limit(m.queue.rows[job].maxAttempts) ==> Claimable(m.queue.rows[job], m.queue.now)
    ensures Times(m.deeds, job, target) == Times(l.deeds, job, target) + 1
  {
    hide LifeRun, Times, AtItsEnd, Claimable, Limit;
    var first, mid := AttemptedRound(store, l, job, target);
    var second;
    second, m := FailedEnd(store, mid, job, l.queue.rows[job].attempts + 1, l.queue.rows[job].maxAttempts);
    LifeRunsConcat(store, l, first, mid, second, m);
    moves := first + second;
  }

  lemma {:induction false} FailedRounds(store: Store, l: Life, job: int, target: int, n: nat) returns (moves: seq<Move>, m: Life)
    requires Idle(l, job) && l.queue.rows[job].attempts + n <= Limit(l.queue.rows[job].maxAttempts)
    requires n > 0 ==> Claimable(l.queue.rows[job], l.queue.now)
    ensures LifeRun(store, l, moves, m) && job in m.queue.rows
    ensures m.queue.rows[job].maxAttempts == l.queue.rows[job].maxAttempts
    ensures Times(m.deeds, job, target) == Times(l.deeds, job, target) + n
    decreases n
  {
    if n == 0 {
      moves, m := [], l;
    } else {
      var first, mid := FailedRound(store, l, job, target);
      hide LifeRun, Times, Claimable;
      var rest;
      rest, m := FailedRounds(store, mid, job, target, n - 1);
      LifeRunsConcat(store, l, first, mid, rest, m);
      moves := first + rest;
    }
  }

  // So no smaller bound holds: for every limit there is a run in which one target is attempted
  // as often as the limit allows.
  lemma LimitReached(store: Store, maxAttempts: int, target: int) returns (moves: seq<Move>, l: Life)
    ensures LifeRun(store, Start(0), moves, l) && 1 in l.queue.rows && l.queue.rows[1].maxAttempts == maxAttempts
    ensures Times(l.deeds, 1, target) == Limit(maxAttempts)
  {
    var creation := Queue(CreateJob(1, maxAttempts, 0, 1));
    var begun := After(store, Start(0), creation);
    OneMoveMore(store, Start(0), [], Start(0), creation);
    assert [] + [creation] == [creation];
    var rest;
    rest, l := FailedRounds(store, begun, 1, target, Limit(maxAttempts));
    LifeRunsConcat(store, Start(0), [creation], begun, rest, l);
    moves := [creation] + rest;
  }
}
