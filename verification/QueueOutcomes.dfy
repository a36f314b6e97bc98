// What a row's status says about its past: the outcome of every claim whose mark was set,
// kept as history beside the queue.
module QueueOutcomes {
  import opened Text
  import opened QueueProtocol

  // How the processing of a claim ended, and when: without a failure, or with an error.
  datatype Outcome = Outcome(failure: Option<string>, at: int)

  // `heard` is what each worker has seen and not yet marked; `outcomes` what was marked, in
  // order; `born` when a row was first due.
  datatype Trace = Trace(queue: State, heard: map<int, Outcome>, outcomes: map<int, seq<Outcome>>, born: map<int, int>)

  function Start(now: int): Trace {
    Trace(Init(now), map[], map[], map[])
  }

  function OutcomesOf(t: Trace, id: int): seq<Outcome> {
    if id in t.outcomes then t.outcomes[id] else []
  }

  function Follow(kind: Kind, store: Store, t: Trace, step: Step): Trace
    requires Enabled(kind, t.queue, step)
  {
    var next := t.(queue := Next(kind, store, t.queue, step));
    match step
    case Enqueue(_) =>
      if next.queue.nextId == t.queue.nextId then next
      else next.(outcomes := t.outcomes[next.queue.nextId := []], born := t.born[next.queue.nextId := t.queue.now])
    case CreateJob(id, _, availableAt, _) =>
      next.(outcomes := t.outcomes[id := []], born := t.born[id := availableAt])
    case Finish(w, failure) => next.(heard := t.heard[w := Outcome(failure, t.queue.now)])
    case Apply(w) =>
      var id := t.queue.workers[w].id;
      if w in t.heard then
        next.(outcomes := t.outcomes[id := OutcomesOf(t, id) + [t.heard[w]]], heard := t.heard - {w})
      else next
    case Crash(w) => next.(heard := t.heard - {w})
    case _ => next
  }

  predicate TraceRun(kind: Kind, store: Store, t: Trace, steps: seq<Step>, u: Trace)
    decreases |steps|
  {
    if steps == [] then t == u
    else Enabled(kind, t.queue, steps[0]) && TraceRun(kind, store, Follow(kind, store, t, steps[0]), steps[1..], u)
  }

  // Every run of the queue has its history.
  lemma {:induction false} EveryRunIsTraced(kind: Kind, store: Store, t: Trace, steps: seq<Step>, s: State) returns (u: Trace)
    requires Run(kind, store, t.queue, steps, s)
    ensures TraceRun(kind, store, t, steps, u) && u.queue == s
    decreases |steps|
  {
    if steps == [] {
      u := t;
    } else {
      var next := Follow(kind, store, t, steps[0]);
      assert next.queue == Next(kind, store, t.queue, steps[0]);
      hide Enabled, Next, Follow;
      u := EveryRunIsTraced(kind, store, next, steps[1..], s);
    }
  }

  // ---------- The inductive invariant ----------

  // All outcomes but the last are failures below the limit, and the last one tells the rest.
  predicate RowTold(kind: Kind, row: Row, o: seq<Outcome>, born: int) {
    var n, limit := |o|, Limit(row.maxAttempts);
    && n <= limit
    && (forall i :: 0 <= i < n - 1 ==> o[i].failure.Some?)
    && if n > 0 && o[n - 1].failure.None? then row.status == Completed && row.attempts == n
       else if n == limit then row.status == Dead && row.attempts == n && row.error == o[n - 1].failure.value
       else if row.status == Processing then row.attempts == n + 1
       else
         && row.attempts == n
         && row.status == (if n == 0 || kind == Updates then Pending else Retry)
         && row.availableAt == (if n == 0 then born else o[n - 1].at + Backoff(n))
         && (n > 0 ==> row.error == o[n - 1].failure.value)
  }

  predicate HeardOk(t: Trace, w: int)
    requires w in t.queue.workers
  {
    var h := t.queue.workers[w];
    if h.Holding? then w !in t.heard
    else
      && w in t.heard
      && match t.heard[w].failure
         case None => h.mark == ToCompleted
         case Some(error) =>
           if h.attempts >= Limit(h.maxAttempts) then h.mark == ToDead(error)
           else h.mark == ToRetry(t.heard[w].at + Backoff(h.attempts), error)
  }

  ghost predicate RowsTold(kind: Kind, t: Trace) {
    && t.outcomes.Keys == t.queue.rows.Keys && t.born.Keys == t.queue.rows.Keys
    && forall id :: id in t.queue.rows ==> RowTold(kind, t.queue.rows[id], t.outcomes[id], t.born[id])
  }

  ghost predicate TraceInv(kind: Kind, t: Trace) {
    && Inv(kind, t.queue) && RowsTold(kind, t)
    && t.heard.Keys <= t.queue.workers.Keys
    && forall w :: w in t.queue.workers ==> HeardOk(t, w)
  }

  // The row that a worker holds is in processing, under the attempts the worker remembers.
  lemma HeldRow(kind: Kind, s: State, w: int)
    requires Inv(kind, s) && w in s.workers
    ensures var h := s.workers[w];
      && h.id in s.rows && s.rows[h.id].status == Processing
      && h.attempts == s.rows[h.id].attempts && h.maxAttempts == s.rows[h.id].maxAttempts
  {
    assert WorkerOk(s, s.workers[w]);
  }

  lemma NewRowTold(kind: Kind, store: Store, t: Trace, step: Step)
    requires TraceInv(kind, t) && Enabled(kind, t.queue, step) && (step.Enqueue? || step.CreateJob?)
    ensures RowsTold(kind, Follow(kind, store, t, step))
  {
    assert step.Enqueue? ==> t.queue.nextId + 1 !in t.queue.rows;
    hide Inv, Backoff, HeardOk;
  }

  lemma ApplyTold(kind: Kind, store: Store, t: Trace, w: int)
    requires TraceInv(kind, t) && Enabled(kind, t.queue, Apply(w))
    ensures RowsTold(kind, Follow(kind, store, t, Apply(w)))
  {
    HeldRow(kind, t.queue, w);
    hide Inv, Backoff;
    var id := t.queue.workers[w].id;
    assert HeardOk(t, w) && RowTold(kind, t.queue.rows[id], t.outcomes[id], t.born[id]);
    var u := Follow(kind, store, t, Apply(w));
    assert RowTold(kind, u.queue.rows[id], u.outcomes[id], u.born[id]);
    hide RowTold, HeardOk, MarkRow;
  }

  lemma ClaimTold(kind: Kind, row: Row, o: seq<Outcome>, born: int, now: int)
    requires RowTold(kind, row, o, born) && Claimable(row, now)
    ensures RowTold(kind, ClaimRow(row), o, born)
  {
    hide Backoff, Limit;
  }

  lemma ProgressTold(kind: Kind, row: Row, o: seq<Outcome>, born: int, progress: int, total: int, error: string)
    requires RowTold(kind, row, o, born) && row.status == Processing
    ensures RowTold(kind, ProgressRow(row, progress, total, error), o, born)
  {
    hide Backoff, Limit;
  }

  lemma OtherTold(kind: Kind, store: Store, t: Trace, step: Step)
    requires TraceInv(kind, t) && Enabled(kind, t.queue, step)
    requires !step.Enqueue? && !step.CreateJob? && !step.Apply?
    ensures RowsTold(kind, Follow(kind, store, t, step))
  {
    hide RowTold, HeardOk, Decide;
    if step.Progress? {
      HeldRow(kind, t.queue, step.w);
      var id := t.queue.workers[step.w].id;
      ProgressTold(kind, t.queue.rows[id], t.outcomes[id], t.born[id], step.progress, step.total, step.error);
    } else if step.Claim? {
      ClaimTold(kind, t.queue.rows[step.id], t.outcomes[step.id], t.born[step.id], t.queue.now);
    }
    hide Inv, Claimable, ClaimRow, ProgressRow;
  }

  lemma FinishKeepsHeard(kind: Kind, store: Store, t: Trace, w: int, failure: Option<string>)
    requires TraceInv(kind, t) && Enabled(kind, t.queue, Finish(w, failure))
    ensures HeardOk(Follow(kind, store, t, Finish(w, failure)), w)
  {
    hide Inv, RowsTold, Backoff, Limit;
  }

  lemma FollowKeepsHeard(kind: Kind, store: Store, t: Trace, step: Step)
    requires TraceInv(kind, t) && Enabled(kind, t.queue, step)
    ensures var u := Follow(kind, store, t, step);
      u.heard.Keys <= u.queue.workers.Keys && forall w :: w in u.queue.workers ==> HeardOk(u, w)
  {
    hide Inv, RowsTold, Backoff, MarkRow, Decide, Limit, NewUpdate, NewJob, HasKey, Claimable, ProgressRow;
    var u := Follow(kind, store, t, step);
    forall w | w in u.queue.workers ensures HeardOk(u, w) {
      if step.Finish? && step.w == w {
        FinishKeepsHeard(kind, store, t, w, step.failure);
      } else {
        assert w in t.queue.workers ==> HeardOk(t, w);
      }
    }
  }

  lemma FollowKeepsInv(kind: Kind, store: Store, t: Trace, step: Step)
    requires TraceInv(kind, t) && Enabled(kind, t.queue, step)
    ensures TraceInv(kind, Follow(kind, store, t, step))
  {
    hide Inv, RowsTold, HeardOk;
    StepKeepsInv(kind, store, t.queue, step);
    FollowKeepsHeard(kind, store, t, step);
    match step
    case Enqueue(_) => NewRowTold(kind, store, t, step);
    case CreateJob(_, _, _, _) => NewRowTold(kind, store, t, step);
    case Apply(w) => ApplyTold(kind, store, t, w);
    case _ => OtherTold(kind, store, t, step);
  }

  lemma {:induction false} TraceRunKeepsInv(kind: Kind, store: Store, t: Trace, steps: seq<Step>, u: Trace)
    requires TraceInv(kind, t) && TraceRun(kind, store, t, steps, u)
    ensures TraceInv(kind, u)
    decreases |steps|
  {
    if steps != [] {
      FollowKeepsInv(kind, store, t, steps[0]);
      hide TraceInv, Follow, Enabled;
      TraceRunKeepsInv(kind, store, Follow(kind, store, t, steps[0]), steps[1..], u);
    }
  }

  // ---------- What a status means ----------

  predicate Succeeded(o: seq<Outcome>) {
    exists i :: 0 <= i < |o| && o[i].failure.None?
  }

  // In every run: a row is completed iff one of its claims ended without a failure and was
  // marked; dead iff as many claims as it is allowed have failed and were marked, with the
  // last error; otherwise it waits, unless a claim is not marked yet. Waiting rows carry the
  // last error and are due attempts² seconds after it.
  lemma StatusIsOutcome(kind: Kind, store: Store, start: int, steps: seq<Step>, t: Trace, id: int)
    requires TraceRun(kind, store, Start(start), steps, t) && id in t.queue.rows
    ensures id in t.outcomes && id in t.born
    ensures
      var row, o := t.queue.rows[id], t.outcomes[id];
      var n, limit := |o|, if row.maxAttempts < 1 then 5 else row.maxAttempts;
      && (row.status == Completed <==> Succeeded(o))
      && (row.status == Dead <==> !Succeeded(o) && n == limit)
      && (Waiting(row) <==> !Succeeded(o) && n < limit && n == row.attempts)
      && (row.status == Processing <==> !Succeeded(o) && n < limit && n + 1 == row.attempts)
      && (row.status == Dead ==> row.error == o[n - 1].failure.value)
      && (Waiting(row) ==>
            && row.status == (if kind == Jobs && n > 0 then Retry else Pending)
            && (n == 0 ==> row.availableAt == t.born[id])
            && (n > 0 ==> row.error == o[n - 1].failure.value && SquaredSecondsAfter(row.availableAt, o[n - 1].at, n)))
  {
    InitOk(kind, start);
    TraceRunKeepsInv(kind, store, Start(start), steps, t);
    var row, o := t.queue.rows[id], t.outcomes[id];
    assert RowTold(kind, row, o, t.born[id]);
    hide Inv, Backoff, TraceRun;
    if o != [] {
      BackoffIsSquared(o[|o| - 1].at, |o|);
      hide SquaredSecondsAfter;
      assert o[|o| - 1].failure.None? ==> Succeeded(o);
    }
  }

  // An idle worker can claim a row iff all its claims are marked and were failures, fewer than
  // it is allowed, and it is time: at once for a new row, attempts² seconds after a failure.
  lemma ClaimedFrom(kind: Kind, store: Store, start: int, steps: seq<Step>, t: Trace, w: int, id: int)
    requires TraceRun(kind, store, Start(start), steps, t) && w !in t.queue.workers && id in t.queue.rows
    requires |OutcomesOf(t, id)| <= 96038
    ensures id in t.outcomes && id in t.born
    ensures
      var row, o := t.queue.rows[id], t.outcomes[id];
      var n, limit := |o|, if row.maxAttempts < 1 then 5 else row.maxAttempts;
      Enabled(kind, t.queue, Claim(w, id)) <==>
        && !Succeeded(o) && n < limit && n == row.attempts
        && t.queue.now >= if n == 0 then t.born[id] else o[n - 1].at + n * n * SECOND
  {
    StatusIsOutcome(kind, store, start, steps, t, id);
    hide TraceRun, Succeeded;
  }
}
