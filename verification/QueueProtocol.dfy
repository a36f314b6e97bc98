// The durable queue: rows are claimed, processed and marked by any number of
// concurrent workers. Telegram updates and background jobs follow the same protocol;
// `Kind` says where they differ. Every step below is one atomic store call, one clock
// tick, one local decision of a worker, or a crash.
module QueueProtocol {
  import opened Text

  const SECOND: int := 1_000_000_000
  const MAX_RETRY_COUNT: int := 5

  datatype Kind = Updates | Jobs
  datatype Store = Memory | Postgres
  datatype Status = Pending | Retry | Processing | Completed | Dead

  // Updates carry the key they are deduplicated by; jobs have random ids instead.
  datatype Key = UpdateKey(botId: string, updateId: int) | NoKey

  datatype Row = Row(
    key: Key, status: Status, attempts: nat, maxAttempts: int, availableAt: int,
    error: string, progress: int, total: int)

  type Table = map<int, Row>

  // Update rows have no limit of their own, which reads as a job limit below one.
  function Limit(maxAttempts: int): (limit: nat)
    ensures limit >= 1
  {
    if maxAttempts < 1 then MAX_RETRY_COUNT else maxAttempts
  }

  // attempts² seconds as a 64-bit count of nanoseconds, and at least one second.
  function Backoff(attempts: nat): (d: int)
    ensures d >= SECOND
  {
    var d := Wrap64(attempts * attempts * SECOND);
    if d < SECOND then SECOND else d
  }

  predicate Claimable(row: Row, now: int) {
    (row.status == Pending || row.status == Retry) && row.availableAt <= now
  }

  predicate Waiting(row: Row) {
    row.status == Pending || row.status == Retry
  }

  predicate Terminal(row: Row) {
    row.status == Completed || row.status == Dead
  }

  // ---------- Store calls ----------

  function NewUpdate(key: Key, now: int): Row {
    Row(key, Pending, 0, 0, now, "", 0, 0)
  }

  function NewJob(maxAttempts: int, availableAt: int, total: int): Row {
    Row(NoKey, Pending, 0, maxAttempts, availableAt, "", 0, total)
  }

  predicate HasKey(t: Table, key: Key) {
    exists id :: id in t && t[id].key == key
  }

  function ClaimRow(row: Row): Row {
    row.(status := Processing, attempts := row.attempts + 1)
  }

  datatype Mark = ToCompleted | ToRetry(availableAt: int, error: string) | ToDead(error: string)

  function RetryStatus(kind: Kind): Status {
    if kind == Updates then Pending else Retry
  }

  // None of the marks looks at the status it overwrites. The Postgres retry of an update
  // ignores the attempts it is given.
  function MarkRow(kind: Kind, store: Store, row: Row, attempts: nat, mark: Mark): Row {
    match mark
    case ToCompleted => row.(status := Completed)
    case ToDead(error) => row.(status := Dead, error := error)
    case ToRetry(availableAt, error) =>
      row.(status := RetryStatus(kind),
           attempts := if kind == Updates && store == Postgres then row.attempts else attempts,
           availableAt := availableAt, error := error)
  }

  function ProgressRow(row: Row, progress: int, total: int, error: string): Row {
    row.(status := Processing, progress := progress, total := total, error := error)
  }

  // A worker's decision after processing a claimed row.
  function Decide(attempts: nat, maxAttempts: int, failure: Option<string>, now: int): Mark {
    match failure
    case None => ToCompleted
    case Some(error) =>
      if attempts >= Limit(maxAttempts) then ToDead(error)
      else ToRetry(now + Backoff(attempts), error)
  }

  // ---------- The transition system ----------

  // What a worker remembers of the row it claimed, and the mark it has decided on.
  datatype Worker =
    | Holding(id: int, attempts: nat, maxAttempts: int)
    | Marking(id: int, attempts: nat, maxAttempts: int, mark: Mark)

  // `claims` records, for each row, the times at which it was claimed.
  datatype State = State(now: int, rows: Table, nextId: int, workers: map<int, Worker>, claims: map<int, seq<int>>)

  datatype Step =
    | Tick(d: nat)
    | Enqueue(key: Key)
    | CreateJob(id: int, maxAttempts: int, availableAt: int, total: int)
    | Claim(w: int, id: int)
    | Progress(w: int, progress: int, total: int, error: string)
    | Finish(w: int, failure: Option<string>)
    | Apply(w: int)
    | Crash(w: int)

  function Init(now: int): State {
    State(now, map[], 0, map[], map[])
  }

  predicate Enabled(kind: Kind, s: State, step: Step) {
    match step
    case Tick(_) => true
    case Enqueue(key) => kind == Updates && key.UpdateKey?
    case CreateJob(id, _, _, _) => kind == Jobs && id !in s.rows
    case Claim(w, id) => w !in s.workers && id in s.rows && Claimable(s.rows[id], s.now)
    case Progress(w, _, _, _) => kind == Jobs && w in s.workers && s.workers[w].Holding? && s.workers[w].id in s.rows
    case Finish(w, _) => w in s.workers && s.workers[w].Holding?
    case Apply(w) => w in s.workers && s.workers[w].Marking? && s.workers[w].id in s.rows
    case Crash(w) => w in s.workers
  }

  function Next(kind: Kind, store: Store, s: State, step: Step): State
    requires Enabled(kind, s, step)
  {
    match step
    case Tick(d) => s.(now := s.now + d)
    case Enqueue(key) =>
      if HasKey(s.rows, key) then s
      else
        var id := s.nextId + 1;
        s.(nextId := id, rows := s.rows[id := NewUpdate(key, s.now)], claims := s.claims[id := []])
    case CreateJob(id, maxAttempts, availableAt, total) =>
      s.(rows := s.rows[id := NewJob(maxAttempts, availableAt, total)],
         claims := s.claims[id := []])
    case Claim(w, id) =>
      var row := ClaimRow(s.rows[id]);
      var before := if id in s.claims then s.claims[id] else [];
      s.(rows := s.rows[id := row],
         workers := s.workers[w := Holding(id, row.attempts, row.maxAttempts)],
         claims := s.claims[id := before + [s.now]])
    case Progress(w, progress, total, error) =>
      var id := s.workers[w].id;
      s.(rows := s.rows[id := ProgressRow(s.rows[id], progress, total, error)])
    case Finish(w, failure) =>
      var h := s.workers[w];
      var mark := Decide(h.attempts, h.maxAttempts, failure, s.now);
      s.(workers := s.workers[w := Marking(h.id, h.attempts, h.maxAttempts, mark)])
    case Apply(w) =>
      var h := s.workers[w];
      s.(rows := s.rows[h.id := MarkRow(kind, store, s.rows[h.id], h.attempts, h.mark)],
         workers := s.workers - {w})
    case Crash(w) => s.(workers := s.workers - {w})
  }

  // The steps lead from s to t.
  predicate Run(kind: Kind, store: Store, s: State, steps: seq<Step>, t: State)
    decreases |steps|
  {
    if steps == [] then s == t
    else Enabled(kind, s, steps[0]) && Run(kind, store, Next(kind, store, s, steps[0]), steps[1..], t)
  }

  // ---------- The inductive invariant ----------

  // Attempts allowed in each status.
  predicate RowOk(row: Row) {
    match row.status
    case Pending => row.attempts < Limit(row.maxAttempts)
    case Retry => row.attempts < Limit(row.maxAttempts)
    case Processing => 1 <= row.attempts <= Limit(row.maxAttempts)
    case Completed => 1 <= row.attempts <= Limit(row.maxAttempts)
    case Dead => row.attempts == Limit(row.maxAttempts)
  }

  // Claims of one row lie at least the backoff apart, and a row waiting for its next
  // claim is not due before the backoff has passed.
  predicate ClaimsOk(row: Row, claims: seq<int>, now: int) {
    && |claims| == row.attempts
    && (claims != [] ==> claims[|claims| - 1] <= now)
    && (forall a :: 1 <= a < |claims| ==> claims[a] >= claims[a - 1] + Backoff(a))
    && (claims != [] && (row.status == Pending || row.status == Retry) ==>
          row.availableAt >= claims[|claims| - 1] + Backoff(|claims|))
  }

  predicate WorkerOk(s: State, h: Worker) {
    && h.id in s.rows && h.id in s.claims
    && s.rows[h.id].status == Processing
    && s.rows[h.id].attempts == h.attempts
    && s.rows[h.id].maxAttempts == h.maxAttempts
    && (h.Marking? && h.mark.ToDead? ==> h.attempts >= Limit(h.maxAttempts))
    && (h.Marking? && h.mark.ToRetry? ==>
          && h.attempts < Limit(h.maxAttempts)
          && |s.claims[h.id]| == h.attempts >= 1
          && h.mark.availableAt >= s.claims[h.id][h.attempts - 1] + Backoff(h.attempts))
  }

  ghost predicate Exclusive(s: State) {
    forall v, w :: v in s.workers && w in s.workers && s.workers[v].id == s.workers[w].id ==> v == w
  }

  ghost predicate KeysOk(kind: Kind, s: State) {
    kind == Updates ==>
      && (forall id :: id in s.rows ==> id <= s.nextId && s.rows[id].key.UpdateKey?)
      && (forall i, j :: i in s.rows && j in s.rows && s.rows[i].key == s.rows[j].key ==> i == j)
      && (forall id :: id in s.rows ==> s.rows[id].maxAttempts == 0)
  }

  ghost predicate Inv(kind: Kind, s: State) {
    && s.claims.Keys == s.rows.Keys
    && (forall id :: id in s.rows ==> RowOk(s.rows[id]) && ClaimsOk(s.rows[id], s.claims[id], s.now))
    && (forall w :: w in s.workers ==> WorkerOk(s, s.workers[w]))
    && Exclusive(s)
    && KeysOk(kind, s)
  }

  lemma TickKeepsInv(kind: Kind, store: Store, s: State, step: Step)
    requires Inv(kind, s) && step.Tick?
    ensures Inv(kind, Next(kind, store, s, step))
  {
  }

  lemma NewRowKeepsInv(kind: Kind, store: Store, s: State, step: Step)
    requires Inv(kind, s) && Enabled(kind, s, step) && (step.Enqueue? || step.CreateJob?)
    ensures Inv(kind, Next(kind, store, s, step))
  {
    hide Backoff;
  }

  ghost predicate RowAt(s: State, id: int) {
    id in s.rows && id in s.claims && RowOk(s.rows[id]) && ClaimsOk(s.rows[id], s.claims[id], s.now)
  }

  lemma ClaimedRowOk(row: Row, claims: seq<int>, now: int)
    requires RowOk(row) && ClaimsOk(row, claims, now) && Claimable(row, now)
    ensures RowOk(ClaimRow(row)) && ClaimsOk(ClaimRow(row), claims + [now], now)
  {
  }

  // A step that changes one row, and the claims recorded for it.
  ghost predicate ChangesRow(s: State, t: State, id: int) {
    && id in s.rows && id in t.rows && id in s.claims && id in t.claims
    && t.now == s.now && t.nextId == s.nextId
    && t.rows == s.rows[id := t.rows[id]] && t.claims == s.claims[id := t.claims[id]]
    && t.rows[id].key == s.rows[id].key && t.rows[id].maxAttempts == s.rows[id].maxAttempts
  }

  lemma RowChangeKeepsInv(kind: Kind, s: State, t: State, id: int)
    requires Inv(kind, s) && ChangesRow(s, t, id)
    requires RowOk(t.rows[id]) && ClaimsOk(t.rows[id], t.claims[id], t.now)
    requires Exclusive(t) && forall w :: w in t.workers ==> WorkerOk(t, t.workers[w])
    ensures Inv(kind, t)
  {
    hide RowOk, ClaimsOk, WorkerOk, Exclusive;
    assert t.rows.Keys == s.rows.Keys && t.claims.Keys == s.claims.Keys;
  }

  lemma OtherWorkerOk(s: State, t: State, h: Worker, id: int)
    requires WorkerOk(s, h) && h.id != id && ChangesRow(s, t, id)
    ensures WorkerOk(t, h)
  {
    hide Backoff, Limit;
  }

  lemma ClaimKeepsInv(kind: Kind, store: Store, s: State, w: int, id: int)
    requires Inv(kind, s) && Enabled(kind, s, Claim(w, id))
    ensures Inv(kind, Next(kind, store, s, Claim(w, id)))
  {
    hide Backoff, RowOk, ClaimsOk;
    var t := Next(kind, store, s, Claim(w, id));
    ClaimedRowOk(s.rows[id], s.claims[id], s.now);
    NotHeld(kind, s, id);
    forall v | v in t.workers ensures WorkerOk(t, t.workers[v]) {
      if v != w {
        OtherWorkerOk(s, t, s.workers[v], id);
      }
    }
    hide WorkerOk;
    RowChangeKeepsInv(kind, s, t, id);
  }

  // What can be claimed is not held.
  lemma NotHeld(kind: Kind, s: State, id: int)
    requires Inv(kind, s) && id in s.rows && s.rows[id].status != Processing
    ensures forall w :: w in s.workers ==> s.workers[w].id != id && WorkerOk(s, s.workers[w])
  {
    hide RowOk, ClaimsOk, Backoff;
  }

  lemma ProgressRowOk(row: Row, claims: seq<int>, now: int, progress: int, total: int, error: string)
    requires RowOk(row) && ClaimsOk(row, claims, now) && row.status == Processing
    ensures RowOk(ProgressRow(row, progress, total, error)) && ClaimsOk(ProgressRow(row, progress, total, error), claims, now)
  {
    hide Backoff;
  }

  lemma SameWorkerOk(s: State, t: State, h: Worker)
    requires WorkerOk(s, h) && ChangesRow(s, t, h.id) && t.claims == s.claims
    requires t.rows[h.id].status == Processing && t.rows[h.id].attempts == s.rows[h.id].attempts
    ensures WorkerOk(t, h)
  {
    hide Backoff, Limit;
  }

  lemma ProgressKeepsInv(kind: Kind, store: Store, s: State, step: Step)
    requires Inv(kind, s) && Enabled(kind, s, step) && step.Progress?
    ensures Inv(kind, Next(kind, store, s, step))
  {
    hide Backoff, RowOk, ClaimsOk;
    var t, id := Next(kind, store, s, step), s.workers[step.w].id;
    assert WorkerOk(s, s.workers[step.w]);
    ProgressRowOk(s.rows[id], s.claims[id], s.now, step.progress, step.total, step.error);
    assert ChangesRow(s, t, id);
    forall v | v in t.workers ensures WorkerOk(t, t.workers[v]) {
      assert WorkerOk(s, s.workers[v]);
      if s.workers[v].id == id {
        SameWorkerOk(s, t, s.workers[v]);
      } else {
        OtherWorkerOk(s, t, s.workers[v], id);
      }
    }
    hide WorkerOk;
    RowChangeKeepsInv(kind, s, t, id);
  }

  // The decision of a worker fits the row it holds.
  lemma DecidedWorkerOk(s: State, h: Worker, failure: Option<string>)
    requires h.Holding? && WorkerOk(s, h) && RowAt(s, h.id)
    ensures WorkerOk(s, Marking(h.id, h.attempts, h.maxAttempts, Decide(h.attempts, h.maxAttempts, failure, s.now)))
  {
    hide Backoff;
  }

  lemma WorkerStepKeepsInv(kind: Kind, store: Store, s: State, step: Step)
    requires Inv(kind, s) && Enabled(kind, s, step) && (step.Finish? || step.Crash?)
    ensures Inv(kind, Next(kind, store, s, step))
  {
    hide Backoff, RowOk, ClaimsOk, Decide;
    var t := Next(kind, store, s, step);
    if step.Finish? {
      DecidedWorkerOk(s, s.workers[step.w], step.failure);
    }
    forall v | v in t.workers ensures WorkerOk(t, t.workers[v]) {
      assert WorkerOk(s, s.workers[v]);
    }
    hide WorkerOk;
  }

  // The mark a worker has decided on fits the row it holds, whatever other workers did
  // in between.
  lemma MarkedRowOk(kind: Kind, store: Store, s: State, h: Worker)
    requires h.Marking? && WorkerOk(s, h)
    requires RowOk(s.rows[h.id]) && ClaimsOk(s.rows[h.id], s.claims[h.id], s.now)
    ensures
      var row := MarkRow(kind, store, s.rows[h.id], h.attempts, h.mark);
      RowOk(row) && ClaimsOk(row, s.claims[h.id], s.now)
  {
  }

  lemma ApplyKeepsInv(kind: Kind, store: Store, s: State, w: int)
    requires Inv(kind, s) && Enabled(kind, s, Apply(w))
    ensures Inv(kind, Next(kind, store, s, Apply(w)))
  {
    hide Backoff, RowOk, ClaimsOk;
    var t, h := Next(kind, store, s, Apply(w)), s.workers[w];
    assert WorkerOk(s, h);
    MarkedRowOk(kind, store, s, h);
    assert ChangesRow(s, t, h.id);
    forall v | v in t.workers ensures WorkerOk(t, t.workers[v]) {
      assert WorkerOk(s, s.workers[v]) && s.workers[v].id != h.id;
      OtherWorkerOk(s, t, s.workers[v], h.id);
    }
    hide WorkerOk;
    RowChangeKeepsInv(kind, s, t, h.id);
  }

  lemma StepKeepsInv(kind: Kind, store: Store, s: State, step: Step)
    requires Inv(kind, s) && Enabled(kind, s, step)
    ensures Inv(kind, Next(kind, store, s, step))
  {
    match step
    case Tick(_) => TickKeepsInv(kind, store, s, step);
    case Enqueue(_) => NewRowKeepsInv(kind, store, s, step);
    case CreateJob(_, _, _, _) => NewRowKeepsInv(kind, store, s, step);
    case Claim(w, id) => ClaimKeepsInv(kind, store, s, w, id);
    case Progress(_, _, _, _) => ProgressKeepsInv(kind, store, s, step);
    case Finish(_, _) => WorkerStepKeepsInv(kind, store, s, step);
    case Crash(_) => WorkerStepKeepsInv(kind, store, s, step);
    case Apply(w) => ApplyKeepsInv(kind, store, s, w);
  }

  lemma {:induction false} RunKeepsInv(kind: Kind, store: Store, s: State, steps: seq<Step>, t: State)
    requires Inv(kind, s) && Run(kind, store, s, steps, t)
    ensures Inv(kind, t)
    decreases |steps|
  {
    if steps != [] {
      StepKeepsInv(kind, store, s, steps[0]);
      RunKeepsInv(kind, store, Next(kind, store, s, steps[0]), steps[1..], t);
    }
  }

  // ---------- Safety of every run ----------

  // In every state any interleaving of any number of workers can reach, crashes included:
  // a row is held by at most one worker, a held row is still being processed and still has
  // the attempts the worker remembers, nothing is claimed more often than its limit, and an
  // update is stored only once.
  lemma QueueSafety(kind: Kind, store: Store, start: int, steps: seq<Step>, t: State)
    requires Run(kind, store, Init(start), steps, t)
    ensures forall v, w :: v in t.workers && w in t.workers && t.workers[v].id == t.workers[w].id ==> v == w
    ensures forall w :: w in t.workers ==>
      var h := t.workers[w];
      h.id in t.rows && t.rows[h.id].status == Processing && t.rows[h.id].attempts == h.attempts
    ensures forall id :: id in t.rows ==>
      var row, limit := t.rows[id], Limit(t.rows[id].maxAttempts);
      && (row.status == Pending || row.status == Retry ==> row.attempts <= limit - 1)
      && (row.status == Processing ==> 1 <= row.attempts <= limit)
      && (row.status == Dead ==> row.attempts == limit)
      && id in t.claims && |t.claims[id]| == row.attempts <= limit
    ensures kind == Updates ==> forall id :: id in t.rows ==> Limit(t.rows[id].maxAttempts) == 5
    ensures kind == Updates ==> forall i, j :: i in t.rows && j in t.rows && t.rows[i].key == t.rows[j].key ==> i == j
  {
    RunKeepsInv(kind, store, Init(start), steps, t);
    forall w | w in t.workers
      ensures var h := t.workers[w];
        h.id in t.rows && t.rows[h.id].status == Processing && t.rows[h.id].attempts == h.attempts
    {
      assert WorkerOk(t, t.workers[w]);
    }
    forall id | id in t.rows ensures RowOk(t.rows[id]) && ClaimsOk(t.rows[id], t.claims[id], t.now) {
    }
  }

  lemma StepKeepsTerminal(kind: Kind, store: Store, s: State, step: Step, id: int)
    requires Inv(kind, s) && Enabled(kind, s, step)
    requires id in s.rows && Terminal(s.rows[id])
    ensures id in Next(kind, store, s, step).rows && Next(kind, store, s, step).rows[id] == s.rows[id]
  {
    hide RowOk, ClaimsOk, Backoff, Exclusive, Decide, MarkRow;
    NotHeld(kind, s, id);
    hide WorkerOk;
  }

  // Completed and dead rows never change again.
  lemma {:induction false} TerminalForever(kind: Kind, store: Store, s: State, steps: seq<Step>, t: State, id: int)
    requires Inv(kind, s) && Run(kind, store, s, steps, t)
    requires id in s.rows && Terminal(s.rows[id])
    ensures id in t.rows && t.rows[id] == s.rows[id]
    decreases |steps|
  {
    hide Inv, Next, Enabled;
    if steps != [] {
      StepKeepsInv(kind, store, s, steps[0]);
      StepKeepsTerminal(kind, store, s, steps[0], id);
      TerminalForever(kind, store, Next(kind, store, s, steps[0]), steps[1..], t, id);
    }
  }

  // Postgres drops the attempts argument of an update's retry and the memory store writes
  // it: no run can tell them apart.
  lemma {:induction false} StoresAgree(kind: Kind, s: State, steps: seq<Step>, t: State)
    requires Inv(kind, s)
    ensures Run(kind, Memory, s, steps, t) <==> Run(kind, Postgres, s, steps, t)
    decreases |steps|
  {
    if steps != [] && Enabled(kind, s, steps[0]) {
      var u := Next(kind, Memory, s, steps[0]);
      if steps[0].Apply? {
        assert WorkerOk(s, s.workers[steps[0].w]);
      }
      assert u == Next(kind, Postgres, s, steps[0]);
      StepKeepsInv(kind, Memory, s, steps[0]);
      StoresAgree(kind, u, steps[1..], t);
    }
  }

  // ---------- Retry spacing ----------

  // The backoff is attempts² seconds for as long as that fits 64 bits, and for no other
  // number of attempts.
  lemma BackoffExact(attempts: nat)
    requires attempts >= 1
    ensures Backoff(attempts) == attempts * attempts * SECOND <==> attempts <= 96038
  {
    var square := attempts * attempts;
    if attempts <= 96038 {
      SquareMonotone(1, attempts);
      SquareMonotone(attempts, 96038);
      assert SECOND <= square * SECOND <= MAX_INT64;
    } else {
      SquareMonotone(96039, attempts);
      assert square * SECOND > MAX_INT64;
    }
  }

  // attempts² seconds after an instant, as far as 64 bits count them.
  predicate SquaredSecondsAfter(t: int, since: int, attempts: nat) {
    t >= since + SECOND && (1 <= attempts <= 96038 ==> t == since + attempts * attempts * SECOND)
  }

  lemma BackoffIsSquared(since: int, attempts: nat)
    requires attempts >= 1
    ensures SquaredSecondsAfter(since + Backoff(attempts), since, attempts)
  {
    BackoffExact(attempts);
  }

  lemma SquareMonotone(a: nat, b: nat)
    requires a <= b
    ensures a * a <= b * b
  {
    assert a * a <= a * b <= b * b;
  }

  // The sum of k² for 1 <= k < a.
  function SquaresBelow(a: nat): nat
    requires a >= 1
  {
    if a == 1 then 0 else SquaresBelow(a - 1) + (a - 1) * (a - 1)
  }

  lemma {:induction false} SquaresClosedForm(a: nat)
    requires a >= 1
    ensures 6 * SquaresBelow(a) == (a - 1) * a * (2 * a - 1)
  {
    if a > 1 {
      SquaresClosedForm(a - 1);
      var b := a - 1;
      assert (b - 1) * b * (2 * b - 1) + 6 * (b * b) == b * (b + 1) * (2 * b + 1);
    }
  }

  lemma {:induction false} ClaimsSpread(row: Row, claims: seq<int>, now: int, a: nat)
    requires ClaimsOk(row, claims, now) && 1 <= a <= |claims|
    requires |claims| <= 96039
    ensures claims[a - 1] >= claims[0] + SquaresBelow(a) * SECOND
  {
    if a > 1 {
      ClaimsSpread(row, claims, now, a - 1);
      BackoffExact(a - 1);
      hide Backoff;
      assert claims[a - 1] >= claims[a - 2] + Backoff(a - 1);
    }
  }

  // In every run, the a-th claim of a row comes at least (a-1)·a·(2a-1)/6 seconds after its
  // first claim, for every limit at which the backoff before it still fits 64 bits.
  lemma RetrySpacing(kind: Kind, store: Store, start: int, steps: seq<Step>, t: State, id: int, a: nat)
    requires Run(kind, store, Init(start), steps, t)
    requires id in t.rows && id in t.claims && 1 <= a <= |t.claims[id]|
    requires Limit(t.rows[id].maxAttempts) <= 96039
    ensures 6 * (t.claims[id][a - 1] - t.claims[id][0]) >= (a - 1) * a * (2 * a - 1) * SECOND
  {
    RunKeepsInv(kind, store, Init(start), steps, t);
    assert RowOk(t.rows[id]) && ClaimsOk(t.rows[id], t.claims[id], t.now);
    ClaimsSpread(t.rows[id], t.claims[id], t.now, a);
    SquaresClosedForm(a);
  }

  // ---------- Progress ----------

  // How many more claims and marks a row can need.
  function Cost(row: Row): nat {
    var left: int := Limit(row.maxAttempts) - row.attempts;
    if Terminal(row) || left < 0 then 0
    else if row.status == Processing then 2 * left + 1
    else 2 * left
  }

  ghost function Potential(rows: Table): nat
    decreases |rows|
  {
    if forall id :: id !in rows then 0
    else
      var id :| id in rows;
      Cost(rows[id]) + Potential(rows - {id})
  }

  lemma {:induction false} PotentialWithout(rows: Table, id: int)
    requires id in rows
    ensures Potential(rows) == Cost(rows[id]) + Potential(rows - {id})
    decreases |rows|
  {
    var first :| first in rows && Potential(rows) == Cost(rows[first]) + Potential(rows - {first});
    if first != id {
      PotentialWithout(rows - {first}, id);
      PotentialWithout(rows - {id}, first);
      assert rows - {first} - {id} == rows - {id} - {first};
    }
  }

  lemma PotentialUpdate(rows: Table, id: int, row: Row)
    requires id in rows
    ensures Potential(rows[id := row]) + Cost(rows[id]) == Potential(rows) + Cost(row)
  {
    PotentialWithout(rows, id);
    PotentialWithout(rows[id := row], id);
    assert rows[id := row] - {id} == rows - {id};
  }

  predicate IsWork(step: Step) {
    step.Claim? || step.Apply?
  }

  predicate AddsRow(step: Step) {
    step.Enqueue? || step.CreateJob?
  }

  function WorkDone(steps: seq<Step>): nat {
    if steps == [] then 0 else (if IsWork(steps[0]) then 1 else 0) + WorkDone(steps[1..])
  }

  lemma ClaimCost(row: Row, now: int)
    requires Claimable(row, now) && RowOk(row)
    ensures Cost(ClaimRow(row)) < Cost(row)
  {
  }

  lemma MarkCost(kind: Kind, store: Store, s: State, h: Worker)
    requires h.Marking? && WorkerOk(s, h) && RowOk(s.rows[h.id])
    ensures Cost(MarkRow(kind, store, s.rows[h.id], h.attempts, h.mark)) < Cost(s.rows[h.id])
  {
    hide Backoff;
  }

  lemma ProgressCost(row: Row, progress: int, total: int, error: string)
    requires row.status == Processing
    ensures Cost(ProgressRow(row, progress, total, error)) == Cost(row)
  {
  }

  // Every claim and every mark uses up potential; nothing but a new row adds any.
  lemma StepUsesPotential(kind: Kind, store: Store, s: State, step: Step)
    requires Inv(kind, s) && Enabled(kind, s, step) && !AddsRow(step)
    ensures
      var t := Next(kind, store, s, step);
      if IsWork(step) then Potential(t.rows) < Potential(s.rows) else Potential(t.rows) == Potential(s.rows)
  {
    hide Backoff, ClaimsOk, RowOk, Cost, Potential, MarkRow, Decide;
    match step
    case Claim(w, id) =>
      ClaimCost(s.rows[id], s.now);
      PotentialUpdate(s.rows, id, ClaimRow(s.rows[id]));
    case Apply(w) =>
      var h := s.workers[w];
      assert WorkerOk(s, h);
      MarkCost(kind, store, s, h);
      PotentialUpdate(s.rows, h.id, MarkRow(kind, store, s.rows[h.id], h.attempts, h.mark));
    case Progress(w, progress, total, error) =>
      var h := s.workers[w];
      assert WorkerOk(s, h);
      ProgressCost(s.rows[h.id], progress, total, error);
      PotentialUpdate(s.rows, h.id, ProgressRow(s.rows[h.id], progress, total, error));
    case _ =>
  }

  // Without new rows, the claims and marks of a run are bounded by the potential it starts
  // with: the queue cannot be busy forever.
  lemma {:induction false} WorkIsBounded(kind: Kind, store: Store, s: State, steps: seq<Step>, t: State)
    requires Inv(kind, s) && Run(kind, store, s, steps, t)
    requires forall step :: step in steps ==> !AddsRow(step)
    ensures WorkDone(steps) + Potential(t.rows) <= Potential(s.rows)
    decreases |steps|
  {
    if steps != [] {
      StepUsesPotential(kind, store, s, steps[0]);
      StepKeepsInv(kind, store, s, steps[0]);
      assert forall step :: step in steps[1..] ==> step in steps;
      WorkIsBounded(kind, store, Next(kind, store, s, steps[0]), steps[1..], t);
    }
  }

  // A row in processing that no worker holds: what a crash leaves behind.
  ghost predicate Orphan(s: State, id: int) {
    id in s.rows && s.rows[id].status == Processing && forall w :: w in s.workers ==> s.workers[w].id != id
  }

  ghost predicate Drained(s: State) {
    forall id :: id in s.rows ==> Terminal(s.rows[id])
  }

  lemma StepKeepsOrphan(kind: Kind, store: Store, s: State, step: Step, id: int)
    requires Inv(kind, s) && Enabled(kind, s, step) && Orphan(s, id)
    ensures Orphan(Next(kind, store, s, step), id) && Next(kind, store, s, step).rows[id] == s.rows[id]
  {
    hide Backoff, RowOk, ClaimsOk, WorkerOk, Exclusive, Decide, MarkRow;
    assert id <= s.nextId || kind == Jobs;
  }

  // Nothing ever claims an orphan again.
  lemma {:induction false} OrphanForever(kind: Kind, store: Store, s: State, steps: seq<Step>, t: State, id: int)
    requires Inv(kind, s) && Run(kind, store, s, steps, t) && Orphan(s, id)
    ensures Orphan(t, id) && t.rows[id] == s.rows[id]
    decreases |steps|
  {
    hide Inv, Next, Enabled;
    if steps != [] {
      StepKeepsInv(kind, store, s, steps[0]);
      StepKeepsOrphan(kind, store, s, steps[0], id);
      OrphanForever(kind, store, Next(kind, store, s, steps[0]), steps[1..], t, id);
    }
  }

  // Without crashes there are no orphans.
  lemma {:induction false} CrashFreeNoOrphan(kind: Kind, store: Store, s: State, steps: seq<Step>, t: State)
    requires Inv(kind, s) && Run(kind, store, s, steps, t)
    requires forall id :: !Orphan(s, id)
    requires forall step :: step in steps ==> !step.Crash?
    ensures forall id :: !Orphan(t, id)
    decreases |steps|
  {
    if steps != [] {
      var u := Next(kind, store, s, steps[0]);
      StepKeepsInv(kind, store, s, steps[0]);
      assert steps[0] in steps;
      forall id ensures !Orphan(u, id) {
        StepMakesNoOrphan(kind, store, s, steps[0], id);
      }
      assert forall step :: step in steps[1..] ==> step in steps;
      CrashFreeNoOrphan(kind, store, u, steps[1..], t);
    }
  }

  lemma StepMakesNoOrphan(kind: Kind, store: Store, s: State, step: Step, id: int)
    requires Inv(kind, s) && Enabled(kind, s, step) && !step.Crash?
    requires !Orphan(s, id)
    ensures !Orphan(Next(kind, store, s, step), id)
  {
    hide Backoff, ClaimsOk;
    var t := Next(kind, store, s, step);
    if id in t.rows && t.rows[id].status == Processing {
      if step.Claim? && step.id == id {
        assert t.workers[step.w].id == id;
      } else {
        assert id in s.rows && (s.rows[id].status == Processing || step.Progress?);
        if step.Progress? {
          assert WorkerOk(s, s.workers[step.w]);
        }
        var w :| w in s.workers && s.workers[w].id == id;
        assert w in t.workers && t.workers[w].id == id;
      }
    }
  }

  // A quiet step followed by one claim or mark, which brings the queue closer to drained.
  lemma NextWork(kind: Kind, store: Store, s: State) returns (first: Step, second: Step)
    requires Inv(kind, s) && !Drained(s) && forall id :: !Orphan(s, id)
    ensures Enabled(kind, s, first) && (first.Tick? || first.Finish?)
    ensures Enabled(kind, Next(kind, store, s, first), second) && IsWork(second)
  {
    hide Backoff, ClaimsOk, RowOk;
    if w :| w in s.workers {
      assert WorkerOk(s, s.workers[w]);
      first, second := if s.workers[w].Marking? then Tick(0) else Finish(w, None), Apply(w);
    } else {
      var id :| id in s.rows && !Terminal(s.rows[id]);
      assert !Orphan(s, id);
      var wait := if s.rows[id].availableAt > s.now then s.rows[id].availableAt - s.now else 0;
      first, second := Tick(wait), Claim(0, id);
    }
  }

  // One such pair of steps.
  lemma DrainMore(kind: Kind, store: Store, s: State) returns (first: Step, second: Step, u: State, v: State)
    requires Inv(kind, s) && !Drained(s) && forall id :: !Orphan(s, id)
    ensures Enabled(kind, s, first) && (first.Tick? || first.Finish?) && u == Next(kind, store, s, first)
    ensures Enabled(kind, u, second) && IsWork(second) && v == Next(kind, store, u, second)
    ensures Inv(kind, v) && (forall id :: !Orphan(v, id)) && Potential(v.rows) < Potential(s.rows)
  {
    hide Inv, Next, Enabled, Orphan, Potential, Drained;
    first, second := NextWork(kind, store, s);
    u := Next(kind, store, s, first);
    v := Next(kind, store, u, second);
    StepUsesPotential(kind, store, s, first);
    StepKeepsInv(kind, store, s, first);
    StepUsesPotential(kind, store, u, second);
    StepKeepsInv(kind, store, u, second);
    forall id ensures !Orphan(v, id) {
      StepMakesNoOrphan(kind, store, s, first, id);
      StepMakesNoOrphan(kind, store, u, second, id);
    }
  }

  // A run that drains the queue, built worker by worker and row by row.
  lemma {:induction false} DrainRun(kind: Kind, store: Store, s: State) returns (steps: seq<Step>, t: State)
    requires Inv(kind, s) && forall id :: !Orphan(s, id)
    ensures Run(kind, store, s, steps, t) && Drained(t)
    ensures forall step :: step in steps ==> !AddsRow(step) && !step.Crash?
    decreases Potential(s.rows)
  {
    hide Inv, Next, Enabled, Orphan, Potential, Drained;
    if Drained(s) {
      steps, t := [], s;
    } else {
      var first, second, u, v := DrainMore(kind, store, s);
      var rest;
      rest, t := DrainRun(kind, store, v);
      var tail := [second] + rest;
      assert tail[1..] == rest;
      steps := [first] + tail;
      assert steps[1..] == tail;
    }
  }

  // A queue can be brought to rest, with every row completed or dead, if and only if no
  // crash has left an orphan behind.
  lemma DrainsIffNoOrphan(kind: Kind, store: Store, s: State)
    requires Inv(kind, s)
    ensures (exists steps, t :: Run(kind, store, s, steps, t) && Drained(t)) <==> (forall id :: !Orphan(s, id))
  {
    if forall id :: !Orphan(s, id) {
      var steps, t := DrainRun(kind, store, s);
    } else {
      var id :| Orphan(s, id);
      forall steps, t | Run(kind, store, s, steps, t) ensures !Drained(t) {
        OrphanForever(kind, store, s, steps, t, id);
      }
    }
  }

  // Every crash-free run is a safe one to continue: from wherever it stops, the queue still
  // drains.
  lemma CrashFreeRunsDrain(kind: Kind, store: Store, start: int, steps: seq<Step>, t: State)
    requires Run(kind, store, Init(start), steps, t)
    requires forall step :: step in steps ==> !step.Crash?
    ensures exists more, u :: Run(kind, store, t, more, u) && Drained(u)
  {
    RunKeepsInv(kind, store, Init(start), steps, t);
    CrashFreeNoOrphan(kind, store, Init(start), steps, t);
    DrainsIffNoOrphan(kind, store, t);
  }

  lemma {:induction false} DrainedHasNoPotential(rows: Table)
    requires forall id :: id in rows ==> Terminal(rows[id])
    ensures Potential(rows) == 0
    decreases |rows|
  {
    if id :| id in rows {
      PotentialWithout(rows, id);
      DrainedHasNoPotential(rows - {id});
    }
  }

  // After a crash-free run the queue is drained if and only if nothing is left to claim or
  // mark, however long one waits: no such run stops with work undone.
  lemma StuckIffDrained(kind: Kind, store: Store, start: int, steps: seq<Step>, t: State)
    requires Run(kind, store, Init(start), steps, t)
    requires forall step :: step in steps ==> !step.Crash?
    ensures Drained(t) <==>
      forall more, u :: Run(kind, store, t, more, u) && (forall step :: step in more ==> !AddsRow(step)) ==> WorkDone(more) == 0
  {
    hide Inv, Next, Enabled, Orphan, Potential, Drained, Run;
    RunKeepsInv(kind, store, Init(start), steps, t) by {
      InitOk(kind, start);
    }
    CrashFree(kind, store, start, steps, t);
    if Drained(t) {
      DrainedRows(t);
      DrainedHasNoPotential(t.rows);
      forall more, u | Run(kind, store, t, more, u) && (forall step :: step in more ==> !AddsRow(step)) ensures WorkDone(more) == 0 {
        WorkIsBounded(kind, store, t, more, u);
      }
    } else {
      var first, second, u, v := DrainMore(kind, store, t);
      TwoSteps(kind, store, t, first, second);
      var both := [first, second];
      assert both[1..] == [second] && both[1..][1..] == [];
      assert WorkDone(both) == 1 by {
        assert WorkDone(both[1..]) == 1;
      }
    }
  }

  lemma InitOk(kind: Kind, start: int)
    ensures Inv(kind, Init(start)) && forall id :: !Orphan(Init(start), id)
  {
  }

  lemma DrainedRows(s: State)
    requires Drained(s)
    ensures forall id :: id in s.rows ==> Terminal(s.rows[id])
  {
  }

  lemma CrashFree(kind: Kind, store: Store, start: int, steps: seq<Step>, t: State)
    requires Run(kind, store, Init(start), steps, t) && forall step :: step in steps ==> !step.Crash?
    ensures forall id :: !Orphan(t, id)
  {
    hide Inv, Orphan, Run;
    InitOk(kind, start);
    CrashFreeNoOrphan(kind, store, Init(start), steps, t);
  }

  lemma TwoSteps(kind: Kind, store: Store, s: State, first: Step, second: Step)
    requires Enabled(kind, s, first) && Enabled(kind, Next(kind, store, s, first), second)
    ensures Run(kind, store, s, [first, second], Next(kind, store, Next(kind, store, s, first), second))
  {
    hide Next, Enabled;
    var both := [first, second];
    assert both[1..] == [second] && both[1..][1..] == [];
    assert Run(kind, store, Next(kind, store, s, first), both[1..], Next(kind, store, Next(kind, store, s, first), second));
  }

  // A crash does leave such a row: after one claim and a crash the queue can never drain.
  lemma CrashLeavesOrphan(store: Store, key: Key) returns (t: State)
    requires key.UpdateKey?
    ensures Run(Updates, store, Init(0), [Enqueue(key), Claim(0, 1), Crash(0)], t)
    ensures Inv(Updates, t) && Orphan(t, 1)
    ensures !exists steps, u :: Run(Updates, store, t, steps, u) && Drained(u)
  {
    var steps := [Enqueue(key), Claim(0, 1), Crash(0)];
    var s1 := Next(Updates, store, Init(0), steps[0]);
    assert s1.rows == map[1 := NewUpdate(key, 0)];
    var s2 := Next(Updates, store, s1, steps[1]);
    t := Next(Updates, store, s2, steps[2]);
    assert steps[1..][1..] == [steps[2]] && [steps[2]][1..] == [];
    assert Run(Updates, store, s2, steps[1..][1..], t);
    assert Run(Updates, store, s1, steps[1..], t);
    assert Orphan(t, 1);
    InitOk(Updates, 0);
    hide Inv, Orphan, Next, Enabled;
    RunKeepsInv(Updates, store, Init(0), steps, t);
    DrainsIffNoOrphan(Updates, store, t);
  }
}
