// The in-memory tables behind the queue and the worker loop that drives them. Each method
// is proved to be one step, or a fixed sequence of steps, of the protocol.
module QueueStores {
  import opened Text
  import opened QueueProtocol
  import opened Sorting

  // The row ids a claim may take.
  function Due(rows: Table, now: int): (due: set<int>)
    ensures forall id :: id in due <==> id in rows && Waiting(rows[id]) && rows[id].availableAt <= now
  {
    set id | id in rows && Claimable(rows[id], now)
  }

  function ClaimAll(rows: Table, ids: seq<int>): Table {
    if ids == [] then rows
    else
      var before := ClaimAll(rows, ids[..|ids| - 1]);
      var id := ids[|ids| - 1];
      if id in before then before[id := ClaimRow(before[id])] else before
  }

  function IdsOf(claimed: seq<Worker>): (ids: seq<int>)
    ensures |ids| == |claimed|
    ensures forall i :: 0 <= i < |claimed| ==> ids[i] == claimed[i].id
  {
    seq(|claimed|, i requires 0 <= i < |claimed| => claimed[i].id)
  }

  // What a claim hands to the worker: the row's id and its counted-up attempts.
  function Snapshot(row: Row, id: int): Worker {
    Holding(id, row.attempts + 1, row.maxAttempts)
  }

  // The claimed rows were due, and the table has changed in nothing but those claims.
  ghost predicate Claimed(before: Table, after: Table, claimed: seq<Worker>, now: int) {
    && (forall i :: 0 <= i < |claimed| ==>
          claimed[i].id in Due(before, now) && claimed[i] == Snapshot(before[claimed[i].id], claimed[i].id))
    && (forall i, j :: 0 <= i < j < |claimed| ==> claimed[i].id != claimed[j].id)
    && after == ClaimAll(before, IdsOf(claimed))
  }

  // In ascending order, without passing over a lower due id.
  ghost predicate LowestFirst(before: Table, claimed: seq<Worker>, now: int) {
    && (forall i, j :: 0 <= i < j < |claimed| ==> claimed[i].id < claimed[j].id)
    && (forall id, i :: id in Due(before, now) && 0 <= i < |claimed| && id < claimed[i].id ==> id in IdsOf(claimed))
  }

  // The claimed rows are in processing with one attempt more, which is what their claims
  // say; all other rows are as they were.
  ghost predicate OnlyClaimed(before: Table, after: Table, claimed: seq<Worker>) {
    && after.Keys == before.Keys
    && (forall id :: id in before && id in IdsOf(claimed) ==>
          after[id] == before[id].(status := Processing, attempts := before[id].attempts + 1))
    && (forall id :: id in before && id !in IdsOf(claimed) ==> after[id] == before[id])
    && (forall i :: 0 <= i < |claimed| ==>
          && claimed[i].Holding? && claimed[i].id in after
          && claimed[i].attempts == after[claimed[i].id].attempts && claimed[i].maxAttempts == after[claimed[i].id].maxAttempts)
  }

  lemma ClaimedMeans(before: Table, after: Table, claimed: seq<Worker>, now: int)
    requires Claimed(before, after, claimed, now)
    ensures OnlyClaimed(before, after, claimed)
  {
    ClaimAllRows(before, IdsOf(claimed));
    forall i | 0 <= i < |claimed| ensures claimed[i].id in IdsOf(claimed) {
      assert IdsOf(claimed)[i] == claimed[i].id;
    }
    hide ClaimAll, Due;
  }

  lemma ClaimNone(rows: Table, now: int)
    ensures Claimed(rows, rows, [], now)
  {
    assert IdsOf([]) == [];
  }

  lemma ClaimOneMore(before: Table, after: Table, claimed: seq<Worker>, now: int, id: int)
    requires Claimed(before, after, claimed, now) && id in Due(before, now) && id !in IdsOf(claimed)
    ensures id in after && after[id] == before[id]
    ensures Claimed(before, after[id := ClaimRow(after[id])], claimed + [Snapshot(before[id], id)], now)
  {
    var ids := IdsOf(claimed);
    ClaimAllRows(before, ids);
    IdsOfMore(claimed, before[id], id);
    hide Due, ClaimRow;
    assert (ids + [id])[..|ids|] == ids;
    forall i | 0 <= i < |claimed| ensures claimed[i].id != id {
      assert ids[i] in ids;
    }
  }

  lemma IdsOfMore(claimed: seq<Worker>, row: Row, id: int)
    ensures IdsOf(claimed + [Snapshot(row, id)]) == IdsOf(claimed) + [id]
  {
  }

  lemma ClaimedAreDue(before: Table, after: Table, claimed: seq<Worker>, now: int)
    requires Claimed(before, after, claimed, now)
    ensures forall i :: 0 <= i < |claimed| ==> claimed[i].id in Due(before, now)
  {
  }

  lemma TakeOne(jobs: seq<Worker>, k: nat)
    requires k < |jobs|
    ensures multiset(jobs) == multiset{jobs[k]} + multiset(jobs[..k] + jobs[k + 1..])
  {
    assert jobs == jobs[..k] + [jobs[k]] + jobs[k + 1..];
  }

  lemma SameWorkers(found: seq<Worker>, sorted: seq<Worker>)
    requires multiset(sorted) == multiset(found)
    ensures |sorted| == |found| && forall h :: h in sorted <==> h in found
    ensures forall id :: id in IdsOf(sorted) <==> id in IdsOf(found)
  {
    assert |multiset(sorted)| == |sorted| && |multiset(found)| == |found|;
    assert forall h :: h in sorted <==> h in multiset(sorted);
    forall id | id in IdsOf(sorted) ensures id in IdsOf(found) {
      SameIds(sorted, found, id);
    }
    forall id | id in IdsOf(found) ensures id in IdsOf(sorted) {
      assert forall h :: h in found <==> h in multiset(found);
      SameIds(found, sorted, id);
    }
  }

  lemma SameIds(a: seq<Worker>, b: seq<Worker>, id: int)
    requires id in IdsOf(a) && forall h :: h in a ==> h in b
    ensures id in IdsOf(b)
  {
    var i :| 0 <= i < |a| && IdsOf(a)[i] == id;
    assert a[i] in a;
    var j :| 0 <= j < |b| && b[j] == a[i];
    assert IdsOf(b)[j] == id;
  }

  lemma StillDistinct(found: seq<Worker>, sorted: seq<Worker>, i: nat, j: nat)
    requires multiset(sorted) == multiset(found) && i < j < |sorted|
    requires forall k, m :: 0 <= k < m < |found| ==> found[k].id != found[m].id
    ensures sorted[i] != sorted[j]
  {
    OnlyOnce(found, sorted[i]);
    assert sorted == sorted[..i] + [sorted[i]] + sorted[i + 1..j] + [sorted[j]] + sorted[j + 1..];
  }

  // A claim is the same in any order.
  lemma Reordered(before: Table, after: Table, found: seq<Worker>, sorted: seq<Worker>, now: int)
    requires Claimed(before, after, found, now) && multiset(sorted) == multiset(found)
    ensures Claimed(before, after, sorted, now)
  {
    hide ClaimAll, ClaimRow, Snapshot, Claimable;
    SameWorkers(found, sorted);
    forall i | 0 <= i < |sorted|
      ensures sorted[i].id in Due(before, now) && sorted[i] == Snapshot(before[sorted[i].id], sorted[i].id)
    {
      assert sorted[i] in found;
    }
    forall i, j | 0 <= i < j < |sorted| ensures sorted[i].id != sorted[j].id {
      StillDistinct(found, sorted, i, j);
    }
    SameClaim(before, IdsOf(found), IdsOf(sorted));
  }

  lemma SameClaim(rows: Table, a: seq<int>, b: seq<int>)
    requires forall i, j :: 0 <= i < j < |a| ==> a[i] != a[j]
    requires forall i, j :: 0 <= i < j < |b| ==> b[i] != b[j]
    requires forall i :: 0 <= i < |a| ==> a[i] in rows
    requires forall id :: id in a <==> id in b
    ensures ClaimAll(rows, a) == ClaimAll(rows, b)
  {
    hide ClaimAll, ClaimRow;
    forall i | 0 <= i < |b| ensures b[i] in rows {
      assert b[i] in b;
    }
    ClaimAllRows(rows, a);
    ClaimAllRows(rows, b);
    forall id | id in rows ensures ClaimAll(rows, a)[id] == ClaimAll(rows, b)[id] {
    }
  }

  lemma {:induction false} OnlyOnce(found: seq<Worker>, h: Worker)
    requires forall i, j :: 0 <= i < j < |found| ==> found[i].id != found[j].id
    ensures multiset(found)[h] <= 1
  {
    if found != [] {
      assert found == [found[0]] + found[1..];
      OnlyOnce(found[1..], h);
      assert found[0] !in found[1..];
    }
  }

  lemma {:induction false} ClaimAllRows(rows: Table, ids: seq<int>)
    requires forall i, j :: 0 <= i < j < |ids| ==> ids[i] != ids[j]
    requires forall i :: 0 <= i < |ids| ==> ids[i] in rows
    ensures ClaimAll(rows, ids).Keys == rows.Keys
    ensures forall id :: id in rows ==>
      ClaimAll(rows, ids)[id] == if id in ids then ClaimRow(rows[id]) else rows[id]
  {
    if ids != [] {
      var front, last := ids[..|ids| - 1], ids[|ids| - 1];
      ClaimAllRows(rows, front);
      assert ids == front + [last];
      assert last !in front;
    }
  }

  lemma SortedIsLowestFirst(before: Table, claimed: seq<Worker>, now: int, all: seq<int>)
    requires Ascending(all) && IdsOf(claimed) <= all
    requires forall id :: id in Due(before, now) ==> id in all
    ensures LowestFirst(before, claimed, now)
  {
    forall id, i | id in Due(before, now) && 0 <= i < |claimed| && id < claimed[i].id
      ensures id in IdsOf(claimed)
    {
      var j :| 0 <= j < |all| && all[j] == id;
      assert j < i && IdsOf(claimed)[j] == id;
    }
  }

  // ---------- What the tables go through ----------

  function AfterRound(kind: Kind, row: Row, failure: Option<string>, now: int): Row {
    var claimed := ClaimRow(row);
    MarkRow(kind, Memory, claimed, claimed.attempts, Decide(claimed.attempts, claimed.maxAttempts, failure, now))
  }

  // Updates and jobs arrive, time passes, rounds of work are done.
  datatype Operation =
    | Arrive(key: Key)
    | Submit(id: int, maxAttempts: int, availableAt: int, total: int)
    | Wait(d: nat)
    | Work(id: int, failure: Option<string>, elapsed: nat)

  datatype Tables = Tables(rows: Table, nextId: int, now: int)

  predicate Possible(kind: Kind, d: Tables, op: Operation) {
    match op
    case Arrive(key) => kind == Updates && key.UpdateKey?
    case Submit(id, _, _, _) => kind == Jobs && id !in d.rows
    case Wait(_) => true
    case Work(id, _, _) => id in Due(d.rows, d.now)
  }

  // What EnqueueUpdate, EnqueueJob, ProcessUpdates and ProcessJobs do, each in its contract.
  function Done(kind: Kind, d: Tables, op: Operation): Tables
    requires Possible(kind, d, op)
  {
    match op
    case Arrive(key) =>
      if HasKey(d.rows, key) then d
      else d.(nextId := d.nextId + 1, rows := d.rows[d.nextId + 1 := NewUpdate(key, d.now)])
    case Submit(id, maxAttempts, availableAt, total) =>
      d.(rows := d.rows[id := NewJob(maxAttempts, availableAt, total)])
    case Wait(n) => d.(now := d.now + n)
    case Work(id, failure, elapsed) =>
      d.(rows := d.rows[id := AfterRound(kind, d.rows[id], failure, d.now + elapsed)], now := d.now + elapsed)
  }

  // What a round leaves of its row. A success completes it. A failure kills it when its
  // attempts have reached the limit, and otherwise makes it wait attempts² seconds.
  predicate RoundLeaves(kind: Kind, before: Row, after: Row, failure: Option<string>, now: int) {
    && after.attempts == before.attempts + 1
    && after.key == before.key && after.maxAttempts == before.maxAttempts
    && after.progress == before.progress && after.total == before.total
    && match failure
       case None => after.status == Completed && after.error == before.error && after.availableAt == before.availableAt
       case Some(error) =>
         && after.error == error
         && if after.attempts >= (if before.maxAttempts < 1 then 5 else before.maxAttempts) then
              after.status == Dead && after.availableAt == before.availableAt
            else
              && after.status == (if kind == Jobs then Retry else Pending)
              && SquaredSecondsAfter(after.availableAt, now, after.attempts)
  }

  lemma RoundOutcome(kind: Kind, before: Row, failure: Option<string>, now: int)
    ensures RoundLeaves(kind, before, AfterRound(kind, before, failure, now), failure, now)
  {
    hide Backoff;
    BackoffIsSquared(now, before.attempts + 1);
  }

  // The round took the tables from d to e, on a clock that did not go back meanwhile.
  predicate IsRound(kind: Kind, d: Tables, e: Tables, id: int, failure: Option<string>)
    requires id in Due(d.rows, d.now)
  {
    d.now <= e.now ==> e == Done(kind, d, Work(id, failure, e.now - d.now))
  }

  // ---------- Telegram updates ----------

  class UpdateTable {
    var rows: Table
    var nextUpdateID: int

    // Ids only grow, one row per update, and no row has a limit of its own.
    ghost predicate Valid()
      reads this
    {
      && (forall id :: id in rows ==> id <= nextUpdateID && rows[id].key.UpdateKey? && rows[id].maxAttempts == 0)
      && (forall i, j :: i in rows && j in rows && rows[i].key == rows[j].key ==> i == j)
    }

    constructor ()
      ensures Valid() && rows == map[] && nextUpdateID == 0
    {
      rows, nextUpdateID := map[], 0;
    }

    method EnqueueUpdate(botId: string, updateId: int, now: int) returns (accepted: bool)
      requires Valid()
      modifies this
      ensures Valid()
      ensures accepted <==> !HasKey(old(rows), UpdateKey(botId, updateId))
      ensures accepted ==>
        && nextUpdateID == old(nextUpdateID) + 1
        && rows == old(rows)[nextUpdateID := Row(UpdateKey(botId, updateId), Pending, 0, 0, now, "", 0, 0)]
      ensures !accepted ==> rows == old(rows) && nextUpdateID == old(nextUpdateID)
      ensures Tables(rows, nextUpdateID, now)
        == Done(Updates, Tables(old(rows), old(nextUpdateID), now), Arrive(UpdateKey(botId, updateId)))
    {
      var left := rows.Keys;
      while left != {}
        invariant left <= rows.Keys && rows == old(rows) && nextUpdateID == old(nextUpdateID)
        invariant forall id :: id in rows && id !in left ==> rows[id].key != UpdateKey(botId, updateId)
        decreases |left|
      {
        SomeMember(left);
        var id :| id in left;
        if rows[id].key == UpdateKey(botId, updateId) {
          return false;
        }
        left := left - {id};
      }
      nextUpdateID := nextUpdateID + 1;
      rows := rows[nextUpdateID := NewUpdate(UpdateKey(botId, updateId), now)];
      return true;
    }

    // The lowest due ids, at most `limit` of them, in ascending order.
    method ClaimPendingUpdates(limit: nat, now: int) returns (claimed: seq<Worker>)
      requires Valid()
      modifies this
      ensures Valid()
      ensures nextUpdateID == old(nextUpdateID)
      ensures |claimed| == if |Due(old(rows), now)| < limit then |Due(old(rows), now)| else limit
      ensures Claimed(old(rows), rows, claimed, now) && OnlyClaimed(old(rows), rows, claimed)
      ensures LowestFirst(old(rows), claimed, now)
    {
      hide Claimed, OnlyClaimed, ClaimAll, Claimable;
      var ids := SortIds(Due(rows, now));
      ghost var before, all := rows, ids;
      if |ids| > limit {
        ids := ids[..limit];
      }
      assert forall i :: 0 <= i < |ids| ==> ids[i] == all[i] && all[i] in all;
      claimed := [];
      ClaimNone(before, now);
      for k := 0 to |ids|
        invariant Valid() && nextUpdateID == old(nextUpdateID)
        invariant |claimed| == k && IdsOf(claimed) == ids[..k]
        invariant Claimed(before, rows, claimed, now)
      {
        assert ids[k] !in ids[..k];
        ClaimOneMore(before, rows, claimed, now, ids[k]);
        claimed := claimed + [Snapshot(rows[ids[k]], ids[k])];
        rows := rows[ids[k] := ClaimRow(rows[ids[k]])];
      }
      assert IdsOf(claimed) == ids;
      SortedIsLowestFirst(before, claimed, now, all);
      ClaimedMeans(before, rows, claimed, now);
    }

    method MarkUpdateCompleted(id: int)
      requires Valid()
      modifies this
      ensures Valid()
      ensures nextUpdateID == old(nextUpdateID)
      ensures rows == if id in old(rows) then old(rows)[id := old(rows)[id].(status := Completed)] else old(rows)
    {
      if id in rows {
        rows := rows[id := rows[id].(status := Completed)];
      }
    }

    method MarkUpdateRetry(id: int, attempts: nat, lastError: string, availableAt: int)
      requires Valid()
      modifies this
      ensures Valid()
      ensures nextUpdateID == old(nextUpdateID)
      ensures rows ==
        if id in old(rows) then
          old(rows)[id := old(rows)[id].(status := Pending, attempts := attempts, error := lastError, availableAt := availableAt)]
        else old(rows)
    {
      if id in rows {
        rows := rows[id := rows[id].(status := Pending, attempts := attempts, error := lastError, availableAt := availableAt)];
      }
    }

    method MarkUpdateDead(id: int, lastError: string)
      requires Valid()
      modifies this
      ensures Valid()
      ensures nextUpdateID == old(nextUpdateID)
      ensures rows == if id in old(rows) then old(rows)[id := old(rows)[id].(status := Dead, error := lastError)] else old(rows)
    {
      if id in rows {
        rows := rows[id := rows[id].(status := Dead, error := lastError)];
      }
    }
  }

  // ---------- Jobs ----------

  // A job read from the map under an id it does not hold.
  const ZERO_JOB := Row(NoKey, Pending, 0, 0, 0, "", 0, 0)

  class JobTable {
    var rows: Table
    var createdAt: map<int, int>

    constructor ()
      ensures rows == map[] && createdAt == map[]
    {
      rows, createdAt := map[], map[];
    }

    function CreationOf(id: int): int
      reads this
    {
      if id in createdAt then createdAt[id] else 0
    }

    function JobOrZero(id: int): Row
      reads this
    {
      if id in rows then rows[id] else ZERO_JOB
    }

    method CreateJob(id: int, job: Row, created: int)
      modifies this
      ensures rows == old(rows)[id := job] && createdAt == old(createdAt)[id := created]
    {
      rows, createdAt := rows[id := job], createdAt[id := created];
    }

    // Jobs are met in no particular order, the limit is looked at after each claim, and what
    // was claimed is returned oldest first.
    method ClaimPendingJobs(limit: int, now: int) returns (claimed: seq<Worker>)
      modifies this`rows
      ensures claimed == [] <==> Due(old(rows), now) == {}
      ensures |claimed| <= if limit < 1 then 1 else limit
      ensures |claimed| < limit ==> forall id :: id in Due(old(rows), now) ==> id in IdsOf(claimed)
      ensures Claimed(old(rows), rows, claimed, now) && OnlyClaimed(old(rows), rows, claimed)
      ensures forall i, j :: 0 <= i < j < |claimed| ==> CreationOf(claimed[i].id) <= CreationOf(claimed[j].id)
    {
      hide Claimed, OnlyClaimed, Due;
      var found := ClaimDue(limit, now);
      claimed := SortByCreation(found);
      SameWorkers(found, claimed);
      Reordered(old(rows), rows, found, claimed, now);
      ClaimedMeans(old(rows), rows, claimed, now);
      if claimed != [] {
        ClaimedAreDue(old(rows), rows, claimed, now);
        assert claimed[0].id in Due(old(rows), now);
      }
    }

    method ClaimDue(limit: int, now: int) returns (claimed: seq<Worker>)
      modifies this`rows
      ensures claimed == [] ==> Due(old(rows), now) == {}
      ensures |claimed| <= if limit < 1 then 1 else limit
      ensures |claimed| < limit ==> forall id :: id in Due(old(rows), now) ==> id in IdsOf(claimed)
      ensures Claimed(old(rows), rows, claimed, now)
    {
      hide Claimed, Claimable, ClaimRow, Snapshot;
      ghost var before := rows;
      var left := rows.Keys;
      claimed := [];
      ClaimNone(rows, now);
      while left != {}
        invariant left <= before.Keys
        invariant |claimed| > 0 ==> |claimed| < limit
        invariant Claimed(before, rows, claimed, now)
        invariant forall id :: id in left ==> id in rows && rows[id] == before[id] && id !in IdsOf(claimed)
        invariant forall id :: id in Due(before, now) && id !in left ==> id in IdsOf(claimed)
        decreases |left|
      {
        SomeMember(left);
        var id :| id in left;
        left := left - {id};
        if Claimable(rows[id], now) {
          ClaimOneMore(before, rows, claimed, now, id);
          ghost var was := claimed;
          claimed := claimed + [Snapshot(rows[id], id)];
          rows := rows[id := ClaimRow(rows[id])];
          IdsOfMore(was, before[id], id);
          if |claimed| >= limit {
            break;
          }
        }
      }
      if claimed == [] {
        assert forall id :: id in Due(before, now) ==> id in IdsOf(claimed);
      }
    }

    method Oldest(jobs: seq<Worker>) returns (oldest: nat)
      requires jobs != []
      ensures oldest < |jobs| && forall h :: h in jobs ==> CreationOf(jobs[oldest].id) <= CreationOf(h.id)
    {
      oldest := 0;
      for k := 1 to |jobs|
        invariant oldest < |jobs|
        invariant forall i :: 0 <= i < k ==> CreationOf(jobs[oldest].id) <= CreationOf(jobs[i].id)
      {
        if CreationOf(jobs[k].id) < CreationOf(jobs[oldest].id) {
          oldest := k;
        }
      }
    }

    // The jobs of a claim by their time of creation.
    method SortByCreation(found: seq<Worker>) returns (sorted: seq<Worker>)
      ensures multiset(sorted) == multiset(found)
      ensures forall i, j :: 0 <= i < j < |sorted| ==> CreationOf(sorted[i].id) <= CreationOf(sorted[j].id)
    {
      var left := found;
      sorted := [];
      while left != []
        invariant multiset(sorted) + multiset(left) == multiset(found)
        invariant forall i, j :: 0 <= i < j < |sorted| ==> CreationOf(sorted[i].id) <= CreationOf(sorted[j].id)
        invariant forall i, h :: 0 <= i < |sorted| && h in left ==> CreationOf(sorted[i].id) <= CreationOf(h.id)
        decreases |left|
      {
        var k := Oldest(left);
        var rest := left[..k] + left[k + 1..];
        TakeOne(left, k);
        assert left[k] in left && forall h :: h in rest ==> h in left;
        sorted := sorted + [left[k]];
        left := rest;
      }
    }

    method UpdateJobProgress(id: int, progress: int, total: int, error: string)
      modifies this`rows
      ensures rows == old(rows)[id := old(JobOrZero(id)).(status := Processing, progress := progress, total := total, error := error)]
      ensures rows[id] == ProgressRow(old(JobOrZero(id)), progress, total, error)
    {
      rows := rows[id := JobOrZero(id).(status := Processing, progress := progress, total := total, error := error)];
    }

    method MarkJobCompleted(id: int)
      modifies this`rows
      ensures rows == old(rows)[id := old(JobOrZero(id)).(status := Completed)]
    {
      rows := rows[id := JobOrZero(id).(status := Completed)];
    }

    method MarkJobRetry(id: int, attempts: nat, error: string, availableAt: int)
      modifies this`rows
      ensures rows == old(rows)[id := old(JobOrZero(id)).(
        status := Retry, attempts := attempts, error := error, availableAt := availableAt)]
    {
      rows := rows[id := JobOrZero(id).(status := Retry, attempts := attempts, error := error, availableAt := availableAt)];
    }

    method MarkJobDead(id: int, error: string)
      modifies this`rows
      ensures rows == old(rows)[id := old(JobOrZero(id)).(status := Dead, error := error)]
    {
      rows := rows[id := JobOrZero(id).(status := Dead, error := error)];
    }
  }

  // ---------- The worker loop ----------

  // The steps of one round of worker w on a row, with the clock moving in between.
  function Round(w: int, id: int, failure: Option<string>, elapsed: nat): seq<Step> {
    [Claim(w, id), Tick(elapsed), Finish(w, failure), Apply(w)]
  }

  const JOB_ATTEMPTS := 5

  // Enqueue of the jobs service: a pending job, due at once. Its id is random, and its
  // creation time is left to the store; the memory store keeps the zero it is given.
  method EnqueueJob(store: JobTable, id: int, total: int, now: int)
    modifies store
    ensures store.rows == old(store.rows)[id := Row(NoKey, Pending, 0, 5, now, "", 0, total)]
    ensures id !in old(store.rows) ==>
      Tables(store.rows, 0, now) == Done(Jobs, Tables(old(store.rows), 0, now), Submit(id, JOB_ATTEMPTS, now, total))
  {
    store.CreateJob(id, NewJob(JOB_ATTEMPTS, now, total), 0);
  }

  // processUpdates: claims one update, processes it and marks it. `failure` stands for the
  // processor, `claimTime` and `markTime` for the two readings of the clock.
  method ProcessUpdates(store: UpdateTable, failure: int -> Option<string>, claimTime: int, markTime: int)
    returns (didWork: bool)
    requires store.Valid()
    modifies store
    ensures store.Valid()
    ensures didWork <==> Due(old(store.rows), claimTime) != {}
    ensures !didWork ==> store.rows == old(store.rows) && store.nextUpdateID == old(store.nextUpdateID)
    ensures didWork ==> exists id ::
      && id in Due(old(store.rows), claimTime)
      && (forall other :: other in Due(old(store.rows), claimTime) ==> id <= other)
      && id in store.rows && store.rows == old(store.rows)[id := store.rows[id]]
      && RoundLeaves(Updates, old(store.rows)[id], store.rows[id], failure(id), markTime)
      && IsRound(Updates, Tables(old(store.rows), old(store.nextUpdateID), claimTime),
                 Tables(store.rows, store.nextUpdateID, markTime), id, failure(id))
  {
    ghost var before := store.rows;
    var updates := store.ClaimPendingUpdates(1, claimTime);
    if |updates| == 0 {
      return false;
    }
    ghost var id := updates[0].id;
    ClaimOne(before, store.rows, updates, claimTime);
    hide Claimed, OnlyClaimed, LowestFirst, ClaimAll, Due, Marked, AfterRound, IsRound, RoundLeaves;
    for k := 0 to |updates|
      invariant store.Valid() && store.nextUpdateID == old(store.nextUpdateID)
      invariant k == 0 ==> store.rows == before[id := ClaimRow(before[id])]
      invariant k == 1 ==> store.rows == before[id := AfterRound(Updates, before[id], failure(id), markTime)]
    {
      MarkUpdate(store, updates[k], failure(updates[k].id), markTime);
      RoundMarks(Updates, before, store.rows, id, failure(id), markTime);
    }
    RoundOutcome(Updates, before[id], failure(id), markTime);
    RoundIsDone(Updates, Tables(before, store.nextUpdateID, claimTime), Tables(store.rows, store.nextUpdateID, markTime), id, failure(id));
    return true;
  }

  // Its body after an update has been processed.
  method MarkUpdate(store: UpdateTable, update: Worker, failure: Option<string>, now: int)
    requires store.Valid() && update.id in store.rows && update.maxAttempts == 0
    modifies store
    ensures store.Valid() && store.nextUpdateID == old(store.nextUpdateID)
    ensures store.rows == Marked(Updates, old(store.rows), update, failure, now)
  {
    hide Backoff;
    match failure {
      case Some(error) =>
        if update.attempts >= MAX_RETRY_COUNT {
          store.MarkUpdateDead(update.id, error);
        } else {
          store.MarkUpdateRetry(update.id, update.attempts, error, now + Backoff(update.attempts));
        }
      case None =>
        store.MarkUpdateCompleted(update.id);
    }
  }

  // The worker's mark, on the row it claimed.
  function Marked(kind: Kind, rows: Table, h: Worker, failure: Option<string>, now: int): Table
    requires h.id in rows
  {
    rows[h.id := MarkRow(kind, Memory, rows[h.id], h.attempts, Decide(h.attempts, h.maxAttempts, failure, now))]
  }

  lemma RoundMarks(kind: Kind, before: Table, after: Table, id: int, failure: Option<string>, now: int)
    requires id in before
    requires after == Marked(kind, before[id := ClaimRow(before[id])], Snapshot(before[id], id), failure, now)
    ensures after == before[id := AfterRound(kind, before[id], failure, now)]
  {
    hide Backoff, Decide, MarkRow;
  }

  lemma RoundIsDone(kind: Kind, d: Tables, e: Tables, id: int, failure: Option<string>)
    requires id in Due(d.rows, d.now) && e.nextId == d.nextId
    requires e.rows == d.rows[id := AfterRound(kind, d.rows[id], failure, e.now)]
    ensures IsRound(kind, d, e, id, failure)
  {
    hide AfterRound;
  }

  lemma ClaimOne(before: Table, after: Table, claimed: seq<Worker>, now: int)
    requires |claimed| == 1 && Claimed(before, after, claimed, now)
    ensures var id := claimed[0].id;
      && id in Due(before, now) && claimed[0] == Snapshot(before[id], id)
      && after == before[id := ClaimRow(before[id])]
      && (LowestFirst(before, claimed, now) ==> forall other :: other in Due(before, now) ==> id <= other)
  {
    assert IdsOf(claimed) == [claimed[0].id] && IdsOf(claimed)[..0] == [];
    assert ClaimAll(before, []) == before;
  }

  // processJobs: the same round on a job, with the job's own limit. `summary` of a completed
  // job is left out.
  method ProcessJobs(store: JobTable, failure: int -> Option<string>, claimTime: int, markTime: int)
    returns (didWork: bool)
    modifies store
    ensures didWork <==> Due(old(store.rows), claimTime) != {}
    ensures !didWork ==> store.rows == old(store.rows)
    ensures didWork ==> exists id ::
      && id in Due(old(store.rows), claimTime)
      && id in store.rows && store.rows == old(store.rows)[id := store.rows[id]]
      && RoundLeaves(Jobs, old(store.rows)[id], store.rows[id], failure(id), markTime)
      && IsRound(Jobs, Tables(old(store.rows), 0, claimTime), Tables(store.rows, 0, markTime), id, failure(id))
  {
    ghost var before := store.rows;
    var jobs := store.ClaimPendingJobs(1, claimTime);
    if |jobs| == 0 {
      return false;
    }
    ghost var id := jobs[0].id;
    ClaimOne(before, store.rows, jobs, claimTime);
    hide Claimed, OnlyClaimed, LowestFirst, ClaimAll, Due, Marked, AfterRound, IsRound, RoundLeaves;
    for k := 0 to |jobs|
      invariant k == 0 ==> store.rows == before[id := ClaimRow(before[id])]
      invariant k == 1 ==> store.rows == before[id := AfterRound(Jobs, before[id], failure(id), markTime)]
    {
      MarkJob(store, jobs[k], failure(jobs[k].id), markTime);
      RoundMarks(Jobs, before, store.rows, id, failure(id), markTime);
    }
    RoundOutcome(Jobs, before[id], failure(id), markTime);
    RoundIsDone(Jobs, Tables(before, 0, claimTime), Tables(store.rows, 0, markTime), id, failure(id));
    return true;
  }

  // Its body after a job has been processed.
  method MarkJob(store: JobTable, job: Worker, failure: Option<string>, now: int)
    requires job.id in store.rows
    modifies store
    ensures store.rows == Marked(Jobs, old(store.rows), job, failure, now)
  {
    hide Backoff;
    match failure {
      case Some(error) =>
        var maxAttempts := job.maxAttempts;
        if maxAttempts < 1 {
          maxAttempts := MAX_RETRY_COUNT;
        }
        if job.attempts >= maxAttempts {
          store.MarkJobDead(job.id, error);
        } else {
          store.MarkJobRetry(job.id, job.attempts, error, now + Backoff(job.attempts));
        }
      case None =>
        store.MarkJobCompleted(job.id);
    }
  }

  // ---------- Rounds and runs ----------

  // Wherever the queue stands and whatever other workers hold, a round of an idle worker is a
  // run of the protocol with exactly this effect.
  lemma RoundIsARun(kind: Kind, s: State, w: int, id: int, failure: Option<string>, elapsed: nat) returns (t: State)
    requires Inv(kind, s) && w !in s.workers && id in Due(s.rows, s.now)
    ensures Run(kind, Memory, s, Round(w, id, failure, elapsed), t) && Inv(kind, t)
    ensures t.rows == s.rows[id := AfterRound(kind, s.rows[id], failure, s.now + elapsed)]
    ensures t.workers == s.workers && t.now == s.now + elapsed && t.nextId == s.nextId
  {
    hide Backoff, Inv, Decide, MarkRow, Run;
    var steps := Round(w, id, failure, elapsed);
    var s1 := Next(kind, Memory, s, steps[0]);
    var s2 := Next(kind, Memory, s1, steps[1]);
    var s3 := Next(kind, Memory, s2, steps[2]);
    t := Next(kind, Memory, s3, steps[3]);
    assert t.rows == s.rows[id := AfterRound(kind, s.rows[id], failure, s.now + elapsed)];
    assert t.workers == s.workers;
    var states := [s, s1, s2, s3, t];
    assert forall i :: 0 <= i < 4 ==> Enabled(kind, states[i], steps[i]) && Next(kind, Memory, states[i], steps[i]) == states[i + 1];
    hide Next, Enabled;
    RunOfStates(kind, s, steps, states);
    RunKeepsInv(kind, Memory, s, steps, t);
  }

  // A run given by its intermediate states.
  lemma {:induction false} RunOfStates(kind: Kind, s: State, steps: seq<Step>, states: seq<State>)
    requires |states| == |steps| + 1 && states[0] == s
    requires forall i :: 0 <= i < |steps| ==> Enabled(kind, states[i], steps[i]) && Next(kind, Memory, states[i], steps[i]) == states[i + 1]
    ensures Run(kind, Memory, s, steps, states[|steps|])
    decreases |steps|
  {
    hide Next, Enabled;
    if steps != [] {
      assert Enabled(kind, states[0], steps[0]) && Next(kind, Memory, states[0], steps[0]) == states[1];
      RunOfStates(kind, states[1], steps[1..], states[1..]);
    }
  }

  predicate Serves(kind: Kind, d: Tables, ops: seq<Operation>, e: Tables)
    decreases |ops|
  {
    if ops == [] then d == e
    else Possible(kind, d, ops[0]) && Serves(kind, Done(kind, d, ops[0]), ops[1..], e)
  }

  function TablesOf(s: State): Tables {
    Tables(s.rows, s.nextId, s.now)
  }

  lemma OperationIsARun(kind: Kind, s: State, op: Operation) returns (steps: seq<Step>, t: State)
    requires Inv(kind, s) && s.workers == map[] && Possible(kind, TablesOf(s), op)
    ensures Run(kind, Memory, s, steps, t) && Inv(kind, t) && t.workers == map[]
    ensures TablesOf(t) == Done(kind, TablesOf(s), op) && forall step :: step in steps ==> !step.Crash?
  {
    hide Inv, Run, AfterRound, NewUpdate, HasKey;
    match op
    case Arrive(key) => steps, t := OneStep(kind, s, Enqueue(key));
    case Submit(id, maxAttempts, availableAt, total) => steps, t := OneStep(kind, s, CreateJob(id, maxAttempts, availableAt, total));
    case Wait(d) => steps, t := OneStep(kind, s, Tick(d));
    case Work(id, failure, elapsed) =>
      steps := Round(0, id, failure, elapsed);
      t := RoundIsARun(kind, s, 0, id, failure, elapsed);
  }

  lemma OneStep(kind: Kind, s: State, step: Step) returns (steps: seq<Step>, t: State)
    requires Inv(kind, s) && Enabled(kind, s, step)
    ensures steps == [step] && t == Next(kind, Memory, s, step) && Run(kind, Memory, s, steps, t) && Inv(kind, t)
  {
    hide Next, Enabled, Inv;
    steps, t := [step], Next(kind, Memory, s, step);
    StepKeepsInv(kind, Memory, s, step);
    RunOfStates(kind, s, steps, [s, t]);
  }

  lemma {:induction false} RunThenRun(kind: Kind, s: State, first: seq<Step>, t: State, second: seq<Step>, u: State)
    requires Run(kind, Memory, s, first, t) && Run(kind, Memory, t, second, u)
    ensures Run(kind, Memory, s, first + second, u)
    decreases |first|
  {
    hide Next, Enabled;
    if first == [] {
      assert first + second == second;
    } else {
      RunThenRun(kind, Next(kind, Memory, s, first[0]), first[1..], t, second, u);
      assert (first + second)[1..] == first[1..] + second;
    }
  }

  lemma {:induction false} OperationsAreARun(kind: Kind, s: State, ops: seq<Operation>, e: Tables) returns (steps: seq<Step>, t: State)
    requires Inv(kind, s) && s.workers == map[] && Serves(kind, TablesOf(s), ops, e)
    ensures Run(kind, Memory, s, steps, t) && Inv(kind, t) && t.workers == map[]
    ensures TablesOf(t) == e && forall step :: step in steps ==> !step.Crash?
    decreases |ops|
  {
    hide Inv, Next, Enabled, Possible, Done;
    if ops == [] {
      steps, t := [], s;
    } else {
      var first, mid := OperationIsARun(kind, s, ops[0]);
      var rest;
      rest, t := OperationsAreARun(kind, mid, ops[1..], e);
      RunThenRun(kind, s, first, mid, rest, t);
      steps := first + rest;
    }
  }

  // From the empty tables, whatever arrives and however the rounds of work fall, the tables are
  // those of a crash-free run of the protocol, so all that is proved of runs holds of them. In
  // between rounds no row is in processing, and every row is within its attempts.
  lemma TablesAreRuns(kind: Kind, start: int, ops: seq<Operation>, e: Tables) returns (steps: seq<Step>, t: State)
    requires Serves(kind, Tables(map[], 0, start), ops, e)
    ensures Run(kind, Memory, Init(start), steps, t) && t.rows == e.rows && forall step :: step in steps ==> !step.Crash?
    ensures forall id :: id in e.rows ==> e.rows[id].status != Processing && RowOk(e.rows[id])
  {
    hide Run, Next, Serves, RowOk, ClaimsOk, WorkerOk;
    InitOk(kind, start);
    steps, t := OperationsAreARun(kind, Init(start), ops, e);
    CrashFree(kind, Memory, start, steps, t);
    forall id | id in e.rows ensures e.rows[id].status != Processing && RowOk(e.rows[id]) {
      assert !Orphan(t, id);
    }
  }
}
