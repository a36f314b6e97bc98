// Jobs that act on many targets: broadcasts, global and federation bans go over a list of
// chats, a purge over a range of message ids. Progress is written to the job's row now and
// then.
module FanOut {
  import opened Text

  predicate ShouldFlush(progress: nat, total: nat) {
    progress >= total || progress % 10 == 0
  }

  // What one progress write carries: the counts and the first failed targets.
  datatype Report = Report(progress: nat, total: nat, failures: seq<int>)

  datatype Outcome =
    | Incomplete
    | Nothing
    | Unfinished(progress: nat)
    | Finished(succeeded: nat, failed: nat, total: nat)
    | ProgressError(progress: nat)

  // ---------- Expected behaviour ----------

  function Failures(targets: seq<int>, delivers: int -> bool): (f: seq<int>)
    ensures |f| <= |targets|
  {
    if targets == [] then []
    else
      var last := targets[|targets| - 1];
      Failures(targets[..|targets| - 1], delivers) + if delivers(last) then [] else [last]
  }

  function Truncate(failures: seq<int>): seq<int> {
    if |failures| > 5 then failures[..5] else failures
  }

  function ReportAt(targets: seq<int>, delivers: int -> bool, total: nat, progress: nat): Report
    requires progress <= |targets|
  {
    Report(progress, total, Truncate(Failures(targets[..progress], delivers)))
  }

  // The progress values written while the first `done` targets are handled.
  function Flushes(done: nat, total: nat): (f: seq<nat>)
    ensures forall p :: p in f ==> 1 <= p <= done
  {
    if done == 0 then []
    else Flushes(done - 1, total) + if ShouldFlush(done, total) then [done] else []
  }

  function ReportsFor(targets: seq<int>, delivers: int -> bool, total: nat, done: nat): seq<Report>
    requires done <= |targets|
  {
    if done == 0 then [ReportAt(targets, delivers, total, 0)]
    else
      ReportsFor(targets, delivers, total, done - 1)
      + if ShouldFlush(done, total) then [ReportAt(targets, delivers, total, done)] else []
  }

  // One more target: its report, if any, and the failures so far.
  lemma OneMore(targets: seq<int>, delivers: int -> bool, total: nat, idx: nat)
    requires idx < |targets|
    ensures targets[..idx + 1] == targets[..idx] + [targets[idx]]
    ensures Failures(targets[..idx + 1], delivers)
      == Failures(targets[..idx], delivers) + if delivers(targets[idx]) then [] else [targets[idx]]
    ensures ReportsFor(targets, delivers, total, idx + 1)
      == ReportsFor(targets, delivers, total, idx)
         + if ShouldFlush(idx + 1, total) then [ReportAt(targets, delivers, total, idx + 1)] else []
  {
    assert targets[..idx + 1][..idx] == targets[..idx];
  }

  // The 64-bit count of a range is right unless the range is wider than 64 bits can hold;
  // then it is not positive.
  lemma RangeCount(low: int, high: int)
    requires MIN_INT64 <= low <= high <= MAX_INT64
    ensures var total := Wrap64(Wrap64(high - low) + 1);
      if high - low < MAX_INT64 then total == high - low + 1 else total < 1
  {
  }

  lemma NextId(n: int)
    ensures Wrap64(Wrap64(n) + 1) == Wrap64(n + 1)
  {
  }

  lemma NothingReported(targets: seq<int>, delivers: int -> bool, total: nat)
    ensures targets[..0] == [] && Failures(targets[..0], delivers) == []
    ensures ReportsFor(targets, delivers, total, 0) == [Report(0, total, [])]
  {
  }

  // ---------- The loops ----------

  // The bot's view of Telegram and of the job's row. `delivers` stands for Telegram's answer
  // to each operation, `accepts` for the store's answer to each progress write.
  class Channel {
    var attempted: seq<int>
    var reports: seq<Report>
    const delivers: int -> bool
    const accepts: nat -> bool

    constructor (delivers: int -> bool, accepts: nat -> bool)
      ensures attempted == [] && reports == []
      ensures this.delivers == delivers && this.accepts == accepts
    {
      attempted, reports := [], [];
      this.delivers := delivers;
      this.accepts := accepts;
    }

    method Attempt(target: int) returns (ok: bool)
      modifies this`attempted
      ensures attempted == old(attempted) + [target] && ok == delivers(target)
    {
      attempted := attempted + [target];
      return delivers(target);
    }

    method UpdateJobProgress(report: Report) returns (ok: bool)
      modifies this`reports
      ensures ok == accepts(report.progress)
      ensures reports == if ok then old(reports) + [report] else old(reports)
    {
      ok := accepts(report.progress);
      if ok {
        reports := reports + [report];
      }
    }

    // How a run can end that has `total` targets to go through: every target attempted once,
    // in order, and all reports written; or stopped at the first progress write the store
    // refuses; or left alone after the given targets, which need not be all.
    ghost predicate Ran(targets: seq<int>, total: nat, outcome: Outcome)
      reads this
    {
      match outcome
      case Incomplete => false
      case Nothing => false
      case Finished(succeeded, failed, count) =>
        && attempted == targets
        && reports == ReportsFor(targets, delivers, total, |targets|)
        && failed == |Failures(targets, delivers)|
        && succeeded + failed == count == total == |targets|
      case ProgressError(p) =>
        && p <= |targets| && !accepts(p)
        && attempted == targets[..p]
        && (p == 0 ==> reports == [])
        && (p > 0 ==> (ShouldFlush(p, total) && reports == ReportsFor(targets, delivers, total, p - 1)))
      case Unfinished(p) =>
        && p == |targets|
        && attempted == targets
        && reports == ReportsFor(targets, delivers, total, p)
    }

    // The body both loops share: one target, then its progress write if one is due.
    method Handle(ghost targets: seq<int>, target: int, progress: nat, total: nat, failures: seq<int>)
      returns (delivered: bool, written: bool, failed: seq<int>)
      requires progress < |targets| && target == targets[progress]
      requires attempted == targets[..progress] && failures == Failures(targets[..progress], delivers)
      requires reports == ReportsFor(targets, delivers, total, progress)
      modifies this
      ensures attempted == targets[..progress + 1] && failed == Failures(targets[..progress + 1], delivers)
      ensures |failed| == |failures| + if delivered then 0 else 1
      ensures written ==> reports == ReportsFor(targets, delivers, total, progress + 1)
      ensures !written ==>
        && ShouldFlush(progress + 1, total) && !accepts(progress + 1)
        && reports == ReportsFor(targets, delivers, total, progress)
    {
      OneMore(targets, delivers, total, progress);
      hide Failures, ReportsFor;
      delivered := Attempt(target);
      failed := if delivered then failures else failures + [target];
      written := true;
      if ShouldFlush(progress + 1, total) {
        written := UpdateJobProgress(Report(progress + 1, total, Truncate(failed)));
      }
    }

    // processBroadcast, processGlobalBan and processFederationBan once the targets are known.
    method OverChats(targets: seq<int>) returns (outcome: Outcome)
      requires attempted == [] && reports == []
      modifies this
      ensures if targets == [] then outcome == Nothing && attempted == [] && reports == []
              else Ran(targets, |targets|, outcome) && !outcome.Unfinished?
    {
      if |targets| == 0 {
        return Nothing;
      }
      var total := |targets|;
      var ok := UpdateJobProgress(Report(0, total, []));
      if !ok {
        return ProgressError(0);
      }
      var sent, failed := 0, 0;
      var failures := [];
      assert targets[..0] == [];
      hide Failures, ReportsFor, ShouldFlush;
      for idx := 0 to total
        invariant attempted == targets[..idx] && reports == ReportsFor(targets, delivers, total, idx)
        invariant failures == Failures(targets[..idx], delivers)
        invariant failed == |failures| && sent + failed == idx
      {
        var delivered, written;
        delivered, written, failures := Handle(targets, targets[idx], idx, total, failures);
        if delivered {
          sent := sent + 1;
        } else {
          failed := failed + 1;
        }
        if !written {
          return ProgressError(idx + 1);
        }
      }
      assert targets[..total] == targets;
      return Finished(sent, failed, total);
    }

    // processPurge, given up after `patience` messages if it is not over by then. The number
    // of messages is computed in 64 bits; a range so wide that the count wraps around is
    // treated as empty. A range up to the largest id has no end: the id wraps around and is
    // never past it, so only a refused progress write ends the loop.
    method Purge(chatId: int, fromId: int, toId: int, patience: nat) returns (outcome: Outcome)
      requires attempted == [] && reports == []
      requires MIN_INT64 <= fromId <= MAX_INT64 && MIN_INT64 <= toId <= MAX_INT64
      modifies this
      ensures
        var low, high := if fromId > toId then toId else fromId, if fromId > toId then fromId else toId;
        if chatId == 0 || fromId == 0 || toId == 0 then outcome == Incomplete && attempted == [] && reports == []
        else if high - low >= MAX_INT64 then outcome == Nothing && attempted == [] && reports == []
        else
          var total := high - low + 1;
          var cut := high == MAX_INT64 || patience < total;
          Ran(Ids(low, if cut then patience else total), total, outcome) && !(if cut then outcome.Finished? else outcome.Unfinished?)
    {
      hide Wrap64, Ran;
      if chatId == 0 || fromId == 0 || toId == 0 {
        return Incomplete;
      }
      var low, high := fromId, toId;
      if low > high {
        low, high := high, low;
      }
      var total := Wrap64(Wrap64(high - low) + 1);
      RangeCount(low, high);
      if total < 1 {
        return Nothing;
      }
      outcome := PurgeRange(low, high, total, patience);
    }

    // Its loop.
    method PurgeRange(low: int, high: int, total: nat, patience: nat) returns (outcome: Outcome)
      requires attempted == [] && reports == []
      requires MIN_INT64 <= low <= high <= MAX_INT64 && total == high - low + 1
      modifies this
      ensures
        var cut := high == MAX_INT64 || patience < total;
        Ran(Ids(low, if cut then patience else total), total, outcome) && !(if cut then outcome.Finished? else outcome.Unfinished?)
    {
      hide Wrap64, Failures, ReportsFor, ShouldFlush;
      ghost var endless := high == MAX_INT64;
      ghost var targets := Ids(low, if endless || patience < total then patience else total);
      var ok := UpdateJobProgress(Report(0, total, []));
      if !ok {
        return ProgressError(0);
      }
      var deleted, failed := 0, 0;
      var failures := [];
      var progress: nat := 0;
      var messageID := low;
      NothingReported(targets, delivers, total);
      while messageID <= high && progress < patience
        invariant progress <= |targets| && messageID == Wrap64(low + progress)
        invariant !endless ==> messageID == low + progress
        invariant attempted == targets[..progress] && reports == ReportsFor(targets, delivers, total, progress)
        invariant failures == Failures(targets[..progress], delivers)
        invariant failed == |failures| && deleted + failed == progress
        decreases patience - progress
      {
        var delivered, written;
        delivered, written, failures := Handle(targets, messageID, progress, total, failures);
        progress := progress + 1;
        if delivered {
          deleted := deleted + 1;
        } else {
          failed := failed + 1;
        }
        if !written {
          return ProgressError(progress);
        }
        NextId(low + progress - 1);
        messageID := Wrap64(messageID + 1);
      }
      assert targets[..|targets|] == targets;
      if messageID <= high {
        return Unfinished(progress);
      }
      return Finished(deleted, failed, total);
    }
  }

  // The first n ids from low on, wrapping around after the largest.
  function Ids(low: int, n: nat): (ids: seq<int>)
    ensures |ids| == n
    ensures forall i :: 0 <= i < n ==> ids[i] == Wrap64(low + i)
  {
    seq(n, i requires 0 <= i < n => Wrap64(low + i))
  }

  // A purge that finishes has attempted exactly the ids of its range, in order.
  lemma IdsOfRange(low: int, high: int)
    requires MIN_INT64 <= low <= high <= MAX_INT64
    ensures var ids := Ids(low, high - low + 1);
      && (forall i :: 0 <= i < |ids| ==> ids[i] == low + i)
      && (forall id :: id in ids <==> low <= id <= high)
  {
    var ids := Ids(low, high - low + 1);
    forall i | 0 <= i < |ids| ensures ids[i] == low + i {
    }
    forall id | low <= id <= high ensures id in ids {
      assert ids[id - low] == id;
    }
  }

  // ---------- The shape of the progress reports ----------

  lemma {:induction false} FlushCount(done: nat, total: nat)
    requires done <= total
    ensures |Flushes(done, total)| == if done == total then (total + 9) / 10 else done / 10
    ensures forall i :: 0 <= i < |Flushes(done, total)| ==>
      Flushes(done, total)[i] == if 10 * (i + 1) <= total then 10 * (i + 1) else total
  {
    if done > 0 {
      FlushCount(done - 1, total);
    }
  }

  // From 0 to total without a repetition, in steps of at most ten, and as few writes as that
  // allows: one per ten targets, rounded up, after the first.
  lemma ProgressShape(total: nat)
    requires total >= 1
    ensures var written := [0] + Flushes(total, total);
      && |written| == 1 + (total + 9) / 10
      && written[0] == 0 && written[|written| - 1] == total
      && forall i :: 0 < i < |written| ==> written[i - 1] < written[i] <= written[i - 1] + 10
  {
    FlushCount(total, total);
  }

  // The reports of a run are those progress values, each with the work done at that moment.
  lemma {:induction false} ReportsAreFlushes(targets: seq<int>, delivers: int -> bool, total: nat, done: nat)
    requires done <= |targets|
    ensures var reports := ReportsFor(targets, delivers, total, done);
      && |reports| == 1 + |Flushes(done, total)|
      && forall i :: 0 <= i < |reports| ==>
           var p := if i == 0 then 0 else Flushes(done, total)[i - 1];
           && p <= done && reports[i] == ReportAt(targets, delivers, total, p)
           && reports[i].progress == p && reports[i].total == total
  {
    if done > 0 {
      ReportsAreFlushes(targets, delivers, total, done - 1);
      var before, f := Flushes(done - 1, total), Flushes(done, total);
      assert forall i :: 0 <= i < |before| ==> before[i] == f[i] && f[i] in before;
    }
  }

  // The failure list is the failed targets in order, each as often as it was attempted.
  lemma {:induction false} FailuresAreTheFailed(targets: seq<int>, delivers: int -> bool)
    ensures forall t :: multiset(Failures(targets, delivers))[t] == if delivers(t) then 0 else multiset(targets)[t]
  {
    if targets != [] {
      var front, last := targets[..|targets| - 1], targets[|targets| - 1];
      FailuresAreTheFailed(front, delivers);
      assert targets == front + [last];
    }
  }

  // The places of the failed targets.
  lemma {:induction false} FailuresInOrder(targets: seq<int>, delivers: int -> bool) returns (places: seq<nat>)
    ensures |places| == |Failures(targets, delivers)|
    ensures forall k :: 0 <= k < |places| ==> places[k] < |targets| && Failures(targets, delivers)[k] == targets[places[k]]
    ensures forall k, l :: 0 <= k < l < |places| ==> places[k] < places[l]
    ensures forall i :: 0 <= i < |targets| ==> (i in places <==> !delivers(targets[i]))
  {
    if targets == [] {
      places := [];
    } else {
      var n := |targets| - 1;
      LastTarget(targets, delivers);
      var before := FailuresInOrder(targets[..n], delivers);
      hide Failures;
      places := before;
      if !delivers(targets[n]) {
        places := before + [n];
      }
      assert forall i :: 0 <= i < n ==> targets[..n][i] == targets[i];
    }
  }

  lemma LastTarget(targets: seq<int>, delivers: int -> bool)
    requires targets != []
    ensures var n := |targets| - 1;
      Failures(targets, delivers) == Failures(targets[..n], delivers) + if delivers(targets[n]) then [] else [targets[n]]
  {
  }

  // A report names the first five of the targets that have failed by then, in their order, or
  // all of them if there are no more.
  lemma FirstFailuresReported(targets: seq<int>, delivers: int -> bool, total: nat, p: nat) returns (places: seq<nat>)
    requires p <= |targets|
    ensures var shown := ReportAt(targets, delivers, total, p).failures;
      && |shown| == (if |places| > 5 then 5 else |places|)
      && (forall k :: 0 <= k < |places| ==> places[k] < p)
      && (forall k, l :: 0 <= k < l < |places| ==> places[k] < places[l])
      && (forall i :: 0 <= i < p ==> (i in places <==> !delivers(targets[i])))
      && forall k :: 0 <= k < |shown| ==> shown[k] == targets[places[k]]
  {
    places := FailuresInOrder(targets[..p], delivers);
    hide Failures;
  }
}
