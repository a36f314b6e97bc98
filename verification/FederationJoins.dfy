// Joining a federation in Postgres: one statement deletes the chat's rows and another inserts
// the new row, without a transaction around them. The primary key is the whole row, and a
// foreign key ties each row to a federation that exists.
module FederationJoins {
  datatype Row = Row(f: string, chat: int)

  // `live` holds the federations there are, `used` every id there has been, `between` the row
  // each worker still has to insert.
  datatype State = State(used: set<string>, live: set<string>, rows: set<Row>, between: map<int, Row>)

  const INIT := State({}, {}, {}, map[])

  // Give up: the insertion failed, or the worker has died.
  datatype Action =
    | Create(f: string)
    | DeleteRows(w: int, row: Row)
    | InsertRow(w: int)
    | GiveUp(w: int)
    | Leave(row: Row)
    | DropFederation(f: string)

  // Ids are random, so never used twice. The federation to join was there when it was looked
  // up; the foreign key rejects the row if it is gone by the time of the insertion.
  predicate CanAct(s: State, action: Action) {
    match action
    case Create(f) => f !in s.used
    case DeleteRows(w, row) => w !in s.between && row.f in s.used
    case InsertRow(w) => w in s.between && s.between[w].f in s.live
    case GiveUp(w) => w in s.between
    case Leave(_) => true
    case DropFederation(_) => true
  }

  // Dropping a federation cascades to its rows.
  function Act(s: State, action: Action): State
    requires CanAct(s, action)
  {
    match action
    case Create(f) => s.(used := s.used + {f}, live := s.live + {f})
    case DeleteRows(w, row) => s.(rows := (set r | r in s.rows && r.chat != row.chat), between := s.between[w := row])
    case InsertRow(w) => s.(rows := s.rows + {s.between[w]}, between := s.between - {w})
    case GiveUp(w) => s.(between := s.between - {w})
    case Leave(row) => s.(rows := s.rows - {row})
    case DropFederation(f) => s.(live := s.live - {f}, rows := set r | r in s.rows && r.f != f)
  }

  // Rows are of federations that exist, and joins under way to federations that once did.
  ghost predicate Ok(s: State) {
    && s.live <= s.used
    && (forall r :: r in s.rows ==> r.f in s.live)
    && (forall w :: w in s.between ==> s.between[w].f in s.used)
  }

  ghost predicate OneFederation(rows: set<Row>) {
    forall r, q :: r in rows && q in rows && r.chat == q.chat ==> r == q
  }

  // The row is there, or about to be inserted for a federation that still exists.
  ghost predicate Claimed(s: State, row: Row) {
    row in s.rows || (row.f in s.live && exists w :: w in s.between && s.between[w] == row)
  }

  ghost predicate NoRivals(s: State) {
    forall r, q :: Claimed(s, r) && Claimed(s, q) && r.chat == q.chat ==> r == q
  }

  // A chat does not begin to join a federation while it is joining another, if both exist.
  ghost predicate Apart(s: State, action: Action) {
    action.DeleteRows? && action.row.f in s.live ==>
      forall v :: v in s.between && s.between[v].f in s.live && s.between[v].chat == action.row.chat ==>
        s.between[v] == action.row
  }

  ghost predicate Run(s: State, actions: seq<Action>, t: State)
    decreases |actions|
  {
    if actions == [] then s == t
    else CanAct(s, actions[0]) && Run(Act(s, actions[0]), actions[1..], t)
  }

  ghost predicate ApartRun(s: State, actions: seq<Action>, t: State)
    decreases |actions|
  {
    if actions == [] then s == t
    else CanAct(s, actions[0]) && Apart(s, actions[0]) && ApartRun(Act(s, actions[0]), actions[1..], t)
  }

  lemma ActKeepsOk(s: State, action: Action)
    requires Ok(s) && CanAct(s, action)
    ensures Ok(Act(s, action))
  {
  }

  lemma ActKeepsNoRivals(s: State, action: Action)
    requires Ok(s) && CanAct(s, action) && Apart(s, action) && NoRivals(s)
    ensures NoRivals(Act(s, action))
  {
    var t := Act(s, action);
    if action.DeleteRows? {
      forall r | Claimed(t, r) ensures Claimed(s, r) || r == action.row {
      }
      forall r | Claimed(t, r) && r.chat == action.row.chat && Claimed(t, action.row) ensures r == action.row {
      }
    } else {
      forall r | Claimed(t, r) ensures Claimed(s, r) {
      }
    }
    hide Claimed, CanAct, Act;
  }

  lemma {:induction false} RunKeepsNoRivals(s: State, actions: seq<Action>, t: State)
    requires Ok(s) && NoRivals(s) && ApartRun(s, actions, t)
    ensures NoRivals(t) && OneFederation(t.rows)
    decreases |actions|
  {
    if actions != [] {
      ActKeepsOk(s, actions[0]);
      ActKeepsNoRivals(s, actions[0]);
      hide Ok, NoRivals, OneFederation, CanAct, Act, Apart;
      RunKeepsNoRivals(Act(s, actions[0]), actions[1..], t);
    } else {
      assert forall r :: r in s.rows ==> Claimed(s, r);
    }
  }

  lemma {:induction false} RunKeepsOk(s: State, actions: seq<Action>, t: State)
    requires Ok(s) && Run(s, actions, t)
    ensures Ok(t)
    decreases |actions|
  {
    if actions != [] {
      ActKeepsOk(s, actions[0]);
      hide Ok, CanAct, Act;
      RunKeepsOk(Act(s, actions[0]), actions[1..], t);
    }
  }

  // A row that is claimed can be inserted without deleting another.
  lemma ClaimInserted(s: State, row: Row, other: Row) returns (actions: seq<Action>, t: State)
    requires Ok(s) && Claimed(s, row) && Claimed(s, other)
    ensures ApartRun(s, actions, t) && Ok(t) && row in t.rows && s.rows <= t.rows && Claimed(t, other)
  {
    if row in s.rows {
      actions, t := [], s;
    } else {
      var w :| w in s.between && s.between[w] == row;
      actions, t := [InsertRow(w)], Act(s, InsertRow(w));
      assert ApartRun(t, actions[1..], t);
      if other !in s.rows && other != row {
        var v :| v in s.between && s.between[v] == other;
        assert t.between[v] == other;
      }
    }
  }

  lemma {:induction false} RunThenRun(s: State, first: seq<Action>, t: State, second: seq<Action>, u: State)
    requires ApartRun(s, first, t) && ApartRun(t, second, u)
    ensures ApartRun(s, first + second, u)
    decreases |first|
  {
    if first == [] {
      assert first + second == second;
    } else {
      RunThenRun(Act(s, first[0]), first[1..], t, second, u);
      assert (first + second)[1..] == first[1..] + second;
    }
  }

  lemma RivalsInserted(s: State) returns (actions: seq<Action>, t: State)
    requires Ok(s) && !NoRivals(s)
    ensures ApartRun(s, actions, t) && !OneFederation(t.rows)
  {
    var r, q :| Claimed(s, r) && Claimed(s, q) && r.chat == q.chat && r != q;
    var first, mid := ClaimInserted(s, r, q);
    var second;
    second, t := ClaimInserted(mid, q, q);
    RunThenRun(s, first, mid, second, t);
    actions := first + second;
  }

  // Chats keep to one federation, in every continuation in which no chat begins to join one
  // federation while it is joining another, if and only if no chat has two rows, or one and
  // another about to be inserted, or two about to be, for federations that still exist.
  lemma OneFederationIff(s: State)
    requires Ok(s)
    ensures (forall actions, t :: ApartRun(s, actions, t) ==> OneFederation(t.rows)) <==> NoRivals(s)
  {
    hide ApartRun, NoRivals;
    if NoRivals(s) {
      forall actions, t | ApartRun(s, actions, t) ensures OneFederation(t.rows) {
        RunKeepsNoRivals(s, actions, t);
      }
    } else {
      var actions, t := RivalsInserted(s);
      assert exists actions, t :: ApartRun(s, actions, t) && !OneFederation(t.rows);
    }
  }

  // Every state a run reaches is one the theorem speaks of.
  lemma ReachedOk(actions: seq<Action>, t: State)
    requires Run(INIT, actions, t)
    ensures Ok(t)
  {
    RunKeepsOk(INIT, actions, t);
  }

  // Two joins of one chat that have both deleted and not yet inserted.
  function BothBegun(f: string, g: string, chat: int): seq<Action> {
    [Create(f), Create(g)] + [DeleteRows(1, Row(f, chat)), DeleteRows(2, Row(g, chat))]
  }

  function Between(f: string, g: string, chat: int): State {
    State({f, g}, {f, g}, {}, map[1 := Row(f, chat), 2 := Row(g, chat)])
  }

  lemma BothBegunRun(f: string, g: string, chat: int)
    requires f != g
    ensures Run(INIT, BothBegun(f, g, chat), Between(f, g, chat))
  {
    var s := State({f, g}, {f, g}, {}, map[]);
    assert Act(INIT.(used := {f}, live := {f}), Create(g)) == s;
    TwoActs(INIT, [Create(f), Create(g)], INIT.(used := {f}, live := {f}), s);
    TwoActs(s, [DeleteRows(1, Row(f, chat)), DeleteRows(2, Row(g, chat))], s.(between := map[1 := Row(f, chat)]), Between(f, g, chat));
    RunsConcat(INIT, [Create(f), Create(g)], s, [DeleteRows(1, Row(f, chat)), DeleteRows(2, Row(g, chat))], Between(f, g, chat));
  }

  // Two overlapping joins of one chat leave it in both federations.
  lemma TwoFederationsForOneChat(f: string, g: string, chat: int)
    requires f != g
    ensures Run(INIT, BothBegun(f, g, chat) + [InsertRow(1), InsertRow(2)],
                State({f, g}, {f, g}, {Row(f, chat), Row(g, chat)}, map[]))
  {
    var mid := Between(f, g, chat);
    var t := State({f, g}, {f, g}, {Row(f, chat), Row(g, chat)}, map[]);
    BothBegunRun(f, g, chat);
    TwoActs(mid, [InsertRow(1), InsertRow(2)], mid.(rows := {Row(f, chat)}, between := map[2 := Row(g, chat)]), t);
    RunsConcat(INIT, BothBegun(f, g, chat), mid, [InsertRow(1), InsertRow(2)], t);
  }

  // A join whose federation is dropped meanwhile is no rival: its row is rejected.
  lemma DroppedIsNoRival(f: string, g: string, chat: int)
    requires f != g
    ensures var s := Between(f, g, chat).(live := {g});
      && Run(INIT, BothBegun(f, g, chat) + [DropFederation(f)], s)
      && forall actions, t :: ApartRun(s, actions, t) ==> OneFederation(t.rows)
  {
    var mid, drop := Between(f, g, chat), [DropFederation(f)];
    var s := mid.(live := {g});
    BothBegunRun(f, g, chat);
    assert Act(mid, drop[0]) == s && Run(s, drop[1..], s);
    RunsConcat(INIT, BothBegun(f, g, chat), mid, drop, s);
    assert NoRivals(s);
    OneFederationIff(s);
  }

  lemma TwoActs(s: State, actions: seq<Action>, mid: State, t: State)
    requires |actions| == 2 && CanAct(s, actions[0]) && Act(s, actions[0]) == mid
    requires CanAct(mid, actions[1]) && Act(mid, actions[1]) == t
    ensures Run(s, actions, t)
  {
    hide CanAct, Act;
    assert actions[1..][0] == actions[1] && actions[1..][1..] == [] && Run(t, [], t);
    assert Run(mid, actions[1..], t);
  }

  lemma {:induction false} RunsConcat(s: State, first: seq<Action>, t: State, second: seq<Action>, u: State)
    requires Run(s, first, t) && Run(t, second, u)
    ensures Run(s, first + second, u)
    decreases |first|
  {
    if first == [] {
      assert first + second == second;
    } else {
      hide CanAct, Act;
      RunsConcat(Act(s, first[0]), first[1..], t, second, u);
      assert (first + second)[1..] == first[1..] + second;
    }
  }
}
