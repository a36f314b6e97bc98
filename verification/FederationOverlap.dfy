// Federation commands that overlap. The checks of a command and its write are separate calls
// to the store, and nothing keeps other workers from writing in between.
module FederationOverlap {
  import opened Text
  import opened FederationRegistry

  // `inflight` holds the command of each worker that is past its checks, with the id of the
  // federation it goes to; `created` every id a federation has ever had.
  datatype State = State(registry: Registry, inflight: map<int, Step>, created: set<string>)

  const INIT := State(EMPTY, map[], {})

  // An import writes its bans one by one. Drop: the command is over or the worker has died.
  datatype Action =
    | Check(w: int, step: Step)
    | Write(w: int)
    | WriteBan(w: int, ban: Ban, enabled: bool)
    | Drop(w: int)

  // A record some creation wrote. A transfer of a deleted federation leaves a record without
  // id and bot, which the lookups by owner and by name pass over.
  predicate Named(r: Registry, f: string) {
    f in r.federations && r.federations[f].id != ""
  }

  // What the lookup by owner finds.
  predicate Held(r: Registry, f: string, user: int) {
    Named(r, f) && r.federations[f].owner == user
  }

  // Every record read so far has one of these ids.
  predicate Known(s: State, f: string) {
    f == "" || f in s.created
  }

  // What the checks of a command still guarantee when they are over. Their reads come at
  // different moments, so of the resolved federation no more is sure than that it was once
  // there; the lookup by owner is the last read. Ids of new federations are random.
  ghost predicate MayPass(s: State, step: Step) {
    match step.command
    case NewFed(id, _, _) =>
      && step.f == id && id != "" && id !in s.created
      && (forall v :: v in s.inflight && s.inflight[v].command.NewFed? ==> s.inflight[v].f != id)
      && forall g :: !Held(s.registry, g, step.actor.user)
    case TransferFed(_, target) => Known(s, step.f) && forall g :: Held(s.registry, g, target) ==> g == step.f
    case SubFed(_, g, _) => Known(s, step.f) && Known(s, g) && g != step.f
    case _ => Known(s, step.f)
  }

  ghost predicate CanAct(s: State, action: Action) {
    match action
    case Check(w, step) => w !in s.inflight && MayPass(s, step)
    case Write(w) => w in s.inflight && !s.inflight[w].command.FedImport?
    case WriteBan(w, _, _) => w in s.inflight && s.inflight[w].command.FedImport?
    case Drop(w) => w in s.inflight
  }

  function Act(s: State, action: Action): State
    requires CanAct(s, action)
  {
    match action
    case Check(w, step) => s.(inflight := s.inflight[w := step])
    case Write(w) =>
      var step := s.inflight[w];
      State(Perform(s.registry, step), s.inflight - {w}, s.created + if step.command.NewFed? then {step.f} else {})
    case WriteBan(w, ban, enabled) => s.(registry := SetBan(s.registry, s.inflight[w].f, ban, enabled))
    case Drop(w) => s.(inflight := s.inflight - {w})
  }

  ghost predicate Run(s: State, actions: seq<Action>, t: State)
    decreases |actions|
  {
    if actions == [] then s == t
    else CanAct(s, actions[0]) && Run(Act(s, actions[0]), actions[1..], t)
  }

  // ---------- What survives every interleaving ----------

  ghost predicate ListedOnce(r: Registry) {
    && (forall f :: f in r.chats ==> NoRepeats(r.chats[f]))
    && (forall f, g, chat :: Linked(r, f, chat) && Linked(r, g, chat) ==> f == g)
  }

  ghost predicate NoneListensToItself(r: Registry) {
    forall f :: f in r.subs ==> f !in r.subs[f]
  }

  ghost predicate Survives(r: Registry) {
    ListedOnce(r) && AdminsOk(r) && BansOk(r) && NoneListensToItself(r)
  }

  ghost predicate IdsOk(s: State) {
    && "" !in s.created
    && (forall f :: f in s.registry.federations || AdminsOf(s.registry, f) != map[] ==> Known(s, f))
    && (forall f :: f in s.registry.federations ==> s.registry.federations[f].id == f || s.registry.federations[f].id == "")
  }

  predicate InFlightOk(s: State, step: Step) {
    if step.command.NewFed? then step.f == step.command.id && step.f != "" && step.f !in s.created else Known(s, step.f)
  }

  ghost predicate ThreadsOk(s: State) {
    && (forall w :: w in s.inflight ==> InFlightOk(s, s.inflight[w]))
    && (forall v, w :: v in s.inflight && w in s.inflight && v != w ==>
          (s.inflight[v].command.NewFed? && s.inflight[w].command.NewFed? ==> s.inflight[v].f != s.inflight[w].f))
  }

  ghost predicate Inv(s: State) {
    Survives(s.registry) && IdsOk(s) && ThreadsOk(s)
  }

  lemma CreateSurvives(r: Registry, federation: Federation)
    requires Survives(r) && AdminsOf(r, federation.id) == map[]
    ensures Survives(Create(r, federation))
  {
    var t := Create(r, federation);
    assert forall g, u :: g != federation.id ==> (Owns(t, g, u) <==> Owns(r, g, u));
    assert forall g, c :: Linked(t, g, c) <==> Linked(r, g, c);
    assert Owns(t, federation.id, federation.owner);
    hide Owns, Linked;
  }

  lemma RecordSurvives(r: Registry, f: string, federation: Federation)
    requires Survives(r) && f in r.federations && federation.owner == r.federations[f].owner
    ensures Survives(r.(federations := r.federations[f := federation]))
  {
    var t := r.(federations := r.federations[f := federation]);
    assert forall g, u :: Owns(t, g, u) <==> Owns(r, g, u);
    assert forall g, c :: Linked(t, g, c) <==> Linked(r, g, c);
    hide Owns;
  }

  lemma DeleteSurvives(r: Registry, f: string)
    requires Survives(r)
    ensures Survives(Delete(r, f))
  {
    var t := Delete(r, f);
    assert forall g, c :: Linked(t, g, c) ==> Linked(r, g, c);
    assert forall g, u :: Owns(t, g, u) <==> Owns(r, g, u) && g != f;
    hide Owns, Linked;
  }

  lemma ChatsSurvive(r: Registry, f: string, chat: int)
    requires Survives(r)
    ensures Survives(JoinChat(r, f, chat)) && Survives(LeaveChat(r, f, chat))
  {
    JoinMeans(r, f, chat);
    LeaveMeans(r, f, chat);
    var t, u := JoinChat(r, f, chat), LeaveChat(r, f, chat);
    assert forall g, a :: Owns(t, g, a) <==> Owns(r, g, a);
    assert forall g, a :: Owns(u, g, a) <==> Owns(r, g, a);
    hide Owns, Without, Linked;
  }

  lemma SetAdminSurvives(r: Registry, f: string, user: int, enabled: bool)
    requires Survives(r)
    ensures Survives(SetAdmin(r, f, user, AdminRole, enabled))
  {
    var t := SetAdmin(r, f, user, AdminRole, enabled);
    assert forall g, u :: Owns(t, g, u) <==> Owns(r, g, u);
    assert forall g, c :: Linked(t, g, c) <==> Linked(r, g, c);
    hide Owns, Linked;
  }

  lemma TransferSurvives(r: Registry, f: string, user: int)
    requires Survives(r)
    ensures Survives(Transfer(r, f, user))
  {
    var t := Transfer(r, f, user);
    assert forall g, u :: Owns(t, g, u) <==> if g == f then u == user else Owns(r, g, u);
    assert forall g, c :: Linked(t, g, c) <==> Linked(r, g, c);
    hide Owns, Linked;
  }

  lemma SetSubscriptionSurvives(r: Registry, f: string, g: string, enabled: bool)
    requires Survives(r)
    ensures Survives(SetSubscription(r, f, g, enabled))
  {
    var t := SetSubscription(r, f, g, enabled);
    assert forall h, u :: Owns(t, h, u) <==> Owns(r, h, u);
    assert forall h, c :: Linked(t, h, c) <==> Linked(r, h, c);
    hide Owns, Linked;
  }

  lemma SetBanSurvives(r: Registry, f: string, ban: Ban, enabled: bool)
    requires Survives(r)
    ensures Survives(SetBan(r, f, ban, enabled))
  {
    var t := SetBan(r, f, ban, enabled);
    assert forall h, u :: Owns(t, h, u) <==> Owns(r, h, u);
    assert forall h, c :: Linked(t, h, c) <==> Linked(r, h, c);
    assert Keyed(BansOf(r, f));
    hide Owns, Linked;
  }

  lemma PerformSurvives(r: Registry, step: Step)
    requires Survives(r) && !step.command.FedImport?
    requires step.command.NewFed? ==> AdminsOf(r, step.command.id) == map[]
    ensures Survives(Perform(r, step))
  {
    hide Survives, Create, Delete, JoinChat, LeaveChat, SetAdmin, Transfer, SetSubscription, SetBan, Lower, TrimSpace;
    var a, f := step.actor, step.f;
    match step.command
    case NewFed(id, shortName, displayName) => CreateSurvives(r, Federation(id, shortName, displayName, a.user, false));
    case RenameFed(shortName, displayName) =>
      if f in r.federations {
        RecordSurvives(r, f, FederationAt(Rename(r, f, shortName, displayName), f));
      }
    case DelFed => DeleteSurvives(r, f);
    case JoinFed(_) => ChatsSurvive(r, f, a.chat);
    case LeaveFed => ChatsSurvive(r, f, a.chat);
    case FedPromote(_, target, enabled) => SetAdminSurvives(r, f, target, enabled);
    case FedDemoteMe(_) => SetAdminSurvives(r, f, a.user, false);
    case TransferFed(_, target) => TransferSurvives(r, f, target);
    case FedReason(required) =>
      if f in r.federations {
        RecordSurvives(r, f, FederationAt(SetRequireReason(r, f, required), f));
      }
    case SubFed(_, g, enabled) => SetSubscriptionSurvives(r, f, g, enabled);
    case FBan(ban, enabled) => SetBanSurvives(r, f, ban, enabled);
    case FedImport(_, _) =>
  }

  // What is in the record afterwards.
  lemma OwnRecord(r: Registry, step: Step)
    requires step.command.NewFed? ==> step.f == step.command.id
    ensures var t, f := Perform(r, step), step.f;
      match step.command
      case NewFed(_, _, _) => f in t.federations && t.federations[f].id == f && t.federations[f].owner == step.actor.user
      case DelFed => f !in t.federations
      case TransferFed(_, target) =>
        f in t.federations && t.federations[f].id == FederationAt(r, f).id && t.federations[f].owner == target
      case _ =>
        && (f in t.federations <==> f in r.federations)
        && FederationAt(t, f).id == FederationAt(r, f).id && FederationAt(t, f).owner == FederationAt(r, f).owner
  {
    hide Lower, TrimSpace, Without, Overlay, Demoted;
  }

  lemma WriteKeepsIds(s: State, w: int)
    requires IdsOk(s) && ThreadsOk(s) && CanAct(s, Write(w))
    ensures IdsOk(Act(s, Write(w)))
  {
    var t, step := Act(s, Write(w)), s.inflight[w];
    forall g ensures
      && (g in t.registry.federations || AdminsOf(t.registry, g) != map[] ==> Known(t, g))
      && (g in t.registry.federations ==> t.registry.federations[g].id == g || t.registry.federations[g].id == "")
    {
      OwnRecord(s.registry, step);
      if g != step.f {
        CommandElsewhere(s.registry, step, g);
      }
      hide Perform;
    }
  }

  lemma CheckKeepsInv(s: State, w: int, step: Step)
    requires Inv(s) && CanAct(s, Check(w, step))
    ensures Inv(Act(s, Check(w, step)))
  {
    hide Survives, Held;
    var t := Act(s, Check(w, step));
    assert InFlightOk(s, step);
    assert forall f :: Known(t, f) <==> Known(s, f);
  }

  lemma WriteKeepsInv(s: State, w: int)
    requires Inv(s) && CanAct(s, Write(w))
    ensures Inv(Act(s, Write(w)))
  {
    WriteKeepsIds(s, w);
    PerformSurvives(s.registry, s.inflight[w]);
    hide Survives, IdsOk, Perform;
  }

  lemma WriteBanKeepsInv(s: State, w: int, ban: Ban, enabled: bool)
    requires Inv(s) && CanAct(s, WriteBan(w, ban, enabled))
    ensures Inv(Act(s, WriteBan(w, ban, enabled)))
  {
    hide Survives;
    var t := Act(s, WriteBan(w, ban, enabled));
    SetBanSurvives(s.registry, s.inflight[w].f, ban, enabled);
    assert forall f :: AdminsOf(t.registry, f) == AdminsOf(s.registry, f);
    assert forall f :: Known(t, f) <==> Known(s, f);
  }

  lemma ActKeepsInv(s: State, action: Action)
    requires Inv(s) && CanAct(s, action)
    ensures Inv(Act(s, action))
  {
    match action
    case Check(w, step) => CheckKeepsInv(s, w, step);
    case Write(w) => WriteKeepsInv(s, w);
    case WriteBan(w, ban, enabled) => WriteBanKeepsInv(s, w, ban, enabled);
    case Drop(w) =>
      hide Survives;
  }

  lemma {:induction false} RunKeepsInv(s: State, actions: seq<Action>, t: State)
    requires Inv(s) && Run(s, actions, t)
    ensures Inv(t)
    decreases |actions|
  {
    if actions != [] {
      ActKeepsInv(s, actions[0]);
      hide Inv, CanAct, Act;
      RunKeepsInv(Act(s, actions[0]), actions[1..], t);
    }
  }

  // Whatever commands overlap: every chat is listed once and in at most one federation,
  // whoever is listed as an owner is the owner, bans stand under the user they ban, and no
  // federation listens to itself.
  lemma OverlapInvariants(actions: seq<Action>, t: State)
    requires Run(INIT, actions, t)
    ensures var r := t.registry;
      && (forall f, g, chat :: Linked(r, f, chat) && Linked(r, g, chat) ==> f == g)
      && (forall f :: f in r.chats ==> NoRepeats(r.chats[f]))
      && (forall f, u :: f in r.admins && u in r.admins[f] && r.admins[f][u] == OwnerRole ==> Owns(r, f, u))
      && (forall f, u :: f in r.bans && u in r.bans[f] ==> r.bans[f][u].userId == u)
      && (forall f :: f in r.subs ==> f !in r.subs[f])
  {
    RunKeepsInv(INIT, actions, t);
  }

  // Commands that pass every check at one moment are among those that may pass.
  lemma AcceptedMayPass(s: State, step: Step)
    requires Inv(s) && Accepted(s.registry, step)
    requires step.command.NewFed? ==> InFlightOk(s, step)
    requires forall v :: v in s.inflight && s.inflight[v].command.NewFed? && step.command.NewFed? ==> s.inflight[v].f != step.f
    requires !step.command.NewFed? ==> Named(s.registry, step.f)
    requires step.command.SubFed? ==> Named(s.registry, step.command.g)
    ensures MayPass(s, step)
  {
    hide ResolvesHere, Resolves, ResolvesForTarget, Survives;
    assert forall g, u :: Held(s.registry, g, u) ==> Owns(s.registry, g, u);
  }

  // ---------- When every user keeps at most one federation ----------

  ghost predicate OwnersUnique(r: Registry) {
    forall f, g, u :: Held(r, f, u) && Held(r, g, u) ==> f == g
  }

  // The write of this command makes the user the owner of f.
  predicate Promises(r: Registry, step: Step, f: string, user: int) {
    && step.f == f
    && match step.command
       case NewFed(_, _, _) => step.actor.user == user
       case TransferFed(_, target) => target == user && Named(r, f)
       case _ => false
  }

  ghost predicate Claims(s: State, f: string, user: int) {
    Held(s.registry, f, user) || exists w :: w in s.inflight && Promises(s.registry, s.inflight[w], f, user)
  }

  // No user has two federations or is about to get a second one.
  ghost predicate NoRivals(s: State) {
    forall f, g, u :: Claims(s, f, u) && Claims(s, g, u) ==> f == g
  }

  // A check of /newfed or /transferfed does not overlap another command that makes the same
  // user the owner of a different federation.
  ghost predicate Apart(s: State, action: Action) {
    action.Check? ==>
      forall v, g, u :: v in s.inflight && Promises(s.registry, s.inflight[v], g, u) ==>
        (Promises(s.registry, action.step, action.step.f, u) ==> g == action.step.f)
  }

  ghost predicate ApartRun(s: State, actions: seq<Action>, t: State)
    decreases |actions|
  {
    if actions == [] then s == t
    else CanAct(s, actions[0]) && Apart(s, actions[0]) && ApartRun(Act(s, actions[0]), actions[1..], t)
  }

  lemma {:induction false} ApartRunIsRun(s: State, actions: seq<Action>, t: State)
    requires ApartRun(s, actions, t)
    ensures Run(s, actions, t)
    decreases |actions|
  {
    if actions != [] {
      hide CanAct, Act, Apart;
      ApartRunIsRun(Act(s, actions[0]), actions[1..], t);
    }
  }

  // Claims come only from checks.
  lemma WriteMakesNoClaim(s: State, w: int, f: string, user: int)
    requires Inv(s) && CanAct(s, Write(w)) && Claims(Act(s, Write(w)), f, user)
    ensures Claims(s, f, user)
  {
    hide Survives;
    var t, step := Act(s, Write(w)), s.inflight[w];
    OwnRecord(s.registry, step);
    if f != step.f {
      CommandElsewhere(s.registry, step, f);
    }
    hide Perform;
    if !Held(t.registry, f, user) {
      var v :| v in t.inflight && Promises(t.registry, t.inflight[v], f, user);
      assert InFlightOk(s, s.inflight[v]) && InFlightOk(s, step);
      assert Promises(s.registry, s.inflight[v], f, user);
    } else if f == step.f && (step.command.NewFed? || step.command.TransferFed?) {
      assert Promises(s.registry, step, f, user);
    } else {
      assert Held(s.registry, f, user);
    }
  }

  lemma ActKeepsNoRivals(s: State, action: Action)
    requires Inv(s) && CanAct(s, action) && Apart(s, action) && NoRivals(s)
    ensures NoRivals(Act(s, action))
  {
    hide Inv;
    var t := Act(s, action);
    match action
    case Write(w) =>
      forall f, u | Claims(t, f, u) ensures Claims(s, f, u) {
        WriteMakesNoClaim(s, w, f, u);
      }
      hide Claims, CanAct, Act;
    case WriteBan(w, ban, enabled) =>
      assert forall f, u :: Claims(t, f, u) ==> Claims(s, f, u);
      hide Claims, CanAct, Act;
    case Drop(w) =>
      assert forall f, u :: Claims(t, f, u) ==> Claims(s, f, u);
      hide Claims, CanAct, Act;
    case Check(w, step) =>
      forall f, g, u | Claims(t, f, u) && Claims(t, g, u) ensures f == g {
        CheckedClaim(s, w, step, f, u);
        CheckedClaim(s, w, step, g, u);
        hide CanAct, Act, Claims, Promises;
      }
  }

  // After a check the claims are the old ones and its own, which no old one rivals.
  lemma CheckedClaim(s: State, w: int, step: Step, f: string, user: int)
    requires CanAct(s, Check(w, step)) && Apart(s, Check(w, step))
    ensures Claims(Act(s, Check(w, step)), f, user) <==> Claims(s, f, user) || Promises(s.registry, step, f, user)
    ensures Claims(s, f, user) && Promises(s.registry, step, step.f, user) ==> f == step.f
  {
    var t := Act(s, Check(w, step));
    assert t.inflight[w] == step && forall v :: v in s.inflight ==> t.inflight[v] == s.inflight[v];
    if Promises(s.registry, step, f, user) {
      assert Promises(t.registry, t.inflight[w], f, user);
    }
  }

  lemma {:induction false} ApartRunKeepsNoRivals(s: State, actions: seq<Action>, t: State)
    requires Inv(s) && NoRivals(s) && ApartRun(s, actions, t)
    ensures NoRivals(t) && OwnersUnique(t.registry)
    decreases |actions|
  {
    if actions != [] {
      ActKeepsInv(s, actions[0]);
      ActKeepsNoRivals(s, actions[0]);
      hide Inv, NoRivals, OwnersUnique, CanAct, Act, Apart;
      ApartRunKeepsNoRivals(Act(s, actions[0]), actions[1..], t);
    } else {
      assert forall f, u :: Held(s.registry, f, u) ==> Claims(s, f, u);
    }
  }

  // A claim can be made good, whatever else is claimed by others.
  lemma ClaimMadeGood(s: State, f: string, g: string, user: int) returns (actions: seq<Action>, t: State)
    requires Inv(s) && Claims(s, f, user) && Claims(s, g, user) && f != g
    ensures ApartRun(s, actions, t) && Inv(t)
    ensures Held(t.registry, f, user) && Claims(t, g, user)
    ensures Held(s.registry, g, user) ==> Held(t.registry, g, user)
  {
    if Held(s.registry, f, user) {
      actions, t := [], s;
    } else {
      var w :| w in s.inflight && Promises(s.registry, s.inflight[w], f, user);
      var step := s.inflight[w];
      ActKeepsInv(s, Write(w));
      assert InFlightOk(s, step);
      t := Act(s, Write(w));
      hide Inv;
      OwnRecord(s.registry, step);
      CommandElsewhere(s.registry, step, g);
      hide Perform;
      if !Held(s.registry, g, user) {
        var v :| v in s.inflight && Promises(s.registry, s.inflight[v], g, user);
        assert v in t.inflight && Promises(t.registry, t.inflight[v], g, user);
      }
      actions := [Write(w)];
      assert ApartRun(t, actions[1..], t);
    }
  }

  lemma {:induction false} ApartRunsConcat(s: State, first: seq<Action>, t: State, second: seq<Action>, u: State)
    requires ApartRun(s, first, t) && ApartRun(t, second, u)
    ensures ApartRun(s, first + second, u)
    decreases |first|
  {
    if first == [] {
      assert first + second == second;
    } else {
      hide CanAct, Act, Apart;
      ApartRunsConcat(Act(s, first[0]), first[1..], t, second, u);
      assert (first + second)[1..] == first[1..] + second;
    }
  }

  // Every user keeps at most one federation, in every continuation in which commands that
  // make one user an owner do not overlap, if and only if no two such commands are in flight
  // now and none is in flight for somebody who already has another federation.
  lemma OwnersStayUniqueIff(s: State)
    requires Inv(s)
    ensures (forall actions, t :: ApartRun(s, actions, t) ==> OwnersUnique(t.registry)) <==> NoRivals(s)
  {
    if NoRivals(s) {
      forall actions, t | ApartRun(s, actions, t) ensures OwnersUnique(t.registry) {
        ApartRunKeepsNoRivals(s, actions, t);
        hide ApartRun;
      }
    } else {
      var f, g, u :| Claims(s, f, u) && Claims(s, g, u) && f != g;
      var first, t1 := ClaimMadeGood(s, f, g, u);
      var second, t := ClaimMadeGood(t1, g, f, u);
      ApartRunsConcat(s, first, t1, second, t);
      hide ApartRun, Held;
      assert !OwnersUnique(t.registry);
    }
  }

  // So without such overlaps no user ever owns two federations, however the rest interleaves,
  // and what survives every interleaving holds as well.
  lemma OneFederationEach(actions: seq<Action>, t: State)
    requires ApartRun(INIT, actions, t)
    ensures OwnersUnique(t.registry) && Survives(t.registry)
  {
    assert NoRivals(INIT);
    ApartRunIsRun(INIT, actions, t);
    RunKeepsInv(INIT, actions, t);
    ApartRunKeepsNoRivals(INIT, actions, t);
  }

  // Two overlapping /newfed of one user pass all their checks and leave two federations.
  lemma TwoFederationsForOneUser(a: Actor, f: string, g: string, name: string)
    requires f != g && f != "" && g != ""
    ensures var first, second := Step(a, NewFed(f, name, name), f), Step(a, NewFed(g, name, name), g);
      && Accepted(EMPTY, first) && Accepted(EMPTY, second)
      && exists t :: Run(INIT, [Check(1, first), Check(2, second), Write(1), Write(2)], t)
           && Held(t.registry, f, a.user) && Held(t.registry, g, a.user)
  {
    var first, second := Step(a, NewFed(f, name, name), f), Step(a, NewFed(g, name, name), g);
    var actions := [Check(1, first), Check(2, second), Write(1), Write(2)];
    var s1 := Act(INIT, actions[0]);
    var s2 := Act(s1, actions[1]);
    var s3 := Act(s2, actions[2]);
    var t := Act(s3, actions[3]);
    assert Run(t, [], t);
    assert actions[3..] == [Write(2)] && actions[3..][1..] == [] && Run(s3, actions[3..], t);
    assert actions[2..][1..] == actions[3..] && Run(s2, actions[2..], t);
    assert actions[1..][1..] == actions[2..] && Run(s1, actions[1..], t);
    assert Run(INIT, actions, t);
  }

  // ---------- When chats stay linked to federations that exist ----------

  ghost predicate LinksExist(r: Registry) {
    forall f, chat :: Linked(r, f, chat) ==> f in r.federations
  }

  // Somebody is about to join a federation that is gone or about to go.
  ghost predicate Loose(s: State, w: int) {
    && w in s.inflight && s.inflight[w].command.JoinFed?
    && (s.inflight[w].f !in s.registry.federations
        || exists v :: v in s.inflight && s.inflight[v].command.DelFed? && s.inflight[v].f == s.inflight[w].f)
  }

  // A check of /joinfed finds the federation and does not overlap its deletion, nor a check
  // of /delfed a chat's joining.
  ghost predicate NoJoinDuringDelete(s: State, action: Action) {
    action.Check? ==>
      && (action.step.command.JoinFed? ==>
            && action.step.f in s.registry.federations
            && forall v :: v in s.inflight && s.inflight[v].command.DelFed? ==> s.inflight[v].f != action.step.f)
      && (action.step.command.DelFed? ==>
            forall v :: v in s.inflight && s.inflight[v].command.JoinFed? ==> s.inflight[v].f != action.step.f)
  }

  ghost predicate LinkRun(s: State, actions: seq<Action>, t: State)
    decreases |actions|
  {
    if actions == [] then s == t
    else CanAct(s, actions[0]) && NoJoinDuringDelete(s, actions[0]) && LinkRun(Act(s, actions[0]), actions[1..], t)
  }

  ghost predicate LinksFirm(s: State) {
    LinksExist(s.registry) && forall w :: !Loose(s, w)
  }

  // Which chats a command links.
  lemma PerformLinks(r: Registry, step: Step)
    ensures forall g, c :: Linked(Perform(r, step), g, c) ==>
      if step.command.JoinFed? && g == step.f && c == step.actor.chat then true
      else Linked(r, g, c) && !(step.command.DelFed? && g == step.f)
  {
    JoinMeans(r, step.f, step.actor.chat);
    LeaveMeans(r, step.f, step.actor.chat);
    hide JoinChat, LeaveChat, Without, Overlay, Demoted, Lower, TrimSpace;
  }

  lemma WriteKeepsLinksFirm(s: State, w: int)
    requires Inv(s) && CanAct(s, Write(w)) && LinksFirm(s)
    ensures LinksFirm(Act(s, Write(w)))
  {
    hide Survives, IdsOk;
    var t, step := Act(s, Write(w)), s.inflight[w];
    assert InFlightOk(s, step) && !Loose(s, w);
    PerformLinks(s.registry, step);
    forall g ensures g in s.registry.federations && !(step.command.DelFed? && g == step.f) ==> g in t.registry.federations {
      OwnRecord(s.registry, step);
      if g != step.f {
        CommandElsewhere(s.registry, step, g);
      }
      hide Perform;
    }
    hide Perform, Linked, Inv;
    forall v ensures !Loose(t, v) {
      assert !Loose(s, v);
    }
  }

  lemma ActKeepsLinksFirm(s: State, action: Action)
    requires Inv(s) && CanAct(s, action) && NoJoinDuringDelete(s, action) && LinksFirm(s)
    ensures LinksFirm(Act(s, action))
  {
    hide Inv;
    var t := Act(s, action);
    match action
    case Write(w) => WriteKeepsLinksFirm(s, w);
    case WriteBan(w, ban, enabled) =>
      assert forall f, c :: Linked(t.registry, f, c) ==> Linked(s.registry, f, c);
      forall v ensures !Loose(t, v) { assert !Loose(s, v); }
    case Drop(w) =>
      forall v ensures !Loose(t, v) { assert !Loose(s, v); }
    case Check(w, step) =>
      hide MayPass;
      forall v ensures !Loose(t, v) {
        assert !Loose(s, v);
        assert forall u :: u in s.inflight ==> t.inflight[u] == s.inflight[u];
      }
  }

  lemma {:induction false} LinkRunKeepsLinksFirm(s: State, actions: seq<Action>, t: State)
    requires Inv(s) && LinksFirm(s) && LinkRun(s, actions, t)
    ensures LinksFirm(t) && LinksExist(t.registry)
    decreases |actions|
  {
    if actions != [] {
      ActKeepsInv(s, actions[0]);
      ActKeepsLinksFirm(s, actions[0]);
      hide Inv, LinksFirm, CanAct, Act, NoJoinDuringDelete;
      LinkRunKeepsLinksFirm(Act(s, actions[0]), actions[1..], t);
    }
  }

  // The write of a loose join links a chat to a missing federation, after the deletion if
  // that is still to come.
  lemma LinksBreak(s: State) returns (actions: seq<Action>, t: State)
    requires Inv(s) && !LinksFirm(s)
    ensures LinkRun(s, actions, t) && !LinksExist(t.registry)
  {
    hide Inv;
    if !LinksExist(s.registry) {
      return [], s;
    }
    var w :| Loose(s, w);
    var step := s.inflight[w];
    if step.f !in s.registry.federations {
      actions, t := [Write(w)], Act(s, Write(w));
      JoinMeans(s.registry, step.f, step.actor.chat);
      assert Linked(t.registry, step.f, step.actor.chat);
      assert LinkRun(t, actions[1..], t);
    } else {
      var v :| v in s.inflight && s.inflight[v].command.DelFed? && s.inflight[v].f == step.f;
      var t1 := Act(s, Write(v));
      actions, t := [Write(v), Write(w)], Act(t1, Write(w));
      JoinMeans(t1.registry, step.f, step.actor.chat);
      assert Linked(t.registry, step.f, step.actor.chat);
      assert actions[1..] == [Write(w)] && actions[1..][1..] == [];
      assert LinkRun(t, [], t) && LinkRun(t1, actions[1..], t);
    }
  }

  // Chats stay linked to federations that exist, in every continuation in which no join
  // overlaps a deletion, if and only if they are now and no join in flight is loose.
  lemma LinksStayIff(s: State)
    requires Inv(s)
    ensures (forall actions, t :: LinkRun(s, actions, t) ==> LinksExist(t.registry)) <==> LinksFirm(s)
  {
    if LinksFirm(s) {
      forall actions, t | LinkRun(s, actions, t) ensures LinksExist(t.registry) {
        LinkRunKeepsLinksFirm(s, actions, t);
      }
    } else {
      var actions, t := LinksBreak(s);
    }
  }

  lemma JoinAndDeleteAccepted(owner: Actor, f: string, name: string)
    requires f != "" && TrimSpace(f) == f && owner.chatCreator
    ensures Accepted(EMPTY, Step(owner, NewFed(f, name, name), f))
    ensures var r := Create(EMPTY, Federation(f, name, name, owner.user, false));
      Accepted(r, Step(owner, JoinFed(f), f)) && Accepted(r, Step(owner, DelFed, f))
  {
    hide TrimSpace;
    var r := Create(EMPTY, Federation(f, name, name, owner.user, false));
    assert forall g, c :: !Linked(r, g, c);
  }

  // A federation's owner has it joined from a chat and deletes it while the join is under
  // way: both commands pass all their checks, and the chat is linked to nothing.
  lemma JoinAfterDelete(owner: Actor, f: string, name: string)
    requires f != "" && TrimSpace(f) == f && owner.chatCreator
    ensures
      var creation, joining, deletion := Step(owner, NewFed(f, name, name), f), Step(owner, JoinFed(f), f), Step(owner, DelFed, f);
      var r := Create(EMPTY, Federation(f, name, name, owner.user, false));
      && Accepted(EMPTY, creation) && Accepted(r, joining) && Accepted(r, deletion)
      && exists t :: Run(INIT, [Check(1, creation), Write(1), Check(1, joining), Check(2, deletion), Write(2), Write(1)], t)
           && Linked(t.registry, f, owner.chat) && f !in t.registry.federations
  {
    hide TrimSpace, ResolvesHere, Resolves, FedAdmin, FedOwner, Without;
    JoinAndDeleteAccepted(owner, f, name);
    var creation, joining, deletion := Step(owner, NewFed(f, name, name), f), Step(owner, JoinFed(f), f), Step(owner, DelFed, f);
    var actions := [Check(1, creation), Write(1), Check(1, joining), Check(2, deletion), Write(2), Write(1)];
    var s1 := Act(INIT, actions[0]);
    var s2 := Act(s1, actions[1]);
    var s3 := Act(s2, actions[2]);
    var s4 := Act(s3, actions[3]);
    var s5 := Act(s4, actions[4]);
    var t := Act(s5, actions[5]);
    assert f !in t.registry.federations;
    assert Linked(t.registry, f, owner.chat) by {
      JoinMeans(s5.registry, f, owner.chat);
    }
    hide Perform, Linked, Accepted;
    assert Run(t, [], t);
    assert actions[5..] == [Write(1)] && actions[5..][1..] == [] && Run(s5, actions[5..], t);
    assert actions[4..][1..] == actions[5..] && Run(s4, actions[4..], t);
    assert actions[3..][1..] == actions[4..] && Run(s3, actions[3..], t);
    assert actions[2..][1..] == actions[3..] && Run(s2, actions[2..], t);
    assert actions[1..][1..] == actions[2..] && Run(s1, actions[1..], t);
    assert Run(INIT, actions, t);
  }
}
