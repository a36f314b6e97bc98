// The federation registry of one bot: who owns a federation, which chats have joined it, who
// administers it, whom it bans and which federations it listens to. Here commands run one at
// a time, each a step on the registry as a value; FederationOverlap lets them interleave.
module FederationRegistry {
  import opened Text

  datatype Role = OwnerRole | AdminRole

  datatype Federation = Federation(id: string, shortName: string, displayName: string, owner: int, requireReason: bool)

  datatype Ban = Ban(userId: int, reason: string, bannedBy: int)

  datatype Registry = Registry(
    federations: map<string, Federation>,
    admins: map<string, map<int, Role>>,
    chats: map<string, seq<int>>,
    bans: map<string, map<int, Ban>>,
    subs: map<string, set<string>>)

  // What the memory store reads under a missing id.
  const ZERO := Federation("", "", "", 0, false)
  const EMPTY := Registry(map[], map[], map[], map[], map[])

  function FederationAt(r: Registry, f: string): Federation {
    if f in r.federations then r.federations[f] else ZERO
  }

  function AdminsOf(r: Registry, f: string): map<int, Role> {
    if f in r.admins then r.admins[f] else map[]
  }

  function ChatsOf(r: Registry, f: string): seq<int> {
    if f in r.chats then r.chats[f] else []
  }

  function BansOf(r: Registry, f: string): map<int, Ban> {
    if f in r.bans then r.bans[f] else map[]
  }

  function SubsOf(r: Registry, f: string): set<string> {
    if f in r.subs then r.subs[f] else {}
  }

  // ---------- Store calls ----------

  function Without(chats: seq<int>, chat: int): seq<int> {
    if chats == [] then []
    else
      var front := Without(chats[..|chats| - 1], chat);
      if chats[|chats| - 1] == chat then front else front + [chats[|chats| - 1]]
  }

  function Create(r: Registry, federation: Federation): Registry {
    r.(federations := r.federations[federation.id := federation],
       admins := r.admins[federation.id := AdminsOf(r, federation.id)[federation.owner := OwnerRole]])
  }

  function Delete(r: Registry, f: string): Registry {
    Registry(r.federations - {f}, r.admins - {f}, r.chats - {f}, r.bans - {f},
             map g | g in r.subs && g != f :: r.subs[g] - {f})
  }

  // Names and settings are written into the record as it is at that moment.
  function Rename(r: Registry, f: string, shortName: string, displayName: string): Registry {
    if f !in r.federations then r
    else
      r.(federations := r.federations[f := r.federations[f].(
        shortName := Lower(TrimSpace(shortName)), displayName := TrimSpace(displayName))])
  }

  function SetRequireReason(r: Registry, f: string, required: bool): Registry {
    if f !in r.federations then r
    else r.(federations := r.federations[f := r.federations[f].(requireReason := required)])
  }

  function JoinChat(r: Registry, f: string, chat: int): Registry {
    r.(chats := (map g | g in r.chats :: Without(r.chats[g], chat))[f := Without(ChatsOf(r, f), chat) + [chat]])
  }

  function LeaveChat(r: Registry, f: string, chat: int): Registry {
    r.(chats := r.chats[f := Without(ChatsOf(r, f), chat)])
  }

  function SetAdmin(r: Registry, f: string, user: int, role: Role, enabled: bool): Registry {
    r.(admins := r.admins[f := if enabled then AdminsOf(r, f)[user := role] else AdminsOf(r, f) - {user}])
  }

  function Demoted(admins: map<int, Role>): map<int, Role> {
    map u | u in admins :: AdminRole
  }

  function Transfer(r: Registry, f: string, user: int): Registry {
    r.(federations := r.federations[f := FederationAt(r, f).(owner := user)],
       admins := r.admins[f := Demoted(AdminsOf(r, f))[user := OwnerRole]])
  }

  function SetSubscription(r: Registry, f: string, g: string, enabled: bool): Registry {
    if f == g then r
    else r.(subs := r.subs[f := if enabled then SubsOf(r, f) + {g} else SubsOf(r, f) - {g}])
  }

  function SetBan(r: Registry, f: string, ban: Ban, enabled: bool): Registry {
    r.(bans := r.bans[f := if enabled then BansOf(r, f)[ban.userId := ban] else BansOf(r, f) - {ban.userId}])
  }

  // The list laid over the bans one entry after the other.
  function Overlay(bans: map<int, Ban>, list: seq<Ban>): map<int, Ban> {
    if list == [] then bans
    else Overlay(bans, list[..|list| - 1])[list[|list| - 1].userId := list[|list| - 1]]
  }

  const IMPORT_LIMIT := 100

  function Import(r: Registry, f: string, overwrite: bool, list: seq<Ban>): Registry {
    if list == [] && (!overwrite || BansOf(r, f) == map[]) then r
    else r.(bans := r.bans[f := Overlay(if overwrite then map[] else BansOf(r, f), list)])
  }

  // ---------- Commands ----------

  // Who sends a command, where, and what the bot already knows of their rights: the owner or
  // a sudo user of the bot, the chat's creator, a member who may restrict others.
  datatype Actor = Actor(user: int, chat: int, sudo: bool, chatCreator: bool, canRestrict: bool)

  predicate Linked(r: Registry, f: string, chat: int) {
    f in r.chats && chat in r.chats[f]
  }

  ghost predicate HasFederation(r: Registry, chat: int) {
    exists f :: Linked(r, f, chat)
  }

  predicate Owns(r: Registry, f: string, user: int) {
    f in r.federations && r.federations[f].owner == user
  }

  // The federation a command means without a reference: the chat's own, or else the one the
  // sender owns.
  ghost predicate ResolvesHere(r: Registry, a: Actor, f: string) {
    if HasFederation(r, a.chat) then Linked(r, f, a.chat) else Owns(r, f, a.user)
  }

  // With a reference the one of that id, or else of that short name.
  ghost predicate Resolves(r: Registry, a: Actor, reference: string, f: string) {
    var name := TrimSpace(reference);
    if name == "" then ResolvesHere(r, a, f)
    else if name in r.federations then f == name
    else f in r.federations && Lower(r.federations[f].shortName) == Lower(name)
  }

  // Commands with a target user look at the chat's federation first.
  ghost predicate ResolvesForTarget(r: Registry, a: Actor, reference: string, f: string) {
    if HasFederation(r, a.chat) then Linked(r, f, a.chat) else Resolves(r, a, reference, f)
  }

  predicate FedOwner(r: Registry, a: Actor, f: string) {
    a.sudo || FederationAt(r, f).owner == a.user
  }

  predicate FedAdmin(r: Registry, a: Actor, f: string) {
    FedOwner(r, a, f) || a.user in AdminsOf(r, f)
  }

  datatype Command =
    | NewFed(id: string, shortName: string, displayName: string)
    | RenameFed(shortName: string, displayName: string)
    | DelFed
    | JoinFed(reference: string)
    | LeaveFed
    | FedPromote(reference: string, target: int, enabled: bool)
    | FedDemoteMe(reference: string)
    | TransferFed(reference: string, target: int)
    | FedReason(required: bool)
    | SubFed(other: string, g: string, enabled: bool)
    | FBan(ban: Ban, enabled: bool)
    | FedImport(overwrite: bool, list: seq<Ban>)

  // A command sent by someone, with the federation it was resolved to.
  datatype Step = Step(actor: Actor, command: Command, f: string)

  // The commands that get past every check before they change the store. The id of a new
  // federation is random, so not one in use.
  ghost predicate Accepted(r: Registry, step: Step) {
    var a, f := step.actor, step.f;
    match step.command
    case NewFed(id, _, _) => f == id && id !in r.federations && forall g :: !Owns(r, g, a.user)
    case RenameFed(_, _) => ResolvesHere(r, a, f) && FedOwner(r, a, f)
    case DelFed => ResolvesHere(r, a, f) && FedOwner(r, a, f)
    case JoinFed(reference) => (a.sudo || a.chatCreator) && Resolves(r, a, reference, f) && FedAdmin(r, a, f)
    case LeaveFed => (a.sudo || a.chatCreator) && ResolvesHere(r, a, f)
    case FedPromote(reference, _, _) => ResolvesForTarget(r, a, reference, f) && FedOwner(r, a, f)
    case FedDemoteMe(reference) => Resolves(r, a, reference, f) && FederationAt(r, f).owner != a.user
    case TransferFed(reference, target) =>
      ResolvesForTarget(r, a, reference, f) && FedOwner(r, a, f) && forall g :: Owns(r, g, target) ==> g == f
    case FedReason(_) => ResolvesHere(r, a, f) && FedOwner(r, a, f)
    case SubFed(other, g, _) => ResolvesHere(r, a, f) && FedOwner(r, a, f) && Resolves(r, a, other, g) && g != f
    case FBan(ban, enabled) =>
      && a.canRestrict && ResolvesHere(r, a, f) && FedAdmin(r, a, f) && ban.bannedBy == a.user
      && (FederationAt(r, f).requireReason && enabled ==> !Blank(ban.reason))
    case FedImport(_, list) => ResolvesHere(r, a, f) && FedOwner(r, a, f) && |list| <= IMPORT_LIMIT
  }

  function Perform(r: Registry, step: Step): Registry {
    var a, f := step.actor, step.f;
    match step.command
    case NewFed(id, shortName, displayName) => Create(r, Federation(id, shortName, displayName, a.user, false))
    case RenameFed(shortName, displayName) => Rename(r, f, shortName, displayName)
    case DelFed => Delete(r, f)
    case JoinFed(_) => JoinChat(r, f, a.chat)
    case LeaveFed => LeaveChat(r, f, a.chat)
    case FedPromote(_, target, enabled) => SetAdmin(r, f, target, AdminRole, enabled)
    case FedDemoteMe(_) => SetAdmin(r, f, a.user, AdminRole, false)
    case TransferFed(_, target) => Transfer(r, f, target)
    case FedReason(required) => SetRequireReason(r, f, required)
    case SubFed(_, g, enabled) => SetSubscription(r, f, g, enabled)
    case FBan(ban, enabled) => SetBan(r, f, ban, enabled)
    case FedImport(overwrite, list) => Import(r, f, overwrite, list)
  }

  // A command that fails a check changes nothing.
  ghost predicate Run(r: Registry, steps: seq<Step>, t: Registry)
    decreases |steps|
  {
    if steps == [] then r == t
    else Run(if Accepted(r, steps[0]) then Perform(r, steps[0]) else r, steps[1..], t)
  }

  // ---------- Invariants ----------

  predicate NoRepeats(s: seq<int>) {
    forall i, j :: 0 <= i < j < |s| ==> s[i] != s[j]
  }

  // A chat is listed at most once, and in at most one federation, which exists.
  ghost predicate ChatsOk(r: Registry) {
    && (forall f :: f in r.chats ==> NoRepeats(r.chats[f]))
    && (forall f, chat :: Linked(r, f, chat) ==> f in r.federations)
    && (forall f, g, chat :: Linked(r, f, chat) && Linked(r, g, chat) ==> f == g)
  }

  // A user owns at most one federation.
  ghost predicate OwnersOk(r: Registry) {
    && (forall f :: f in r.federations ==> r.federations[f].id == f)
    && (forall f, g, u :: Owns(r, f, u) && Owns(r, g, u) ==> f == g)
  }

  // Whoever is listed as owner owns the federation.
  ghost predicate AdminsOk(r: Registry) {
    forall f, u :: f in r.admins && u in r.admins[f] && r.admins[f][u] == OwnerRole ==> Owns(r, f, u)
  }

  // Nothing is kept for a deleted federation, and none listens to itself.
  ghost predicate NoLeftovers(r: Registry) {
    && r.admins.Keys <= r.federations.Keys && r.bans.Keys <= r.federations.Keys && r.subs.Keys <= r.federations.Keys
    && (forall f :: f in r.subs ==> r.subs[f] <= r.federations.Keys && f !in r.subs[f])
  }

  // Bans are kept under the user they ban.
  predicate Keyed(bans: map<int, Ban>) {
    forall u :: u in bans ==> bans[u].userId == u
  }

  ghost predicate BansOk(r: Registry) {
    forall f :: f in r.bans ==> Keyed(r.bans[f])
  }

  ghost predicate Inv(r: Registry) {
    ChatsOk(r) && OwnersOk(r) && AdminsOk(r) && BansOk(r) && NoLeftovers(r)
  }

  lemma {:induction false} OverlayKeyed(bans: map<int, Ban>, list: seq<Ban>)
    requires Keyed(bans)
    ensures Keyed(Overlay(bans, list))
  {
    if list != [] {
      OverlayKeyed(bans, list[..|list| - 1]);
    }
  }

  lemma {:induction false} WithoutMeans(chats: seq<int>, chat: int)
    ensures forall c :: c in Without(chats, chat) <==> c in chats && c != chat
    ensures NoRepeats(chats) ==> NoRepeats(Without(chats, chat))
    ensures chat !in chats ==> Without(chats, chat) == chats
  {
    if chats != [] {
      var front := chats[..|chats| - 1];
      WithoutMeans(front, chat);
      assert chats == front + [chats[|chats| - 1]];
      assert NoRepeats(chats) ==> chats[|chats| - 1] !in front && NoRepeats(front);
    }
  }

  lemma ResolvedExists(r: Registry, a: Actor, reference: string, f: string)
    requires Inv(r) && (ResolvesHere(r, a, f) || Resolves(r, a, reference, f) || ResolvesForTarget(r, a, reference, f))
    ensures f in r.federations
  {
    hide TrimSpace, Lower;
  }

  lemma AcceptedExists(r: Registry, step: Step)
    requires Inv(r) && Accepted(r, step)
    ensures !step.command.NewFed? ==> step.f in r.federations
    ensures step.command.SubFed? ==> step.command.g in r.federations
  {
    hide ResolvesHere, Resolves, ResolvesForTarget, Inv;
    match step.command
    case NewFed(_, _, _) =>
    case JoinFed(reference) => ResolvedExists(r, step.actor, reference, step.f);
    case FedPromote(reference, _, _) => ResolvedExists(r, step.actor, reference, step.f);
    case FedDemoteMe(reference) => ResolvedExists(r, step.actor, reference, step.f);
    case TransferFed(reference, _) => ResolvedExists(r, step.actor, reference, step.f);
    case SubFed(other, g, _) =>
      ResolvedExists(r, step.actor, "", step.f);
      ResolvedExists(r, step.actor, other, g);
    case _ => ResolvedExists(r, step.actor, "", step.f);
  }

  // How joining and leaving change the lists of chats.
  lemma JoinMeans(r: Registry, f: string, chat: int)
    ensures forall g, c :: Linked(JoinChat(r, f, chat), g, c) <==> if c == chat then g == f else Linked(r, g, c)
    ensures (forall g :: g in r.chats ==> NoRepeats(r.chats[g])) ==> forall g :: g in JoinChat(r, f, chat).chats ==> NoRepeats(JoinChat(r, f, chat).chats[g])
  {
    var t := JoinChat(r, f, chat);
    forall g, c ensures Linked(t, g, c) <==> if c == chat then g == f else Linked(r, g, c) {
      WithoutMeans(ChatsOf(r, g), chat);
    }
    if forall g :: g in r.chats ==> NoRepeats(r.chats[g]) {
      forall g | g in t.chats ensures NoRepeats(t.chats[g]) {
        WithoutMeans(ChatsOf(r, g), chat);
        assert NoRepeats(ChatsOf(r, g));
        assert t.chats[g] == Without(ChatsOf(r, g), chat) + (if g == f then [chat] else []);
        hide Without;
      }
    }
  }

  lemma LeaveMeans(r: Registry, f: string, chat: int)
    ensures forall g, c :: Linked(LeaveChat(r, f, chat), g, c) <==> Linked(r, g, c) && !(g == f && c == chat)
    ensures (forall g :: g in r.chats ==> NoRepeats(r.chats[g])) ==> forall g :: g in LeaveChat(r, f, chat).chats ==> NoRepeats(LeaveChat(r, f, chat).chats[g])
  {
    WithoutMeans(ChatsOf(r, f), chat);
    assert (forall g :: g in r.chats ==> NoRepeats(r.chats[g])) ==> NoRepeats(ChatsOf(r, f));
    hide Without;
  }

  lemma CreateKeepsInv(r: Registry, federation: Federation)
    requires Inv(r) && federation.id !in r.federations && forall g :: !Owns(r, g, federation.owner)
    ensures Inv(Create(r, federation))
  {
    var t := Create(r, federation);
    assert forall g, u :: Owns(t, g, u) <==> if g == federation.id then u == federation.owner else Owns(r, g, u);
    assert forall g, c :: Linked(t, g, c) <==> Linked(r, g, c);
    assert t.federations.Keys == r.federations.Keys + {federation.id};
    hide Owns, Linked;
  }

  lemma DeleteKeepsInv(r: Registry, f: string)
    requires Inv(r)
    ensures Inv(Delete(r, f))
  {
    var t := Delete(r, f);
    assert forall g, c :: Linked(t, g, c) ==> Linked(r, g, c);
    assert forall g, u :: Owns(t, g, u) <==> Owns(r, g, u) && g != f;
    assert ChatsOk(t);
    hide ChatsOk;
    assert OwnersOk(t);
    hide OwnersOk;
    assert AdminsOk(t);
    hide AdminsOk;
  }

  lemma RecordKeepsInv(r: Registry, f: string, federation: Federation)
    requires Inv(r) && f in r.federations
    requires federation.owner == r.federations[f].owner && federation.id == f
    ensures Inv(r.(federations := r.federations[f := federation]))
  {
    var t := r.(federations := r.federations[f := federation]);
    assert forall g, u :: Owns(t, g, u) <==> Owns(r, g, u);
    assert forall g, c :: Linked(t, g, c) <==> Linked(r, g, c);
    hide Owns;
  }

  lemma JoinKeepsInv(r: Registry, f: string, chat: int)
    requires Inv(r) && f in r.federations
    ensures Inv(JoinChat(r, f, chat))
  {
    JoinMeans(r, f, chat);
    var t := JoinChat(r, f, chat);
    assert forall g, u :: Owns(t, g, u) <==> Owns(r, g, u);
    hide Owns, Without, Linked;
  }

  lemma LeaveKeepsInv(r: Registry, f: string, chat: int)
    requires Inv(r)
    ensures Inv(LeaveChat(r, f, chat))
  {
    LeaveMeans(r, f, chat);
    var t := LeaveChat(r, f, chat);
    assert forall g, u :: Owns(t, g, u) <==> Owns(r, g, u);
    hide Owns, Without, Linked;
  }

  lemma SetAdminKeepsInv(r: Registry, f: string, user: int, enabled: bool)
    requires Inv(r) && f in r.federations
    ensures Inv(SetAdmin(r, f, user, AdminRole, enabled))
  {
    var t := SetAdmin(r, f, user, AdminRole, enabled);
    assert forall g, u :: Owns(t, g, u) <==> Owns(r, g, u);
    assert forall g, c :: Linked(t, g, c) <==> Linked(r, g, c);
    hide Owns, Linked;
  }

  lemma TransferKeepsInv(r: Registry, f: string, user: int)
    requires Inv(r) && f in r.federations && forall g :: Owns(r, g, user) ==> g == f
    ensures Inv(Transfer(r, f, user))
  {
    var t := Transfer(r, f, user);
    assert forall g, u :: Owns(t, g, u) <==> if g == f then u == user else Owns(r, g, u);
    assert forall g, c :: Linked(t, g, c) <==> Linked(r, g, c);
    assert t.federations.Keys == r.federations.Keys;
    hide Owns, Linked;
  }

  lemma SetSubscriptionKeepsInv(r: Registry, f: string, g: string, enabled: bool)
    requires Inv(r) && f in r.federations && g in r.federations
    ensures Inv(SetSubscription(r, f, g, enabled))
  {
    var t := SetSubscription(r, f, g, enabled);
    assert forall h, u :: Owns(t, h, u) <==> Owns(r, h, u);
    assert forall h, c :: Linked(t, h, c) <==> Linked(r, h, c);
    hide Owns, Linked;
  }

  lemma BansKeepInv(r: Registry, f: string, bans: map<int, Ban>)
    requires Inv(r) && f in r.federations && Keyed(bans)
    ensures Inv(r.(bans := r.bans[f := bans]))
  {
    var t := r.(bans := r.bans[f := bans]);
    assert forall h, u :: Owns(t, h, u) <==> Owns(r, h, u);
    assert forall h, c :: Linked(t, h, c) <==> Linked(r, h, c);
    hide Owns, Linked;
  }

  lemma RenameKeepsInv(r: Registry, f: string, shortName: string, displayName: string)
    requires Inv(r) && f in r.federations
    ensures Inv(Rename(r, f, shortName, displayName))
  {
    hide Inv, Lower, TrimSpace;
    IdsMatch(r, f);
    RecordKeepsInv(r, f, FederationAt(Rename(r, f, shortName, displayName), f));
  }

  lemma SetRequireReasonKeepsInv(r: Registry, f: string, required: bool)
    requires Inv(r) && f in r.federations
    ensures Inv(SetRequireReason(r, f, required))
  {
    hide Inv;
    IdsMatch(r, f);
    RecordKeepsInv(r, f, FederationAt(SetRequireReason(r, f, required), f));
  }

  lemma SetBanKeepsInv(r: Registry, f: string, ban: Ban, enabled: bool)
    requires Inv(r) && f in r.federations
    ensures Inv(SetBan(r, f, ban, enabled))
  {
    hide Inv;
    BansKeyed(r, f);
    BansKeepInv(r, f, SetBan(r, f, ban, enabled).bans[f]);
  }

  lemma ImportKeepsInv(r: Registry, f: string, overwrite: bool, list: seq<Ban>)
    requires Inv(r) && f in r.federations
    ensures Inv(Import(r, f, overwrite, list))
  {
    hide Inv, Overlay;
    var before := if overwrite then map[] else BansOf(r, f);
    BansKeyed(r, f);
    OverlayKeyed(before, list);
    BansKeepInv(r, f, Overlay(before, list));
  }

  lemma StepKeepsInv(r: Registry, step: Step)
    requires Inv(r) && Accepted(r, step)
    ensures Inv(Perform(r, step))
  {
    AcceptedExists(r, step);
    hide Inv, Create, Delete, Rename, SetRequireReason, JoinChat, LeaveChat, SetAdmin, Transfer, SetSubscription, SetBan, Import;
    hide ResolvesHere, Resolves, ResolvesForTarget, FedOwner, FedAdmin, Owns;
    var a, f := step.actor, step.f;
    match step.command
    case NewFed(id, shortName, displayName) => CreateKeepsInv(r, Federation(id, shortName, displayName, a.user, false));
    case RenameFed(shortName, displayName) => RenameKeepsInv(r, f, shortName, displayName);
    case DelFed => DeleteKeepsInv(r, f);
    case JoinFed(_) => JoinKeepsInv(r, f, a.chat);
    case LeaveFed => LeaveKeepsInv(r, f, a.chat);
    case FedPromote(_, target, enabled) => SetAdminKeepsInv(r, f, target, enabled);
    case FedDemoteMe(_) => SetAdminKeepsInv(r, f, a.user, false);
    case TransferFed(_, target) => TransferKeepsInv(r, f, target);
    case FedReason(required) => SetRequireReasonKeepsInv(r, f, required);
    case SubFed(_, g, enabled) => SetSubscriptionKeepsInv(r, f, g, enabled);
    case FBan(ban, enabled) => SetBanKeepsInv(r, f, ban, enabled);
    case FedImport(overwrite, list) => ImportKeepsInv(r, f, overwrite, list);
  }

  lemma BansKeyed(r: Registry, f: string)
    requires Inv(r)
    ensures Keyed(BansOf(r, f))
  {
  }

  lemma IdsMatch(r: Registry, f: string)
    requires Inv(r) && f in r.federations
    ensures r.federations[f].id == f
  {
  }

  lemma {:induction false} RunKeepsInv(r: Registry, steps: seq<Step>, t: Registry)
    requires Inv(r) && Run(r, steps, t)
    ensures Inv(t)
    decreases |steps|
  {
    if steps != [] {
      if Accepted(r, steps[0]) {
        StepKeepsInv(r, steps[0]);
      }
      hide Inv, Perform, Accepted;
      RunKeepsInv(if Accepted(r, steps[0]) then Perform(r, steps[0]) else r, steps[1..], t);
    }
  }

  // After any sequence of commands every chat is in at most one federation and listed there
  // once, every user owns at most one federation, whoever is listed as an owner is the
  // owner, and subscriptions lead to other federations that exist.
  lemma RegistryInvariants(steps: seq<Step>, t: Registry)
    requires Run(EMPTY, steps, t)
    ensures forall f, g, chat :: Linked(t, f, chat) && Linked(t, g, chat) ==> f == g
    ensures forall f :: f in t.chats ==> NoRepeats(t.chats[f])
    ensures forall f, g, u :: Owns(t, f, u) && Owns(t, g, u) ==> f == g
    ensures forall f, u :: f in t.admins && u in t.admins[f] && t.admins[f][u] == OwnerRole ==> Owns(t, f, u)
    ensures forall f, chat :: Linked(t, f, chat) ==> f in t.federations
    ensures forall f, g :: f in t.subs && g in t.subs[f] ==> g in t.federations && g != f
    ensures forall f, u :: f in t.bans && u in t.bans[f] ==> t.bans[f][u].userId == u
  {
    RunKeepsInv(EMPTY, steps, t);
  }

  // ---------- What a command may change ----------

  // Two registries that hold the same on one federation.
  predicate SameAt(r: Registry, t: Registry, g: string) {
    && (g in t.federations <==> g in r.federations) && FederationAt(t, g) == FederationAt(r, g)
    && AdminsOf(t, g) == AdminsOf(r, g) && BansOf(t, g) == BansOf(r, g)
  }

  predicate SameLists(r: Registry, t: Registry, g: string) {
    ChatsOf(t, g) == ChatsOf(r, g) && SubsOf(t, g) == SubsOf(r, g)
  }

  lemma CreateElsewhere(r: Registry, federation: Federation, g: string)
    requires g != federation.id
    ensures SameAt(r, Create(r, federation), g) && SameLists(r, Create(r, federation), g)
  {
  }

  lemma RenameElsewhere(r: Registry, f: string, shortName: string, displayName: string, g: string)
    requires g != f
    ensures SameAt(r, Rename(r, f, shortName, displayName), g) && SameLists(r, Rename(r, f, shortName, displayName), g)
  {
    hide Lower, TrimSpace;
  }

  lemma SetRequireReasonElsewhere(r: Registry, f: string, required: bool, g: string)
    requires g != f
    ensures SameAt(r, SetRequireReason(r, f, required), g) && SameLists(r, SetRequireReason(r, f, required), g)
  {
  }

  lemma TransferElsewhere(r: Registry, f: string, user: int, g: string)
    requires g != f
    ensures SameAt(r, Transfer(r, f, user), g) && SameLists(r, Transfer(r, f, user), g)
  {
    hide Demoted;
  }

  lemma SetAdminElsewhere(r: Registry, f: string, user: int, enabled: bool, g: string)
    requires g != f
    ensures SameAt(r, SetAdmin(r, f, user, AdminRole, enabled), g) && SameLists(r, SetAdmin(r, f, user, AdminRole, enabled), g)
  {
  }

  lemma SetSubscriptionElsewhere(r: Registry, f: string, other: string, enabled: bool, g: string)
    requires g != f
    ensures SameAt(r, SetSubscription(r, f, other, enabled), g) && SameLists(r, SetSubscription(r, f, other, enabled), g)
  {
  }

  lemma SetBanElsewhere(r: Registry, f: string, ban: Ban, enabled: bool, g: string)
    requires g != f
    ensures SameAt(r, SetBan(r, f, ban, enabled), g) && SameLists(r, SetBan(r, f, ban, enabled), g)
  {
  }

  lemma ImportElsewhere(r: Registry, f: string, overwrite: bool, list: seq<Ban>, g: string)
    requires g != f
    ensures SameAt(r, Import(r, f, overwrite, list), g) && SameLists(r, Import(r, f, overwrite, list), g)
  {
    hide Overlay;
  }

  lemma DeleteElsewhere(r: Registry, f: string, g: string)
    requires g != f
    ensures SameAt(r, Delete(r, f), g) && ChatsOf(Delete(r, f), g) == ChatsOf(r, g)
    ensures SubsOf(Delete(r, f), g) == SubsOf(r, g) - {f}
  {
  }

  lemma JoinElsewhere(r: Registry, f: string, chat: int, g: string)
    ensures SameAt(r, JoinChat(r, f, chat), g) && SubsOf(JoinChat(r, f, chat), g) == SubsOf(r, g)
  {
    hide Without;
  }

  lemma LeaveElsewhere(r: Registry, f: string, chat: int, g: string)
    ensures SameAt(r, LeaveChat(r, f, chat), g) && SubsOf(LeaveChat(r, f, chat), g) == SubsOf(r, g)
  {
    hide Without;
  }

  lemma LinkedByChats(r: Registry, t: Registry, g: string)
    requires ChatsOf(t, g) == ChatsOf(r, g)
    ensures forall c :: Linked(t, g, c) <==> Linked(r, g, c)
  {
    assert forall c :: Linked(t, g, c) <==> c in ChatsOf(t, g);
    assert forall c :: Linked(r, g, c) <==> c in ChatsOf(r, g);
  }

  lemma CommandElsewhere(r: Registry, step: Step, g: string)
    requires g != step.f && (step.command.NewFed? ==> step.command.id == step.f)
    ensures SameAt(r, Perform(r, step), g)
    ensures !step.command.JoinFed? && !step.command.LeaveFed? ==> ChatsOf(Perform(r, step), g) == ChatsOf(r, g)
    ensures SubsOf(Perform(r, step), g) == if step.command.DelFed? then SubsOf(r, g) - {step.f} else SubsOf(r, g)
  {
    hide SameAt, SubsOf, ChatsOf, Create, Delete, Rename, SetRequireReason, Transfer, JoinChat, LeaveChat, SetAdmin, SetSubscription, SetBan, Import;
    var a, f := step.actor, step.f;
    match step.command
    case NewFed(id, shortName, displayName) => CreateElsewhere(r, Federation(id, shortName, displayName, a.user, false), g);
    case RenameFed(shortName, displayName) => RenameElsewhere(r, f, shortName, displayName, g);
    case FedReason(required) => SetRequireReasonElsewhere(r, f, required, g);
    case DelFed => DeleteElsewhere(r, f, g);
    case JoinFed(_) => JoinElsewhere(r, f, a.chat, g);
    case LeaveFed => LeaveElsewhere(r, f, a.chat, g);
    case FedPromote(_, target, enabled) => SetAdminElsewhere(r, f, target, enabled, g);
    case FedDemoteMe(_) => SetAdminElsewhere(r, f, a.user, false, g);
    case TransferFed(_, target) => TransferElsewhere(r, f, target, g);
    case SubFed(_, other, enabled) => SetSubscriptionElsewhere(r, f, other, enabled, g);
    case FBan(ban, enabled) => SetBanElsewhere(r, f, ban, enabled, g);
    case FedImport(overwrite, list) => ImportElsewhere(r, f, overwrite, list, g);
  }

  // Apart from the federation it was resolved to, a command changes nothing but this: joining
  // takes the chat out of its old federation, and deleting ends subscriptions to the deleted one.
  lemma OtherFederationsUntouched(r: Registry, step: Step, g: string)
    requires Inv(r) && Accepted(r, step) && g != step.f
    ensures SameAt(r, Perform(r, step), g)
    ensures forall c :: Linked(Perform(r, step), g, c) <==> Linked(r, g, c) && !(step.command.JoinFed? && c == step.actor.chat)
    ensures SubsOf(Perform(r, step), g) == if step.command.DelFed? then SubsOf(r, g) - {step.f} else SubsOf(r, g)
  {
    AcceptedExists(r, step);
    hide ResolvesHere, Resolves, ResolvesForTarget, FedAdmin, FedOwner;
    CommandElsewhere(r, step, g);
    hide Inv, SameAt, Accepted, SubsOf, ChatsOf, Linked;
    if step.command.JoinFed? {
      JoinMeans(r, step.f, step.actor.chat);
    } else if step.command.LeaveFed? {
      LeaveMeans(r, step.f, step.actor.chat);
    } else {
      LinkedByChats(r, Perform(r, step), g);
      hide Perform;
    }
  }

  // Only the owner of a federation, or a sudo user of the bot, changes or ends it, its list of
  // subscriptions or its list of admins; an admin may take itself off that list. Bans are
  // also changed by its admins, and a chat is moved only by its own creator.
  lemma AuthorityRespected(r: Registry, step: Step)
    requires Inv(r) && Accepted(r, step) && step.f in r.federations
    ensures var t, a, f := Perform(r, step), step.actor, step.f;
      && (f !in t.federations || t.federations[f] != r.federations[f] ==> FedOwner(r, a, f))
      && (SubsOf(t, f) != SubsOf(r, f) ==> FedOwner(r, a, f))
      && (AdminsOf(t, f) != AdminsOf(r, f) ==>
            FedOwner(r, a, f) || (AdminsOf(t, f) == AdminsOf(r, f) - {a.user} && !Owns(r, f, a.user)))
      && (BansOf(t, f) != BansOf(r, f) ==> FedAdmin(r, a, f))
      && (forall c :: Linked(t, f, c) != Linked(r, f, c) ==>
            FedOwner(r, a, f) || (c == a.chat && (a.sudo || a.chatCreator)))
  {
    hide Inv, Overlay, Without, Demoted, ResolvesHere, Resolves, ResolvesForTarget;
    if step.command.JoinFed? {
      JoinMeans(r, step.f, step.actor.chat);
      hide Linked, FedAdmin;
    } else if step.command.LeaveFed? {
      LeaveMeans(r, step.f, step.actor.chat);
      hide Linked, FedAdmin;
    } else if step.command.FBan? || step.command.FedDemoteMe? {
      hide FedAdmin;
    } else {
      assert FedOwner(r, step.actor, step.f);
      hide FedOwner, Accepted, Perform;
    }
  }

  // Joining and then leaving leaves the chat without a federation and every other chat where it was.
  lemma LeaveUndoesJoin(r: Registry, f: string, chat: int)
    ensures var t := LeaveChat(JoinChat(r, f, chat), f, chat);
      !HasFederation(t, chat) && forall g, c :: c != chat ==> (Linked(t, g, c) <==> Linked(r, g, c))
  {
    JoinMeans(r, f, chat);
    LeaveMeans(JoinChat(r, f, chat), f, chat);
    hide JoinChat, LeaveChat, Linked;
  }
}
