// What federation commands do and who may send them, in terms of the records and lists.
module FederationEffects {
  import opened Text
  import opened FederationRegistry

  // ---------- Effects ----------

  // Everybody but one user has the entry they had.
  predicate SameButOne(before: map<int, Role>, after: map<int, Role>, user: int) {
    && (forall u :: u in before && u != user ==> u in after && after[u] == before[u])
    && (forall u :: u in after && u != user ==> u in before)
  }

  // A new federation belongs to its founder, asks for no reasons and has nobody else on its list.
  lemma CreationMeans(r: Registry, step: Step)
    requires Inv(r) && Accepted(r, step) && step.command.NewFed?
    ensures var t, f := Perform(r, step), step.f;
      && f !in r.federations && t.federations.Keys == r.federations.Keys + {f}
      && t.federations[f].owner == step.actor.user && !t.federations[f].requireReason
      && t.federations[f].shortName == step.command.shortName && t.federations[f].displayName == step.command.displayName
      && AdminsOf(t, f) == map[step.actor.user := OwnerRole] && BansOf(t, f) == map[] && SubsOf(t, f) == {}
  {
    hide Resolves, ResolvesForTarget;
  }

  // A deleted federation leaves no record, no list and no subscription behind.
  lemma DeletionMeans(r: Registry, step: Step)
    requires Inv(r) && Accepted(r, step) && step.command.DelFed?
    ensures var t, f := Perform(r, step), step.f;
      && t.federations.Keys == r.federations.Keys - {f}
      && AdminsOf(t, f) == map[] && BansOf(t, f) == map[] && SubsOf(t, f) == {}
      && (forall c :: !Linked(t, f, c)) && (forall g :: f !in SubsOf(t, g))
  {
    hide Resolves, ResolvesForTarget, ChatsOk, OwnersOk, AdminsOk, BansOk;
  }

  // Renaming changes the names only, without blanks around them and the short one in lower
  // case; the ban rule changes that rule only.
  lemma RecordCommandsMean(r: Registry, step: Step)
    requires Inv(r) && Accepted(r, step)
    ensures var t, f := Perform(r, step), step.f;
      && (step.command.RenameFed? ==>
            && f in t.federations && Trimmed(t.federations[f].displayName) && Trimmed(t.federations[f].shortName)
            && (Trimmed(step.command.displayName) ==> t.federations[f].displayName == step.command.displayName)
            && (Trimmed(step.command.shortName) ==> t.federations[f].shortName == Lower(step.command.shortName))
            && t.federations[f].owner == r.federations[f].owner && t.federations[f].requireReason == r.federations[f].requireReason)
      && (step.command.FedReason? ==> f in t.federations && t.federations[f] == r.federations[f].(requireReason := step.command.required))
  {
    AcceptedExists(r, step);
    hide Inv, Accepted, TrimSpace;
    if step.command.RenameFed? {
      NameTrimmed(step.command.displayName);
      NameTrimmed(step.command.shortName);
    }
  }

  lemma NameTrimmed(name: string)
    ensures Trimmed(TrimSpace(name)) && Trimmed(Lower(TrimSpace(name)))
    ensures Trimmed(name) ==> TrimSpace(name) == name
  {
    if Trimmed(name) {
      TrimSpaceTrimmed(name);
    }
    hide TrimSpace;
  }

  // Promoting lists the target as an admin, demoting takes them off the list; demoting
  // oneself takes oneself off. Nobody else's entry changes.
  lemma AdminCommandsMean(r: Registry, step: Step)
    requires Inv(r) && Accepted(r, step) && (step.command.FedPromote? || step.command.FedDemoteMe?)
    ensures var t, f := Perform(r, step), step.f;
      var user := if step.command.FedPromote? then step.command.target else step.actor.user;
      var listed := step.command.FedPromote? && step.command.enabled;
      && SameButOne(AdminsOf(r, f), AdminsOf(t, f), user) && (user in AdminsOf(t, f) <==> listed)
      && (listed ==> AdminsOf(t, f)[user] == AdminRole)
  {
    hide Inv, Accepted;
  }

  // A transfer changes the owner and nothing else in the record; the new owner is listed as
  // owner and whoever was, as an admin.
  lemma TransferMeans(r: Registry, step: Step)
    requires Inv(r) && Accepted(r, step) && step.command.TransferFed?
    ensures var t, f, target := Perform(r, step), step.f, step.command.target;
      && f in t.federations && t.federations[f] == r.federations[f].(owner := target)
      && AdminsOf(t, f).Keys == AdminsOf(r, f).Keys + {target} && AdminsOf(t, f)[target] == OwnerRole
      && forall u :: u in AdminsOf(r, f) && u != target ==> AdminsOf(t, f)[u] == AdminRole
  {
    AcceptedExists(r, step);
    hide Inv, Accepted;
  }

  // Subscribing adds one federation to the list, unsubscribing takes it off.
  lemma SubscriptionMeans(r: Registry, step: Step)
    requires Inv(r) && Accepted(r, step) && step.command.SubFed?
    ensures var t, f, g := Perform(r, step), step.f, step.command.g;
      && (g in SubsOf(t, f) <==> step.command.enabled)
      && forall h :: h != g ==> (h in SubsOf(t, f) <==> h in SubsOf(r, f))
  {
    hide Inv, Resolves;
  }

  // A ban stands under the user it bans until it is lifted.
  lemma BanMeans(r: Registry, step: Step)
    requires Inv(r) && Accepted(r, step) && step.command.FBan?
    ensures var t, f, ban := Perform(r, step), step.f, step.command.ban;
      && (ban.userId in BansOf(t, f) <==> step.command.enabled)
      && (step.command.enabled ==> BansOf(t, f)[ban.userId] == ban && ban.bannedBy == step.actor.user)
      && forall u :: u != ban.userId ==>
           (u in BansOf(t, f) <==> u in BansOf(r, f)) && (u in BansOf(t, f) ==> BansOf(t, f)[u] == BansOf(r, f)[u])
  {
    hide Inv, Resolves, ResolvesHere;
  }

  // ---------- Lists of chats ----------

  lemma {:induction false} WithoutParts(before: seq<int>, after: seq<int>, chat: int)
    ensures Without(before + after, chat) == Without(before, chat) + Without(after, chat)
    decreases |after|
  {
    if after == [] {
      assert before + after == before;
    } else {
      var front, last := after[..|after| - 1], after[|after| - 1];
      WithoutParts(before, front, chat);
      assert (before + after)[..|before + after| - 1] == before + front && (before + after)[|before + after| - 1] == last;
    }
  }

  lemma WithoutOne(before: seq<int>, chat: int, after: seq<int>)
    requires chat !in before && chat !in after
    ensures Without(before + [chat] + after, chat) == before + after
  {
    WithoutParts(before + [chat], after, chat);
    WithoutParts(before, [chat], chat);
    WithoutMeans(before, chat);
    WithoutMeans(after, chat);
    assert [chat][..0] == [];
  }

  // A chat that joins comes last and a chat that leaves is taken out of its place; the others
  // keep their order.
  lemma ChatListsMean(r: Registry, f: string, chat: int, before: seq<int>, after: seq<int>)
    requires chat !in before && chat !in after
    ensures ChatsOf(r, f) == before + [chat] + after ==>
      ChatsOf(LeaveChat(r, f, chat), f) == before + after && ChatsOf(JoinChat(r, f, chat), f) == before + after + [chat]
    ensures ChatsOf(r, f) == before ==>
      ChatsOf(LeaveChat(r, f, chat), f) == before && ChatsOf(JoinChat(r, f, chat), f) == before + [chat]
    ensures forall g :: g != f && ChatsOf(r, g) == before + [chat] + after ==> ChatsOf(JoinChat(r, f, chat), g) == before + after
    ensures forall g :: g != f && ChatsOf(r, g) == before ==> ChatsOf(JoinChat(r, f, chat), g) == before
  {
    WithoutOne(before, chat, after);
    WithoutMeans(before, chat);
    hide Without;
  }

  // ---------- Rights ----------

  predicate IsOwner(r: Registry, a: Actor, f: string) {
    f in r.federations && (a.sudo || r.federations[f].owner == a.user)
  }

  predicate IsAdmin(r: Registry, a: Actor, f: string) {
    IsOwner(r, a, f) || (f in r.federations && f in r.admins && a.user in r.admins[f])
  }

  // Nothing happens without the right to it. The record, the subscriptions and the list of
  // admins take the owner, but for taking oneself off that list; bans take an admin who may
  // restrict members, or the owner for an import; a chat joins and leaves by its creator, and
  // joins only where the creator is an admin.
  lemma NothingWithoutRights(r: Registry, step: Step)
    requires Inv(r) && Accepted(r, step) && step.f in r.federations
    ensures var t, a, f := Perform(r, step), step.actor, step.f;
      && (f !in t.federations || t.federations[f] != r.federations[f] ==> IsOwner(r, a, f))
      && (SubsOf(t, f) != SubsOf(r, f) ==> IsOwner(r, a, f))
      && (AdminsOf(t, f) != AdminsOf(r, f) ==>
            IsOwner(r, a, f) || (a.user !in AdminsOf(t, f) && r.federations[f].owner != a.user && SameButOne(AdminsOf(r, f), AdminsOf(t, f), a.user)))
      && (BansOf(t, f) != BansOf(r, f) ==> IsOwner(r, a, f) || (IsAdmin(r, a, f) && a.canRestrict))
      && (forall c :: Linked(t, f, c) && !Linked(r, f, c) ==> c == a.chat && (a.sudo || a.chatCreator) && IsAdmin(r, a, f))
      && (forall c :: Linked(r, f, c) && !Linked(t, f, c) ==> IsOwner(r, a, f) || (c == a.chat && (a.sudo || a.chatCreator)))
  {
    RightsByCommand(r, step);
    AuthorityRespected(r, step);
    OnlyBansByBanning(r, step);
    OnlyLinksByJoining(r, step);
    if step.command.FedDemoteMe? {
      AdminCommandsMean(r, step);
    }
    hide Inv, Accepted, Perform, FedOwner, FedAdmin, IsOwner, IsAdmin, Linked, SameButOne;
  }

  lemma OnlyBansByBanning(r: Registry, step: Step)
    ensures step.command.JoinFed? || step.command.LeaveFed? || step.command.FedDemoteMe? ==>
      BansOf(Perform(r, step), step.f) == BansOf(r, step.f)
  {
    hide Overlay, Without, Demoted, TrimSpace, Lower;
  }

  lemma OnlyLinksByJoining(r: Registry, step: Step)
    ensures forall c :: Linked(Perform(r, step), step.f, c) && !Linked(r, step.f, c) ==> step.command.JoinFed? && c == step.actor.chat
    ensures step.command.FedDemoteMe? || step.command.FBan? ==> forall c :: Linked(Perform(r, step), step.f, c) <==> Linked(r, step.f, c)
  {
    JoinMeans(r, step.f, step.actor.chat);
    LeaveMeans(r, step.f, step.actor.chat);
    hide Overlay, Without, Demoted, TrimSpace, Lower, JoinChat, LeaveChat;
  }

  lemma RightsByCommand(r: Registry, step: Step)
    requires Inv(r) && Accepted(r, step) && step.f in r.federations
    ensures FedOwner(r, step.actor, step.f) ==> IsOwner(r, step.actor, step.f)
    ensures FedAdmin(r, step.actor, step.f) ==> IsAdmin(r, step.actor, step.f)
    ensures step.command.FBan? ==> step.actor.canRestrict && FedAdmin(r, step.actor, step.f)
    ensures step.command.JoinFed? ==> FedAdmin(r, step.actor, step.f) && (step.actor.sudo || step.actor.chatCreator)
    ensures step.command.LeaveFed? ==> step.actor.sudo || step.actor.chatCreator
    ensures step.command.FedDemoteMe? ==> r.federations[step.f].owner != step.actor.user
    ensures !(step.command.FBan? || step.command.JoinFed? || step.command.LeaveFed? || step.command.FedDemoteMe?) ==>
      FedOwner(r, step.actor, step.f)
  {
    hide Inv, Resolves, ResolvesHere, ResolvesForTarget;
  }

  // Where a ban needs a reason none is set without one, and no import is longer than a hundred.
  lemma BanRules(r: Registry, step: Step)
    requires Inv(r) && Accepted(r, step)
    ensures step.command.FBan? && step.command.enabled && step.f in r.federations && r.federations[step.f].requireReason ==>
      exists i :: 0 <= i < |step.command.ban.reason| && !IsSpace(step.command.ban.reason[i])
    ensures step.command.FedImport? ==> |step.command.list| <= 100
  {
    hide Inv, Resolves, ResolvesHere, ResolvesForTarget;
  }

  // The chat stands for the federation: it is linked to it, or to none and is the owner's.
  ghost predicate InPlace(r: Registry, a: Actor, f: string) {
    Linked(r, f, a.chat) || (!HasFederation(r, a.chat) && f in r.federations && r.federations[f].owner == a.user)
  }

  // And who has the right may. The owner of a federation: everything that changes its record,
  // its subscriptions and its list of admins, and imports.
  lemma OwnerMay(r: Registry, a: Actor, f: string, command: Command)
    requires Inv(r) && IsOwner(r, a, f) && InPlace(r, a, f)
    requires match command
      case RenameFed(_, _) => true
      case DelFed => true
      case FedReason(_) => true
      case FedPromote(reference, _, _) => Resolves(r, a, reference, f)
      case TransferFed(reference, target) => Resolves(r, a, reference, f) && forall g :: Owns(r, g, target) ==> g == f
      case SubFed(other, g, _) => Resolves(r, a, other, g) && g != f
      case FedImport(_, list) => |list| <= 100
      case _ => false
    ensures Accepted(r, Step(a, command, f))
  {
    hide TrimSpace, Lower, ChatsOk, OwnersOk, AdminsOk, BansOk, NoLeftovers;
  }

  // An admin who may restrict members: bans, with a reason where one is asked for.
  lemma AdminMay(r: Registry, a: Actor, f: string, ban: Ban, enabled: bool)
    requires Inv(r) && IsAdmin(r, a, f) && InPlace(r, a, f) && a.canRestrict && ban.bannedBy == a.user
    requires !r.federations[f].requireReason || !enabled || !Blank(ban.reason)
    ensures Accepted(r, Step(a, FBan(ban, enabled), f))
  {
    hide TrimSpace, Lower, ChatsOk, OwnersOk, AdminsOk, BansOk, NoLeftovers;
  }

  // A chat's creator: leaving, and joining where the creator is an admin.
  lemma CreatorMay(r: Registry, a: Actor, f: string, reference: string)
    requires Inv(r) && (a.sudo || a.chatCreator)
    ensures InPlace(r, a, f) ==> Accepted(r, Step(a, LeaveFed, f))
    ensures IsAdmin(r, a, f) && Resolves(r, a, reference, f) ==> Accepted(r, Step(a, JoinFed(reference), f))
  {
    hide TrimSpace, Lower, ChatsOk, OwnersOk, AdminsOk, BansOk, NoLeftovers;
  }

  // ---------- References ----------

  // A reference without its outer blanks is an id if there is a federation under it, and
  // otherwise a short name whose letter case does not matter.
  lemma ReferenceMeans(r: Registry, a: Actor, before: string, name: string, after: string, f: string)
    requires Blank(before) && Blank(after) && Trimmed(name)
    ensures name == "" ==> (Resolves(r, a, before + name + after, f) <==> ResolvesHere(r, a, f))
    ensures name in r.federations && name != "" ==> (Resolves(r, a, before + name + after, f) <==> f == name)
    ensures name !in r.federations && name != "" ==>
      (Resolves(r, a, before + name + after, f) <==> f in r.federations && SameLetters(r.federations[f].shortName, name))
  {
    TrimSpaceCore(before, name, after);
    hide TrimSpace;
    if f in r.federations {
      LowerForgetsCase(r.federations[f].shortName, name);
    }
    hide Lower;
  }

  // A command with a target user goes to the chat's federation whatever the reference says;
  // only in a chat without one the reference counts.
  lemma TargetReferenceMeans(r: Registry, a: Actor, reference: string, f: string, g: string)
    requires Inv(r) && ResolvesForTarget(r, a, reference, f)
    ensures Linked(r, g, a.chat) ==> f == g
    ensures !Linked(r, f, a.chat) ==> Resolves(r, a, reference, f) && forall h :: !Linked(r, h, a.chat)
  {
    hide Resolves, OwnersOk, AdminsOk, BansOk, NoLeftovers;
  }

  // Without one it is the chat's own federation, or else the one the sender owns.
  lemma NoReferenceMeans(r: Registry, a: Actor, f: string)
    ensures ResolvesHere(r, a, f) <==>
      (f in r.chats && a.chat in r.chats[f])
      || ((forall g :: g in r.chats ==> a.chat !in r.chats[g]) && f in r.federations && r.federations[f].owner == a.user)
  {
    assert HasFederation(r, a.chat) <==> exists g :: g in r.chats && a.chat in r.chats[g] by {
      if g :| g in r.chats && a.chat in r.chats[g] {
        assert Linked(r, g, a.chat);
      }
    }
  }
}
