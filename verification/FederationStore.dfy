// The in-memory federation maps and the commands that change them. A command either is
// accepted and then does exactly its step on the registry, or changes nothing.
module FederationStore {
  import opened Text
  import opened Sorting
  import opened FederationRegistry

  class Store {
    var federations: map<string, Federation>
    var admins: map<string, map<int, Role>>
    var chats: map<string, seq<int>>
    var bans: map<string, map<int, Ban>>
    var subs: map<string, set<string>>

    function State(): Registry
      reads this
    {
      Registry(federations, admins, chats, bans, subs)
    }

    constructor ()
      ensures State() == EMPTY
    {
      federations, admins, chats, bans, subs := map[], map[], map[], map[], map[];
    }

    method CreateFederation(federation: Federation)
      modifies this
      ensures State() == Create(old(State()), federation)
    {
      federations := federations[federation.id := federation];
      if federation.id !in admins {
        admins := admins[federation.id := map[]];
      }
      admins := admins[federation.id := admins[federation.id][federation.owner := OwnerRole]];
    }

    method DeleteFederation(f: string)
      modifies this
      ensures State() == Delete(old(State()), f)
    {
      federations := federations - {f};
      admins := admins - {f};
      bans := bans - {f};
      chats := chats - {f};
      subs := subs - {f};
      DropSubscriptionsTo(f);
    }

    method DropSubscriptionsTo(f: string)
      modifies this`subs
      ensures subs == map g | g in old(subs) :: old(subs)[g] - {f}
    {
      ghost var before := subs;
      var left := subs.Keys;
      while left != {}
        invariant left <= before.Keys && subs.Keys == before.Keys
        invariant forall g :: g in left ==> subs[g] == before[g]
        invariant forall g :: g in before && g !in left ==> subs[g] == before[g] - {f}
        decreases |left|
      {
        var g :| g in left;
        subs := subs[g := subs[g] - {f}];
        left := left - {g};
      }
    }

    method RenameFederation(f: string, shortName: string, displayName: string) returns (found: bool)
      modifies this
      ensures State() == Rename(old(State()), f, shortName, displayName) && found == (f in old(federations))
    {
      hide Lower, TrimSpace;
      if f !in federations {
        return false;
      }
      var federation := federations[f];
      federation := federation.(shortName := Lower(TrimSpace(shortName)));
      federation := federation.(displayName := TrimSpace(displayName));
      federations := federations[f := federation];
      found := true;
    }

    method UpdateFederationSettings(f: string, requireReason: bool) returns (found: bool)
      modifies this
      ensures State() == SetRequireReason(old(State()), f, requireReason) && found == (f in old(federations))
    {
      if f !in federations {
        return false;
      }
      federations := federations[f := federations[f].(requireReason := requireReason)];
      found := true;
    }

    method Filter(list: seq<int>, chat: int) returns (filtered: seq<int>)
      ensures filtered == Without(list, chat)
    {
      filtered := [];
      for i := 0 to |list|
        invariant filtered == Without(list[..i], chat)
      {
        assert list[..i + 1][..i] == list[..i];
        if list[i] != chat {
          filtered := filtered + [list[i]];
        }
      }
      assert list[..|list|] == list;
    }

    method JoinFederation(f: string, chat: int)
      modifies this
      ensures State() == JoinChat(old(State()), f, chat)
    {
      DropFromAll(chat);
      chats := chats[f := (if f in chats then chats[f] else []) + [chat]];
    }

    method DropFromAll(chat: int)
      modifies this`chats
      ensures chats == map g | g in old(chats) :: Without(old(chats)[g], chat)
    {
      ghost var before := chats;
      var left := chats.Keys;
      while left != {}
        invariant left <= before.Keys && chats.Keys == before.Keys
        invariant forall g :: g in left ==> chats[g] == before[g]
        invariant forall g :: g in before && g !in left ==> chats[g] == Without(before[g], chat)
        decreases |left|
      {
        hide Without;
        var g :| g in left;
        var filtered := Filter(chats[g], chat);
        chats := chats[g := filtered];
        left := left - {g};
      }
    }

    method LeaveFederation(f: string, chat: int)
      modifies this
      ensures State() == LeaveChat(old(State()), f, chat)
    {
      var filtered := Filter(if f in chats then chats[f] else [], chat);
      chats := chats[f := filtered];
    }

    method SetFederationAdmin(f: string, user: int, role: Role, enabled: bool)
      modifies this
      ensures State() == SetAdmin(old(State()), f, user, role, enabled)
    {
      if f !in admins {
        admins := admins[f := map[]];
      }
      if enabled {
        admins := admins[f := admins[f][user := role]];
      } else {
        admins := admins[f := admins[f] - {user}];
      }
    }

    // Entries with the role of an owner become entries of admins.
    method DemoteOwners(list: map<int, Role>) returns (demoted: map<int, Role>)
      ensures demoted == Demoted(list)
    {
      demoted := list;
      var left := list.Keys;
      while left != {}
        invariant left <= list.Keys && demoted.Keys == list.Keys
        invariant forall u :: u in list && u !in left ==> demoted[u] == AdminRole
        decreases |left|
      {
        SomeMember(left);
        var u :| u in left;
        if demoted[u] == OwnerRole {
          demoted := demoted[u := AdminRole];
        }
        left := left - {u};
      }
      assert Demoted(list).Keys == list.Keys;
      assert forall u :: u in list ==> demoted[u] == Demoted(list)[u];
    }

    method TransferFederation(f: string, user: int)
      modifies this
      ensures State() == Transfer(old(State()), f, user)
    {
      federations := federations[f := (if f in federations then federations[f] else ZERO).(owner := user)];
      var demoted := DemoteOwners(if f in admins then admins[f] else map[]);
      admins := admins[f := demoted[user := OwnerRole]];
    }

    method SetFederationSubscription(f: string, g: string, enabled: bool) returns (ok: bool)
      modifies this
      ensures State() == SetSubscription(old(State()), f, g, enabled) && ok == (f != g)
    {
      if f == g {
        return false;
      }
      if f !in subs {
        subs := subs[f := {}];
      }
      subs := subs[f := if enabled then subs[f] + {g} else subs[f] - {g}];
      ok := true;
    }

    method SetFederationBan(f: string, ban: Ban, enabled: bool)
      modifies this
      ensures State() == SetBan(old(State()), f, ban, enabled)
    {
      if f !in bans {
        bans := bans[f := map[]];
      }
      bans := bans[f := if enabled then bans[f][ban.userId := ban] else bans[f] - {ban.userId}];
    }

    method GetFederationOwnedByUser(user: int) returns (owned: Option<string>)
      ensures match owned
        case None => forall f :: !Owns(State(), f, user)
        case Some(f) => Owns(State(), f, user)
    {
      var left := federations.Keys;
      while left != {}
        invariant left <= federations.Keys
        invariant forall f :: f in federations && f !in left ==> federations[f].owner != user
        decreases |left|
      {
        var f :| f in left;
        if federations[f].owner == user {
          return Some(f);
        }
        left := left - {f};
      }
      owned := None;
    }

    method GetFederationByChat(chat: int) returns (found: Option<string>)
      ensures match found
        case None => !HasFederation(State(), chat)
        case Some(f) => Linked(State(), f, chat)
    {
      var left := chats.Keys;
      while left != {}
        invariant left <= chats.Keys
        invariant forall f :: f in chats && f !in left ==> chat !in chats[f]
        decreases |left|
      {
        var f :| f in left;
        if chat in chats[f] {
          return Some(f);
        }
        left := left - {f};
      }
      found := None;
    }

    // A federation without a reference: the chat's, or else the sender's own.
    method ResolveHere(a: Actor) returns (found: Option<string>)
      requires Inv(State())
      ensures match found
        case None => forall f :: !ResolvesHere(State(), a, f)
        case Some(f) => ResolvesHere(State(), a, f) && forall g :: ResolvesHere(State(), a, g) ==> g == f
    {
      found := GetFederationByChat(a.chat);
      if found == None {
        found := GetFederationOwnedByUser(a.user);
      }
    }

    // Every ban once, by ascending user id.
    method ListFederationBans(f: string) returns (list: seq<Ban>)
      ensures Keyed(BansOf(State(), f)) ==> forall i, j :: 0 <= i < j < |list| ==> list[i].userId < list[j].userId
      ensures |list| == |BansOf(State(), f)|
      ensures forall u :: u in BansOf(State(), f) ==> BansOf(State(), f)[u] in list
      ensures forall i :: 0 <= i < |list| ==> exists u :: u in BansOf(State(), f) && BansOf(State(), f)[u] == list[i]
    {
      var of := BansOf(State(), f);
      var ids := SortIds(of.Keys);
      list := [];
      for i := 0 to |ids|
        invariant |list| == i
        invariant forall k :: 0 <= k < i ==> ids[k] in of && list[k] == of[ids[k]]
      {
        assert ids[i] in ids;
        list := list + [of[ids[i]]];
      }
      forall u | u in of ensures of[u] in list {
        assert u in ids;
        var i :| 0 <= i < |ids| && ids[i] == u;
        assert list[i] == of[u];
      }
    }

    // The federations listened to, by short name.
    method ListFederationSubscriptions(f: string) returns (list: seq<string>)
      ensures forall g :: g in list <==> ListensTo(State(), f, g)
      ensures SortedByName(State(), list)
    {
      var of := SubsOf(State(), f);
      var left := set g | g in of && g in federations;
      list := [];
      while left != {}
        invariant left <= federations.Keys
        invariant forall g :: g in of && g in federations <==> g in left || g in list
        invariant forall i :: 0 <= i < |list| ==> list[i] !in left
        invariant SortedByName(State(), list)
        invariant forall i, g :: 0 <= i < |list| && g in left ==> NameBefore(State(), list[i], g)
        decreases |left|
      {
        var first := FirstByName(left);
        list := list + [first];
        left := left - {first};
      }
    }

    method FirstByName(ids: set<string>) returns (first: string)
      requires ids != {} && ids <= federations.Keys
      ensures first in ids && forall g :: g in ids ==> NameBefore(State(), first, g)
    {
      first :| first in ids;
      var left := ids - {first};
      LeqTotal(federations[first].shortName, federations[first].shortName);
      while left != {}
        invariant left <= ids && first in ids
        invariant forall g :: g in ids && g !in left ==> NameBefore(State(), first, g)
        decreases |left|
      {
        var g :| g in left;
        LeqTotal(federations[first].shortName, federations[g].shortName);
        hide Leq;
        if !Leq(federations[first].shortName, federations[g].shortName) {
          forall h | h in ids && h !in left ensures NameBefore(State(), g, h) {
            LeqTransitive(federations[g].shortName, federations[first].shortName, federations[h].shortName);
          }
          LeqTotal(federations[g].shortName, federations[g].shortName);
          first := g;
        }
        left := left - {g};
      }
    }
  }

  // ---------- Commands ----------

  ghost predicate DoneOrNothing(before: Registry, after: Registry, step: Step, done: bool) {
    && (done ==> Accepted(before, step) && after == Perform(before, step))
    && (!done ==> after == before)
  }

  // `id` is the random id drawn for the federation.
  method NewFed(store: Store, a: Actor, id: string, shortName: string, displayName: string) returns (done: bool)
    requires id !in store.federations
    modifies store
    ensures DoneOrNothing(old(store.State()), store.State(), Step(a, Command.NewFed(id, shortName, displayName), id), done)
    ensures done <==> forall g :: !Owns(old(store.State()), g, a.user)
  {
    var owned := store.GetFederationOwnedByUser(a.user);
    if owned.Some? {
      return false;
    }
    store.CreateFederation(Federation(id, shortName, displayName, a.user, false));
    done := true;
  }

  // `f` is the federation that the command was resolved to.
  method TransferCommand(store: Store, a: Actor, reference: string, f: string, target: int) returns (done: bool)
    requires Inv(store.State()) && ResolvesForTarget(store.State(), a, reference, f)
    modifies store
    ensures DoneOrNothing(old(store.State()), store.State(), Step(a, TransferFed(reference, target), f), done)
    ensures done <==> Accepted(old(store.State()), Step(a, TransferFed(reference, target), f))
  {
    hide Inv, ResolvesForTarget;
    if !a.sudo && FederationAt(store.State(), f).owner != a.user {
      return false;
    }
    OwnersOnce(store.State());
    var owned := store.GetFederationOwnedByUser(target);
    if owned.Some? && owned.value != f {
      return false;
    }
    store.TransferFederation(f, target);
    done := true;
  }

  lemma OwnersOnce(r: Registry)
    requires Inv(r)
    ensures forall f, g, u :: Owns(r, f, u) && Owns(r, g, u) ==> f == g
  {
  }

  method PromoteCommand(store: Store, a: Actor, reference: string, f: string, target: int, enabled: bool) returns (done: bool)
    requires ResolvesForTarget(store.State(), a, reference, f)
    modifies store
    ensures DoneOrNothing(old(store.State()), store.State(), Step(a, FedPromote(reference, target, enabled), f), done)
    ensures done <==> FedOwner(old(store.State()), a, f)
  {
    hide ResolvesForTarget;
    if !a.sudo && FederationAt(store.State(), f).owner != a.user {
      return false;
    }
    store.SetFederationAdmin(f, target, AdminRole, enabled);
    done := true;
  }

  method DemoteMeCommand(store: Store, a: Actor, reference: string, f: string) returns (done: bool)
    requires Resolves(store.State(), a, reference, f)
    modifies store
    ensures DoneOrNothing(old(store.State()), store.State(), Step(a, FedDemoteMe(reference), f), done)
    ensures done <==> FederationAt(old(store.State()), f).owner != a.user
  {
    hide Resolves;
    if FederationAt(store.State(), f).owner == a.user {
      return false;
    }
    store.SetFederationAdmin(f, a.user, AdminRole, false);
    done := true;
  }

  // A list of bans that has been read from an export.
  method ImportCommand(store: Store, a: Actor, f: string, overwrite: bool, list: seq<Ban>) returns (done: bool)
    requires Inv(store.State()) && ResolvesHere(store.State(), a, f)
    modifies store
    ensures DoneOrNothing(old(store.State()), store.State(), Step(a, FedImport(overwrite, list), f), done)
    ensures done <==> FedOwner(old(store.State()), a, f) && |list| <= IMPORT_LIMIT
  {
    hide ResolvesHere, Resolves, Inv;
    if !a.sudo && FederationAt(store.State(), f).owner != a.user {
      return false;
    }
    if |list| > IMPORT_LIMIT {
      return false;
    }
    BansKeyed(store.State(), f);
    if overwrite {
      ClearBans(store, f);
    }
    AddBans(store, f, list);
    done := true;
  }

  method ClearBans(store: Store, f: string)
    requires Keyed(BansOf(store.State(), f))
    modifies store
    ensures store.State() == if BansOf(old(store.State()), f) == map[] then old(store.State())
                             else old(store.State()).(bans := old(store.bans)[f := map[]])
  {
    var existing := store.ListFederationBans(f);
    ghost var before := BansOf(store.State(), f);
    for i := 0 to |existing|
      invariant store.State() == if i == 0 then old(store.State()) else old(store.State()).(bans := old(store.bans)[f := BansOf(store.State(), f)])
      invariant BansOf(store.State(), f).Keys <= before.Keys
      invariant forall k :: 0 <= k < i ==> existing[k].userId !in BansOf(store.State(), f)
    {
      store.SetFederationBan(f, existing[i], false);
    }
    forall u | u in before ensures u !in BansOf(store.State(), f) {
      assert before[u] in existing;
      var k :| 0 <= k < |existing| && existing[k] == before[u];
    }
    assert BansOf(store.State(), f) == map[];
  }

  method AddBans(store: Store, f: string, list: seq<Ban>)
    modifies store
    ensures store.State() == if list == [] then old(store.State())
                             else old(store.State()).(bans := old(store.bans)[f := Overlay(BansOf(old(store.State()), f), list)])
  {
    for i := 0 to |list|
      invariant store.State() == if i == 0 then old(store.State())
        else old(store.State()).(bans := old(store.bans)[f := Overlay(BansOf(old(store.State()), f), list[..i])])
    {
      assert list[..i + 1][..i] == list[..i];
      store.SetFederationBan(f, list[i], true);
    }
    assert list[..|list|] == list;
  }

  // ---------- Who is banned ----------

  // The federations whose bans count in f, apart from its own.
  predicate ListensTo(r: Registry, f: string, g: string) {
    g in SubsOf(r, f) && g in r.federations
  }

  predicate NameBefore(r: Registry, g: string, h: string) {
    Leq(FederationAt(r, g).shortName, FederationAt(r, h).shortName)
  }

  predicate SortedByName(r: Registry, list: seq<string>) {
    forall i, j :: 0 <= i < j < |list| ==> list[i] != list[j] && NameBefore(r, list[i], list[j])
  }

  // A user is banned in a federation iff it or a federation it listens to bans them. Its own
  // ban comes first, then that of the listened-to federation with the first short name.
  method EffectiveFederationBan(store: Store, f: string, user: int) returns (source: Option<string>, ban: Option<Ban>)
    ensures source.Some? <==> (user in BansOf(store.State(), f) || exists g :: ListensTo(store.State(), f, g) && user in BansOf(store.State(), g))
    ensures source.Some? ==> user in BansOf(store.State(), source.value) && ban == Some(BansOf(store.State(), source.value)[user])
    ensures source.None? ==> ban.None?
    ensures user in BansOf(store.State(), f) ==> source == Some(f)
    ensures source.Some? && source.value != f ==> ListensTo(store.State(), f, source.value)
    ensures source.Some? && source.value != f ==> forall g :: ListensTo(store.State(), f, g) && user in BansOf(store.State(), g) ==> NameBefore(store.State(), source.value, g)
  {
    hide Leq;
    if user in BansOf(store.State(), f) {
      return Some(f), Some(BansOf(store.State(), f)[user]);
    }
    var list := store.ListFederationSubscriptions(f);
    for i := 0 to |list|
      invariant forall k :: 0 <= k < i ==> user !in BansOf(store.State(), list[k])
    {
      if user in BansOf(store.State(), list[i]) {
        LeqTotal(FederationAt(store.State(), list[i]).shortName, FederationAt(store.State(), list[i]).shortName);
        return Some(list[i]), Some(BansOf(store.State(), list[i])[user]);
      }
    }
    source, ban := None, None;
  }

  // After an import every user of the list has the ban of their last entry.
  lemma {:induction false} OverlayLastWins(bans: map<int, Ban>, list: seq<Ban>, i: nat)
    requires i < |list| && forall j :: i < j < |list| ==> list[j].userId != list[i].userId
    ensures list[i].userId in Overlay(bans, list) && Overlay(bans, list)[list[i].userId] == list[i]
  {
    if i < |list| - 1 {
      OverlayLastWins(bans, list[..|list| - 1], i);
    }
  }

  // Everybody else has the ban they had before, if any.
  lemma {:induction false} OverlayKeepsOthers(bans: map<int, Ban>, list: seq<Ban>, user: int)
    requires forall i :: 0 <= i < |list| ==> list[i].userId != user
    ensures user in Overlay(bans, list) <==> user in bans
    ensures user in bans ==> Overlay(bans, list)[user] == bans[user]
  {
    if list != [] {
      OverlayKeepsOthers(bans, list[..|list| - 1], user);
    }
  }

  // An import gives every user of the list their last entry. Everybody else keeps the ban they
  // had, or loses it when the list is to replace the bans.
  lemma ImportMeans(r: Registry, f: string, overwrite: bool, list: seq<Ban>)
    ensures var t := Import(r, f, overwrite, list);
      && (forall i :: 0 <= i < |list| && (forall j :: i < j < |list| ==> list[j].userId != list[i].userId) ==>
            list[i].userId in BansOf(t, f) && BansOf(t, f)[list[i].userId] == list[i])
      && (forall u :: (forall i :: 0 <= i < |list| ==> list[i].userId != u) ==>
            (u in BansOf(t, f) <==> !overwrite && u in BansOf(r, f)) && (u in BansOf(t, f) ==> BansOf(t, f)[u] == BansOf(r, f)[u]))
  {
    var t := Import(r, f, overwrite, list);
    var before := if overwrite then map[] else BansOf(r, f);
    assert BansOf(t, f) == Overlay(before, list);
    hide Import, Overlay;
    forall i | 0 <= i < |list| && (forall j :: i < j < |list| ==> list[j].userId != list[i].userId)
      ensures list[i].userId in BansOf(t, f) && BansOf(t, f)[list[i].userId] == list[i]
    {
      OverlayLastWins(before, list, i);
    }
    forall u | forall i :: 0 <= i < |list| ==> list[i].userId != u
      ensures (u in BansOf(t, f) <==> u in before) && (u in BansOf(t, f) ==> BansOf(t, f)[u] == before[u])
    {
      OverlayKeepsOthers(before, list, u);
    }
  }
}
