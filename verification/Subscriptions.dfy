/** The notification types controllers have asked for, which count only as far
    as a grant reaches. */
module Subscriptions {
  import opened Wrappers
  import opened Keys
  import opened Limit
  import opened Events
  import opened Profile
  import opened Grants
  import opened Codecs

  datatype SubscriptionRejected =
    | WrongSubscriptionTarget
    | NotForThisNode
    | UnparseableTypes
    | Undecryptable
    | NoGrant
    | SupersededSubscription
    | WrongSubscriptionKind

  datatype Wanted = Wanted(types: seq<string>, createdAt: u64)

  /** Kind, `d` and `p` name this node's subscriptions. */
  predicate WellAddressed(node: PublicKey, e: Event) {
    e.kind == 30199 &&
    FirstValue(e.tags, "d") == Some(ToHex(node)) &&
    HasTag(e, "p", ToHex(node))
  }

  /** The list an event asks for, if it can be decrypted and parsed. */
  function TypesOf(codec: Codec, e: Event): Result<seq<string>, SubscriptionRejected> {
    match codec.decrypt(e.pubkey, e.content)
    case None => Failure(Undecryptable)
    case Some(plaintext) =>
      match codec.types(plaintext)
      case None => Failure(UnparseableTypes)
      case Some(types) => Success(types)
  }

  datatype SubStore = SubStore(node: Option<PublicKey>, byController: map<string, Wanted>) {
    function Address(e: Event): Option<SubscriptionRejected> {
      if node.None? then Some(WrongSubscriptionTarget)
      else if e.kind != SUBSCRIPTION_KIND then Some(WrongSubscriptionKind)
      else if FirstValue(e.tags, "d") != Some(ToHex(node.value)) then Some(WrongSubscriptionTarget)
      else if !HasTag(e, "p", ToHex(node.value)) then Some(NotForThisNode)
      else None
    }

    predicate Supersedes(controller: string, createdAt: u64) {
      controller in byController && createdAt < byController[controller].createdAt
    }

    function Set(controller: string, types: seq<string>, createdAt: u64): SubStore {
      if types == [] then this.(byController := byController - {controller})
      else this.(byController := byController[controller := Wanted(types, createdAt)])
    }

    function Apply(codec: Codec, grants: GrantStore, e: Event): (SubStore, Result<nat, SubscriptionRejected>) {
      if Address(e).Some? then (this, Failure(Address(e).value))
      else if grants.Resolve(e.pubkey).Failure? then (this, Failure(NoGrant))
      else
        match TypesOf(codec, e)
        case Failure(why) => (this, Failure(why))
        case Success(types) =>
          if Supersedes(ToHex(e.pubkey), e.createdAt) then (this, Failure(SupersededSubscription))
          else (Set(ToHex(e.pubkey), types, e.createdAt), Success(|types|))
    }

    /** Its list has the type and the grant it resolves to allows it. */
    predicate ShouldReceive(controller: PublicKey, name: string, grants: GrantStore) {
      ToHex(controller) in byController &&
      name in byController[ToHex(controller)].types &&
      grants.Resolve(controller).Success? &&
      grants.Resolve(controller).value.profile.AllowsNotification(name)
    }

    /** Controllers are filed under their canonical text, never with an empty list. */
    ghost predicate Tidy() {
      forall c :: c in byController ==> IsCanonical(c) && byController[c].types != []
    }
  }

  const NO_SUBSCRIPTIONS: map<string, Wanted> := map[]

  function NoSubscriptions(node: PublicKey): SubStore {
    SubStore(Some(node), NO_SUBSCRIPTIONS)
  }

  lemma ApplyTidy(codec: Codec, s: SubStore, grants: GrantStore, e: Event)
    requires s.Tidy()
    ensures s.Apply(codec, grants, e).0.Tidy()
  {
  }

  predicate NoDuplicates<T(==)>(xs: seq<T>) {
    forall i, j :: 0 <= i < j < |xs| ==> xs[i] != xs[j]
  }

  /** The subscriptions a running service holds. */
  class Subscriptions {
    const node: Option<PublicKey>
    var byController: map<string, Wanted>

    ghost function View(): SubStore
      reads this
    {
      SubStore(node, byController)
    }

    constructor (node: PublicKey)
      ensures View() == NoSubscriptions(node)
    {
      this.node := Some(node);
      byController := map[];
    }

    /** The grant is looked up before anything is decrypted. */
    method Apply(codec: Codec, grants: Grants, e: Event) returns (r: Result<nat, SubscriptionRejected>)
      modifies this
      ensures (View(), r) == old(View()).Apply(codec, grants.View(), e)
    {
      if node.None? {
        return Failure(WrongSubscriptionTarget);
      }
      if e.kind != SUBSCRIPTION_KIND {
        return Failure(WrongSubscriptionKind);
      }
      var d := FirstValue(e.tags, "d");
      if d.None? || d.value != ToHex(node.value) {
        return Failure(WrongSubscriptionTarget);
      }
      if !HasTag(e, "p", ToHex(node.value)) {
        return Failure(NotForThisNode);
      }
      var grant := grants.Resolve(e.pubkey);
      if grant.Failure? {
        return Failure(NoGrant);
      }
      var plaintext := codec.decrypt(e.pubkey, e.content);
      if plaintext.None? {
        return Failure(Undecryptable);
      }
      var types := codec.types(plaintext.value);
      if types.None? {
        return Failure(UnparseableTypes);
      }
      var controller := ToHex(e.pubkey);
      if controller in byController && e.createdAt < byController[controller].createdAt {
        return Failure(SupersededSubscription);
      }
      if |types.value| == 0 {
        byController := byController - {controller};
      } else {
        byController := byController[controller := Wanted(types.value, e.createdAt)];
      }
      r := Success(|types.value|);
    }
  }

  /** The profile a controller is held to: of its own grant, or else of the one for
      everybody else. */
  ghost function ProfileFor(grants: GrantStore, c: PublicKey): Option<UsageProfile> {
    match (Get(grants.byController, ToHex(c)), grants.others)
    case (Some(own), _) => Some(own.profile)
    case (None, Some(shared)) => Some(shared.profile)
    case (None, None) => None
  }

  /** The type is in its stored list, and the map of notifications it is held to
      lets it have the type. */
  ghost predicate Entitled(subs: SubStore, grants: GrantStore, c: PublicKey, name: string) {
    && (exists w :: Get(subs.byController, ToHex(c)) == Some(w) && name in w.types)
    && (exists p :: ProfileFor(grants, c) == Some(p) && MayReceive(p, name))
  }

  lemma ReceivesIffEntitled(subs: SubStore, grants: GrantStore, c: PublicKey, name: string)
    ensures subs.ShouldReceive(c, name, grants) <==> Entitled(subs, grants, c, name)
  {
    if grants.Resolve(c).Success? {
      NotificationAllowedIff(grants.Resolve(c).value.profile, name);
    }
  }

  /** What `Apply` reports, and when exactly, the grant being looked at before the
      content; and what it does to the author's slot and to no other. */
  lemma ReportIsExact(codec: Codec, node: PublicKey, s: SubStore, grants: GrantStore, e: Event, k: string)
    requires s.node == Some(node)
    ensures var (after, report) := s.Apply(codec, grants, e);
            var named := e.kind == 30199 && FirstValue(e.tags, "d") == Some(ToHex(node));
            var covered := WellAddressed(node, e) && ProfileFor(grants, e.pubkey).Some?;
            var plaintext := codec.decrypt(e.pubkey, e.content);
            var types := if plaintext.Some? then codec.types(plaintext.value) else None;
            var slot := Get(s.byController, ToHex(e.pubkey));
            var older := slot.Some? && e.createdAt < slot.value.createdAt;
            && (report == Failure(WrongSubscriptionKind) <==> e.kind != 30199)
            && (report == Failure(WrongSubscriptionTarget) <==> e.kind == 30199 && !named)
            && (report == Failure(NotForThisNode) <==> named && !WellAddressed(node, e))
            && (report == Failure(NoGrant) <==> WellAddressed(node, e) && !covered)
            && (report == Failure(Undecryptable) <==> covered && plaintext.None?)
            && (report == Failure(UnparseableTypes) <==> covered && plaintext.Some? && types.None?)
            && (report == Failure(SupersededSubscription) <==> covered && types.Some? && older)
            && (report.Success? <==> covered && types.Some? && !older)
            && (report.Success? ==> report.value == |types.value|)
            && Get(after.byController, k)
               == if !report.Success? || k != ToHex(e.pubkey) then Get(s.byController, k)
                  else if types.value == [] then None
                  else Some(Wanted(types.value, e.createdAt))
  {
  }

  /** Everyone who should receive a type now, each once, in no particular order:
      the stored keys are visited in an arbitrary order, read back as keys and
      kept if the intersection holds. */
  method Recipients(subs: SubStore, name: string, grants: GrantStore) returns (r: seq<PublicKey>)
    requires subs.Tidy()
    ensures NoDuplicates(r)
    ensures forall c: PublicKey :: c in r <==> Entitled(subs, grants, c, name)
  {
    forall c: PublicKey ensures subs.ShouldReceive(c, name, grants) <==> Entitled(subs, grants, c, name) {
      ReceivesIffEntitled(subs, grants, c, name);
    }
    r := [];
    var keys := subs.byController.Keys;
    while keys != {}
      invariant keys <= subs.byController.Keys
      invariant NoDuplicates(r)
      invariant forall c: PublicKey :: c in r <==> c !in keys && subs.ShouldReceive(c, name, grants)
      decreases |keys|
    {
      var hex :| hex in keys;
      ghost var before := r;
      HexRoundTrip(hex);
      var key := FromHex(hex);
      if key.Some? && subs.ShouldReceive(key.value, name, grants) {
        assert hex !in before;
        r := r + [key.value];
      }
      keys := keys - {hex};
    }
  }
}
