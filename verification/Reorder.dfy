/** Subscriptions as a replicated register: when the order in which a controller's
    lists arrive does not matter, and why it can. An empty list is forgotten with
    its timestamp, so nothing is left for an older list to be compared with. */
module Reorder {
  import opened Wrappers
  import opened Keys
  import opened Limit
  import opened Events
  import opened Grants
  import opened Replay
  import opened Codecs
  import opened Subscriptions
  import opened Service
  import opened Runs
  import opened Restore

  /** Apply subscriptions one after the other, while one set of grants stands. */
  function ReplaySubs(codec: Codec, grants: GrantStore, start: SubStore, es: seq<Event>): (s: SubStore)
    ensures s.node == start.node
    decreases es
  {
    if es == [] then start
    else ReplaySubs(codec, grants, start, es[..|es| - 1]).Apply(codec, grants, es[|es| - 1]).0
  }

  function Subscribed(env: Env, grants: GrantStore, es: seq<Event>): (s: SubStore)
    ensures s.node == Some(env.authority.node)
  {
    ReplaySubs(env.codec, grants, NoSubscriptions(env.authority.node), es)
  }

  function Slot(env: Env, grants: GrantStore, es: seq<Event>, c: PublicKey): Option<Wanted> {
    Get(Subscribed(env, grants, es).byController, ToHex(c))
  }

  /** The event asks for something. */
  predicate Lists(env: Env, e: Event, c: PublicKey) {
    Asks(env, e, c) && TypesOf(env.codec, e).value != []
  }

  /** The event asks for nothing any more. */
  predicate Leaves(env: Env, e: Event, c: PublicKey) {
    Asks(env, e, c) && TypesOf(env.codec, e).value == []
  }

  function WantedBy(env: Env, e: Event, c: PublicKey): Wanted
    requires Asks(env, e, c)
  {
    Wanted(TypesOf(env.codec, e).value, e.createdAt)
  }

  ghost predicate NewestList(env: Env, es: seq<Event>, c: PublicKey, x: Event) {
    x in es && Lists(env, x, c) && forall y :: y in es && Lists(env, y, c) ==> y.createdAt <= x.createdAt
  }

  /** The newest lists agree, and every unsubscription is strictly older than they
      are. With no list at all there is nothing to settle. */
  ghost predicate Settled(env: Env, es: seq<Event>, c: PublicKey) {
    (forall x, y :: NewestList(env, es, c, x) && NewestList(env, es, c, y) ==>
       WantedBy(env, x, c) == WantedBy(env, y, c)) &&
    (forall x, e :: NewestList(env, es, c, x) && e in es && Leaves(env, e, c) ==>
       e.createdAt < x.createdAt)
  }

  /** One more event, seen from a controller that a grant covers. */
  lemma SlotStep(env: Env, grants: GrantStore, es: seq<Event>, e: Event, c: PublicKey)
    requires grants.Resolve(c).Success?
    ensures var was := Slot(env, grants, es, c);
            Slot(env, grants, es + [e], c)
            == if !Asks(env, e, c) || (was.Some? && e.createdAt < was.value.createdAt) then was
               else if Leaves(env, e, c) then None
               else Some(WantedBy(env, e, c))
  {
    assert (es + [e])[..|es|] == es;
  }

  lemma SlotEmpty(env: Env, grants: GrantStore, es: seq<Event>, c: PublicKey)
    requires es == []
    ensures Slot(env, grants, es, c) == None
  {
  }

  /** A slot never holds anything newer than the newest list there is. */
  lemma {:induction false} SlotNoNewer(env: Env, grants: GrantStore, xs: seq<Event>, c: PublicKey, t: u64)
    requires grants.Resolve(c).Success?
    requires forall e :: e in xs && Lists(env, e, c) ==> e.createdAt <= t
    ensures Slot(env, grants, xs, c).Some? ==> Slot(env, grants, xs, c).value.createdAt <= t
    decreases xs
  {
    if xs == [] {
      SlotEmpty(env, grants, xs, c);
    } else {
      var front, last := xs[..|xs| - 1], xs[|xs| - 1];
      assert xs == front + [last];
      SlotNoNewer(env, grants, front, c, t);
      SlotStep(env, grants, front, last, c);
    }
  }

  /** Without a list nothing is ever stored. */
  lemma {:induction false} NoListNoSlot(env: Env, grants: GrantStore, xs: seq<Event>, c: PublicKey)
    requires grants.Resolve(c).Success?
    requires forall e :: e in xs ==> !Lists(env, e, c)
    ensures Slot(env, grants, xs, c) == None
    decreases xs
  {
    if xs == [] {
      SlotEmpty(env, grants, xs, c);
    } else {
      var front, last := xs[..|xs| - 1], xs[|xs| - 1];
      assert xs == front + [last];
      assert last in xs;
      NoListNoSlot(env, grants, front, c);
      SlotStep(env, grants, front, last, c);
    }
  }

  /** Among settled events, a newest list once seen is the one that stands. */
  lemma {:induction false} SettledListStands(env: Env, grants: GrantStore, es: seq<Event>, xs: seq<Event>,
                                             c: PublicKey, x: Event)
    requires grants.Resolve(c).Success?
    requires Settled(env, es, c) && NewestList(env, es, c, x)
    requires (forall e :: e in xs ==> e in es) && x in xs
    ensures Slot(env, grants, xs, c) == Some(WantedBy(env, x, c))
    decreases xs
  {
    var front, last := xs[..|xs| - 1], xs[|xs| - 1];
    assert xs == front + [last];
    SlotNoNewer(env, grants, front, c, x.createdAt);
    SlotStep(env, grants, front, last, c);
    if x in front {
      SettledListStands(env, grants, es, front, c, x);
      assert last in es;
      if Lists(env, last, c) && last.createdAt == x.createdAt {
        assert NewestList(env, es, c, last);
      }
    }
  }

  lemma {:induction false} NewestListExists(env: Env, es: seq<Event>, c: PublicKey) returns (x: Event)
    requires exists e :: e in es && Lists(env, e, c)
    ensures NewestList(env, es, c, x)
    decreases es
  {
    var front, last := es[..|es| - 1], es[|es| - 1];
    assert es == front + [last];
    if exists e :: e in front && Lists(env, e, c) {
      x := NewestListExists(env, front, c);
      if Lists(env, last, c) && x.createdAt <= last.createdAt {
        x := last;
      }
    } else {
      x := last;
    }
  }

  /** Every order and repetition of these events leaves the controller the same. */
  ghost predicate SameSlotInAnyOrder(env: Env, grants: GrantStore, es: seq<Event>, c: PublicKey) {
    forall xs, ys :: SameEvents(xs, es) && SameEvents(ys, es) ==>
      Slot(env, grants, xs, c) == Slot(env, grants, ys, c)
  }

  lemma SettledConverges(env: Env, grants: GrantStore, es: seq<Event>, c: PublicKey)
    requires grants.Resolve(c).Success? && Settled(env, es, c)
    ensures SameSlotInAnyOrder(env, grants, es, c)
  {
    forall xs, ys | SameEvents(xs, es) && SameEvents(ys, es)
      ensures Slot(env, grants, xs, c) == Slot(env, grants, ys, c)
    {
      if exists e :: e in es && Lists(env, e, c) {
        var x := NewestListExists(env, es, c);
        SettledListStands(env, grants, es, xs, c, x);
        SettledListStands(env, grants, es, ys, c, x);
      } else {
        NoListNoSlot(env, grants, xs, c);
        NoListNoSlot(env, grants, ys, c);
      }
    }
  }

  /** Repeated at the end, a newest list stands. */
  lemma RepeatedListStands(env: Env, grants: GrantStore, es: seq<Event>, c: PublicKey, x: Event)
    requires grants.Resolve(c).Success? && NewestList(env, es, c, x)
    ensures SameEvents(es + [x], es)
    ensures Slot(env, grants, es + [x], c) == Some(WantedBy(env, x, c))
  {
    SlotNoNewer(env, grants, es, c, x.createdAt);
    SlotStep(env, grants, es, x, c);
  }

  lemma DisagreeingListsDiverge(env: Env, grants: GrantStore, es: seq<Event>, c: PublicKey, x: Event, y: Event)
    requires grants.Resolve(c).Success? && NewestList(env, es, c, x) && NewestList(env, es, c, y)
    requires WantedBy(env, x, c) != WantedBy(env, y, c)
    ensures !SameSlotInAnyOrder(env, grants, es, c)
  {
    RepeatedListStands(env, grants, es, c, x);
    RepeatedListStands(env, grants, es, c, y);
  }

  lemma LateLeavingDiverges(env: Env, grants: GrantStore, es: seq<Event>, c: PublicKey, x: Event, e: Event)
    requires grants.Resolve(c).Success? && NewestList(env, es, c, x)
    requires e in es && Leaves(env, e, c) && x.createdAt <= e.createdAt
    ensures !SameSlotInAnyOrder(env, grants, es, c)
  {
    RepeatedListStands(env, grants, es, c, x);
    SlotStep(env, grants, es + [x], e, c);
    assert SameEvents(es + [x] + [e], es);
  }

  /** Under standing grants, a controller's subscription does not depend on order
      and repetition if and only if its readable events are settled. */
  lemma SlotConvergesIff(env: Env, grants: GrantStore, es: seq<Event>, c: PublicKey)
    requires grants.Resolve(c).Success?
    ensures SameSlotInAnyOrder(env, grants, es, c) <==> Settled(env, es, c)
  {
    if Settled(env, es, c) {
      SettledConverges(env, grants, es, c);
    } else if x, y :| NewestList(env, es, c, x) && NewestList(env, es, c, y) &&
                      WantedBy(env, x, c) != WantedBy(env, y, c)
    {
      DisagreeingListsDiverge(env, grants, es, c, x, y);
    } else {
      var x, e :| NewestList(env, es, c, x) && e in es && Leaves(env, e, c) && x.createdAt <= e.createdAt;
      LateLeavingDiverges(env, grants, es, c, x, e);
    }
  }

  /** Two orders of the same two events: an unsubscription ends a list it comes
      after, and is undone by the same, older list coming again. */
  lemma OlderListUndoesLeaving(env: Env, grants: GrantStore, listed: Event, left: Event, c: PublicKey)
    requires grants.Resolve(c).Success?
    requires Lists(env, listed, c) && Leaves(env, left, c) && listed.createdAt < left.createdAt
    ensures Slot(env, grants, [listed, left], c) == None
    ensures Slot(env, grants, [left, listed], c) == Some(WantedBy(env, listed, c))
  {
    SlotEmpty(env, grants, [], c);
    SlotStep(env, grants, [], listed, c);
    SlotStep(env, grants, [], left, c);
    assert [] + [listed] == [listed] && [] + [left] == [left];
    SlotStep(env, grants, [listed], left, c);
    SlotStep(env, grants, [left], listed, c);
    assert [listed] + [left] == [listed, left] && [left] + [listed] == [left, listed];
  }

  // ---------------------------------------------------------------------
  // The whole registry, and the running service
  // ---------------------------------------------------------------------

  /** Only controllers a grant covers are ever in the registry. */
  lemma {:induction false} UncoveredStayOut(env: Env, grants: GrantStore, es: seq<Event>, k: string)
    requires IsCanonical(k) ==> grants.Resolve(k).Failure?
    ensures k !in Subscribed(env, grants, es).byController
    decreases es
  {
    if es != [] {
      UncoveredStayOut(env, grants, es[..|es| - 1], k);
    }
  }

  ghost predicate SameRegistryInAnyOrder(env: Env, grants: GrantStore, es: seq<Event>) {
    forall xs, ys :: SameEvents(xs, es) && SameEvents(ys, es) ==>
      Subscribed(env, grants, xs) == Subscribed(env, grants, ys)
  }

  lemma SameSlotsSameRegistry(env: Env, grants: GrantStore, xs: seq<Event>, ys: seq<Event>)
    requires forall c: PublicKey :: grants.Resolve(c).Success? ==>
               Slot(env, grants, xs, c) == Slot(env, grants, ys, c)
    ensures Subscribed(env, grants, xs) == Subscribed(env, grants, ys)
  {
    var s, t := Subscribed(env, grants, xs).byController, Subscribed(env, grants, ys).byController;
    forall k ensures Get(s, k) == Get(t, k) {
      if IsCanonical(k) && grants.Resolve(k).Success? {
        var c: PublicKey := k;
        assert Slot(env, grants, xs, c) == Slot(env, grants, ys, c);
      } else {
        UncoveredStayOut(env, grants, xs, k);
        UncoveredStayOut(env, grants, ys, k);
      }
    }
    assert forall k :: k in s <==> Get(s, k).Some?;
    assert forall k :: k in t <==> Get(t, k).Some?;
    assert s == t;
  }

  /** The registry converges exactly if every covered controller is settled. */
  lemma RegistryConvergesIff(env: Env, grants: GrantStore, es: seq<Event>)
    ensures SameRegistryInAnyOrder(env, grants, es)
       <==> forall c: PublicKey :: grants.Resolve(c).Success? ==> Settled(env, es, c)
  {
    forall c: PublicKey | grants.Resolve(c).Success?
      ensures SameSlotInAnyOrder(env, grants, es, c) <==> Settled(env, es, c)
    {
      SlotConvergesIff(env, grants, es, c);
    }
    if forall c: PublicKey :: grants.Resolve(c).Success? ==> Settled(env, es, c) {
      forall xs, ys | SameEvents(xs, es) && SameEvents(ys, es)
        ensures Subscribed(env, grants, xs) == Subscribed(env, grants, ys)
      {
        SameSlotsSameRegistry(env, grants, xs, ys);
      }
    }
  }

  lemma {:induction false} ReplaySubsConcat(codec: Codec, grants: GrantStore, start: SubStore,
                                            xs: seq<Event>, ys: seq<Event>)
    ensures ReplaySubs(codec, grants, start, xs + ys)
         == ReplaySubs(codec, grants, ReplaySubs(codec, grants, start, xs), ys)
    decreases ys
  {
    if ys == [] {
      assert xs + ys == xs;
    } else {
      var front := ys[..|ys| - 1];
      ReplaySubsConcat(codec, grants, start, xs, front);
      assert (xs + ys)[..|xs + ys| - 1] == xs + front;
    }
  }

  ghost predicate NoGrantAmong(es: seq<Event>) {
    forall e :: e in es ==> e.kind != GRANT_KIND
  }

  lemma {:induction false} AbsorbReplaysSubs(codec: Codec, m: Mirror, es: seq<Event>)
    requires NoGrantAmong(es)
    ensures Absorb(codec, m, es) == m.(subs := ReplaySubs(codec, m.grants, m.subs, es))
    decreases es
  {
    if es != [] {
      AbsorbReplaysSubs(codec, m, es[..|es| - 1]);
    }
  }

  lemma StepReplaysSubs(env: Env, s: State, i: Input)
    requires NoGrantAmong(Brought(i))
    ensures var t := Step(env, s, i).0;
            t.grants == s.grants && t.subs == ReplaySubs(env.codec, s.grants, s.subs, Brought(i))
  {
    match i
    case Arrived(e, _, _) =>
      assert [e][..0] == [] && e in Brought(i);
    case Reconnected(None) =>
    case Reconnected(Some(es)) =>
      AbsorbReplaysSubs(env.codec, Mirror(s.grants, s.subs), SortByTime(es));
  }

  /** While no grant arrives, a running service's registry is that replay. */
  lemma {:induction false} RunReplaysSubs(env: Env, s: State, inputs: seq<Input>)
    requires NoGrantAmong(Heard(inputs))
    ensures var t := Run(env, s, inputs);
            t.grants == s.grants && t.subs == ReplaySubs(env.codec, s.grants, s.subs, Heard(inputs))
    decreases inputs
  {
    if inputs != [] {
      var front, last := inputs[..|inputs| - 1], inputs[|inputs| - 1];
      RunReplaysSubs(env, s, front);
      StepReplaysSubs(env, Run(env, s, front), last);
      ReplaySubsConcat(env.codec, s.grants, s.subs, Heard(front), Brought(last));
    }
  }
}
