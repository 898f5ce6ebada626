/** Starting cold: which subscriptions a service recovers from what a relay
    still holds. */
module Restore {
  import opened Wrappers
  import opened Keys
  import opened Limit
  import opened Events
  import opened Profile
  import opened Grants
  import opened Replay
  import opened Subscriptions
  import opened Service
  import opened Runs

  /** A subscription of this controller that this node can read. */
  predicate Asks(env: Env, e: Event, c: PublicKey) {
    e.pubkey == c && WellAddressed(env.authority.node, e) && TypesOf(env.codec, e).Success?
  }

  /** Where the controller's last readable subscription is. */
  function LastAsked(env: Env, es: seq<Event>, c: PublicKey): (r: Option<nat>)
    ensures r.Some? ==> r.value < |es| && Asks(env, es[r.value], c)
    ensures forall i :: 0 <= i < |es| && Asks(env, es[i], c) ==> r.Some? && i <= r.value
    decreases es
  {
    if es == [] then None
    else if Asks(env, es[|es| - 1], c) then Some(|es| - 1)
    else LastAsked(env, es[..|es| - 1], c)
  }

  /** What the controller last asked for: a list, or nothing. */
  function LastWanted(env: Env, es: seq<Event>, c: PublicKey): Option<Wanted> {
    match LastAsked(env, es, c)
    case None => None
    case Some(i) =>
      var types := TypesOf(env.codec, es[i]).value;
      if types == [] then None else Some(Wanted(types, es[i].createdAt))
  }

  /** The last readable subscription, provided a grant came before it. */
  ghost function Recovered(env: Env, es: seq<Event>, c: PublicKey): Option<Wanted> {
    var i := LastAsked(env, es, c);
    if i.Some? && GrantedBy(env.authority, es[..i.value], c) then LastWanted(env, es, c) else None
  }

  ghost predicate Holds(env: Env, es: seq<Event>, c: PublicKey, m: Mirror) {
    && m.grants == ReplayGrants(env.codec.profile, env.authority.Start(), es)
    && m.subs.node == Some(env.authority.node)
    && Get(m.subs.byController, ToHex(c)) == Recovered(env, es, c)
  }

  lemma AskHonoured(env: Env, front: seq<Event>, e: Event, c: PublicKey, m: Mirror)
    requires OldestFirst(front + [e]) && Asks(env, e, c) && Holds(env, front, c, m)
    ensures Get(m.subs.Apply(env.codec, m.grants, e).0.byController, ToHex(c)) == Recovered(env, front + [e], c)
  {
    var es := front + [e];
    assert es[..|front|] == front && es[|front|] == e;
    assert LastAsked(env, es, c) == Some(|front|);
    ResolvesIffGranted(env.authority, env.codec.profile, front, c);
    var i := LastAsked(env, front, c);
    if i.Some? {
      assert es[i.value].createdAt <= es[|front|].createdAt;
      if GrantedBy(env.authority, front[..i.value], c) {
        GrantedEarlier(env.authority, front, i.value, c);
      }
    }
  }

  lemma GrantedEarlier(a: Authority, es: seq<Event>, i: nat, c: PublicKey)
    requires i <= |es| && GrantedBy(a, es[..i], c)
    ensures GrantedBy(a, es, c)
  {
  }

  lemma OthersLeaveSlot(env: Env, front: seq<Event>, e: Event, c: PublicKey, m: Mirror)
    requires !Asks(env, e, c) && Holds(env, front, c, m)
    ensures Get(AbsorbOne(env.codec, m, e).subs.byController, ToHex(c)) == Recovered(env, front + [e], c)
  {
    var es := front + [e];
    assert es[..|front|] == front && es[|front|] == e;
    var i := LastAsked(env, front, c);
    assert LastAsked(env, es, c) == i;
    if i.Some? {
      assert es[..i.value] == front[..i.value];
    }
  }

  lemma {:induction false} AbsorbRecovers(env: Env, es: seq<Event>, c: PublicKey)
    requires OldestFirst(es)
    ensures Holds(env, es, c, Absorb(env.codec, Mirror(env.authority.Start(), NoSubscriptions(env.authority.node)), es))
    decreases es
  {
    var empty := Mirror(env.authority.Start(), NoSubscriptions(env.authority.node));
    if es != [] {
      var front, last := es[..|es| - 1], es[|es| - 1];
      assert es == front + [last];
      AbsorbRecovers(env, front, c);
      AbsorbReplays(env.codec, empty, es);
      var m := Absorb(env.codec, empty, front);
      if Asks(env, last, c) {
        AskHonoured(env, front, last, c, m);
      } else {
        OthersLeaveSlot(env, front, last, c, m);
      }
    }
  }

  /** A cold start restores a controller's last readable subscription exactly
      when there is none, it asks for nothing, or an accepted grant for the
      controller or for everybody else precedes it in time order. */
  lemma ColdStartRestoresIff(env: Env, answer: seq<Event>, c: PublicKey)
    ensures var es := SortByTime(answer);
            var i := LastAsked(env, es, c);
            (Get(Boot(env, Some(answer)).subs.byController, ToHex(c)) == LastWanted(env, es, c)
             <==> (i.None? || LastWanted(env, es, c).None? || GrantedBy(env.authority, es[..i.value], c)))
  {
    SortIsStable(answer, 0);
    AbsorbRecovers(env, SortByTime(answer), c);
  }

  /** A grant in `es` for this controller or everybody else, older than `t`. */
  ghost predicate GrantedBefore(a: Authority, es: seq<Event>, c: PublicKey, t: u64) {
    exists g :: g in es && g.createdAt < t && (a.Accepts(g, ToHex(c)) || a.Accepts(g, OTHERS))
  }

  lemma OlderComesFirst(a: Authority, es: seq<Event>, c: PublicKey, i: nat)
    requires OldestFirst(es) && i < |es| && GrantedBefore(a, es, c, es[i].createdAt)
    ensures GrantedBy(a, es[..i], c)
  {
  }

  lemma GrantedBeforeTransfers(a: Authority, xs: seq<Event>, ys: seq<Event>, c: PublicKey, t: u64)
    requires SameEvents(ys, xs) && GrantedBefore(a, xs, c, t)
    ensures GrantedBefore(a, ys, c, t)
  {
  }

  /** In particular if every readable subscription has a strictly older grant. */
  lemma OlderGrantsRestore(env: Env, answer: seq<Event>, c: PublicKey)
    requires forall e :: e in answer && Asks(env, e, c) ==> GrantedBefore(env.authority, answer, c, e.createdAt)
    ensures Get(Boot(env, Some(answer)).subs.byController, ToHex(c)) == LastWanted(env, SortByTime(answer), c)
  {
    ColdStartRestoresIff(env, answer, c);
    SortIsStable(answer, 0);
    SortKeepsEvents(answer);
    var es := SortByTime(answer);
    var i := LastAsked(env, es, c);
    if i.Some? {
      assert es[i.value] in answer;
      GrantedBeforeTransfers(env.authority, answer, es, c, es[i.value].createdAt);
      OlderComesFirst(env.authority, es, c, i.value);
    }
  }

  lemma SortPair(older: Event, newer: Event)
    requires older.createdAt < newer.createdAt
    ensures SortByTime([newer, older]) == [older, newer]
  {
    assert [newer, older][1..] == [older] && [older][1..] == [];
    assert SortByTime([older]) == [older];
    assert InsertByTime(newer, [older]) == [older] + InsertByTime(newer, []);
  }

  lemma LastAskedOfTwo(env: Env, asked: Event, other: Event, c: PublicKey)
    requires Asks(env, asked, c) && !Asks(env, other, c)
    ensures LastAsked(env, [asked, other], c) == Some(0)
  {
  }

  /** And not otherwise: a subscription published before the only grant is lost,
      although the relay still holds both. */
  lemma SubscriptionBeforeGrantIsLost(env: Env, asked: Event, granted: Event, c: PublicKey)
    requires Asks(env, asked, c) && TypesOf(env.codec, asked).value != []
    requires env.authority.Accepts(granted, ToHex(c)) && asked.createdAt < granted.createdAt
    ensures var answer := [granted, asked];
            && LastWanted(env, SortByTime(answer), c).Some?
            && Get(Boot(env, Some(answer)).subs.byController, ToHex(c)).None?
  {
    var es := [asked, granted];
    SortPair(asked, granted);
    LastAskedOfTwo(env, asked, granted, c);
    ColdStartRestoresIff(env, [granted, asked], c);
    AbsorbRecovers(env, es, c);
    assert es[..0] == [];
  }

  // ---------------------------------------------------------------------
  // Delivery is what was wanted and is permitted
  // ---------------------------------------------------------------------

  /** The stored list is one the controller published. */
  ghost predicate Published(env: Env, heard: seq<Event>, c: PublicKey, w: Wanted) {
    exists e :: e in heard && Asks(env, e, c) && w == Wanted(TypesOf(env.codec, e).value, e.createdAt)
  }

  ghost predicate AllPublished(env: Env, heard: seq<Event>, m: Mirror) {
    m.subs.node == Some(env.authority.node) &&
    forall c: PublicKey :: ToHex(c) in m.subs.byController ==>
      Published(env, heard, c, m.subs.byController[ToHex(c)])
  }

  lemma PublishedEarlier(env: Env, heard: seq<Event>, more: seq<Event>, c: PublicKey, w: Wanted)
    requires Published(env, heard, c, w)
    ensures Published(env, heard + more, c, w)
  {
    var e :| e in heard && Asks(env, e, c) && w == Wanted(TypesOf(env.codec, e).value, e.createdAt);
    assert e in heard + more;
  }

  lemma AbsorbOnePublished(env: Env, heard: seq<Event>, m: Mirror, e: Event)
    requires AllPublished(env, heard, m)
    ensures AllPublished(env, heard + [e], AbsorbOne(env.codec, m, e))
  {
    var after := AbsorbOne(env.codec, m, e);
    assert e in heard + [e];
    forall c: PublicKey | ToHex(c) in after.subs.byController
      ensures Published(env, heard + [e], c, after.subs.byController[ToHex(c)])
    {
      if ToHex(c) in m.subs.byController && after.subs.byController[ToHex(c)] == m.subs.byController[ToHex(c)] {
        PublishedEarlier(env, heard, [e], c, m.subs.byController[ToHex(c)]);
      }
    }
  }

  lemma {:induction false} AbsorbPublished(env: Env, heard: seq<Event>, m: Mirror, es: seq<Event>)
    requires AllPublished(env, heard, m)
    ensures AllPublished(env, heard + es, Absorb(env.codec, m, es))
    decreases es
  {
    if es == [] {
      assert heard + es == heard;
    } else {
      var front, last := es[..|es| - 1], es[|es| - 1];
      AbsorbPublished(env, heard, m, front);
      AbsorbOnePublished(env, heard + front, Absorb(env.codec, m, front), last);
      assert heard + front + [last] == heard + es;
    }
  }

  lemma StepPublished(env: Env, heard: seq<Event>, s: State, i: Input)
    requires AllPublished(env, heard, Mirror(s.grants, s.subs))
    ensures var t := Step(env, s, i).0; AllPublished(env, heard + Brought(i), Mirror(t.grants, t.subs))
  {
    match i
    case Arrived(e, _, _) => AbsorbOnePublished(env, heard, Mirror(s.grants, s.subs), e);
    case Reconnected(None) => assert heard + Brought(i) == heard;
    case Reconnected(Some(es)) => AbsorbPublished(env, heard, Mirror(s.grants, s.subs), SortByTime(es));
  }

  lemma {:induction false} RunPublished(env: Env, heard: seq<Event>, s: State, inputs: seq<Input>)
    requires AllPublished(env, heard, Mirror(s.grants, s.subs))
    ensures var t := Run(env, s, inputs); AllPublished(env, heard + Heard(inputs), Mirror(t.grants, t.subs))
    decreases inputs
  {
    if inputs == [] {
      assert heard + Heard(inputs) == heard;
    } else {
      var front, last := inputs[..|inputs| - 1], inputs[|inputs| - 1];
      RunPublished(env, heard, s, front);
      StepPublished(env, heard + Heard(front), Run(env, s, front), last);
      assert heard + Heard(front) + Brought(last) == heard + Heard(inputs);
    }
  }

  lemma HistoryPublished(env: Env, start: Option<seq<Event>>, inputs: seq<Input>)
    ensures var s := Run(env, Boot(env, start), inputs);
            AllPublished(env, History(start, inputs), Mirror(s.grants, s.subs))
  {
    StepPublished(env, [], Blank(env), Reconnected(start));
    assert [] + Brought(Reconnected(start)) == Brought(Reconnected(start));
    RunPublished(env, Brought(Reconnected(start)), Boot(env, start), inputs);
  }

  /** In every run, whoever is sent a type by subscription published, in an event
      already heard, a list with that type in it, and the event that grants it
      its rights permits the type. */
  lemma DeliveryIsWantedAndPermitted(env: Env, start: Option<seq<Event>>, inputs: seq<Input>, c: PublicKey,
                                     name: string)
    returns (asked: Event, granted: Event)
    requires var m := Run(env, Boot(env, start), inputs).mirror; Entitled(m.subs, m.grants, c, name)
    ensures var heard := History(start, inputs);
            && asked in heard && Asks(env, asked, c) && name in TypesOf(env.codec, asked).value
            && Applies(env.authority, heard, granted, c)
            && env.codec.profile(granted.content).Some?
            && MayReceive(env.codec.profile(granted.content).value, name)
  {
    var heard, m := History(start, inputs), Run(env, Boot(env, start), inputs).mirror;
    MirrorIsLive(env, start, inputs);
    ReceivesIffEntitled(m.subs, m.grants, c, name);
    HistoryPublished(env, start, inputs);
    var wanted := m.subs.byController[ToHex(c)];
    assert Published(env, heard, c, wanted);
    asked :| asked in heard && Asks(env, asked, c) &&
      wanted == Wanted(TypesOf(env.codec, asked).value, asked.createdAt);
    GrantsReplayHistory(env, start, inputs);
    granted := ResolvedFromApplying(env.authority, env.codec.profile, heard, c);
    NotificationAllowedIff(GrantFrom(env.codec.profile, granted).profile, name);
  }

  lemma ResolvedFromApplying(a: Authority, parse: ProfileParser, heard: seq<Event>, c: PublicKey) returns (e: Event)
    requires ReplayGrants(parse, a.Start(), heard).Resolve(c).Success?
    ensures Applies(a, heard, e, c)
    ensures ReplayGrants(parse, a.Start(), heard).Resolve(c).value == GrantFrom(parse, e)
  {
    var store := ReplayGrants(parse, a.Start(), heard);
    assert |ToHex(c)| == 64 && |OTHERS| == 6;
    var target := if store.GetRaw(ToHex(c)).Some? then ToHex(c) else OTHERS;
    ReplayHoldsStanding(a, parse, heard, ToHex(c));
    ReplayHoldsStanding(a, parse, heard, target);
    e :| a.Stands(heard, target, e) && store.Resolve(c).value == GrantFrom(parse, e);
  }

  /** And completely so after a cold start that lost nothing: a controller is
      sent a type exactly if its last list has it and the event that applies to
      it permits it. */
  lemma ColdStartDeliversIff(env: Env, answer: seq<Event>, c: PublicKey, name: string)
    requires forall e :: e in answer && Asks(env, e, c) ==> GrantedBefore(env.authority, answer, c, e.createdAt)
    ensures var es, m := SortByTime(answer), Boot(env, Some(answer)).mirror;
            (Entitled(m.subs, m.grants, c, name)
             <==> (&& LastWanted(env, es, c).Some? && name in LastWanted(env, es, c).value.types
                   && exists e :: Applies(env.authority, es, e, c) && env.codec.profile(e.content).Some? &&
                        MayReceive(env.codec.profile(e.content).value, name)))
  {
    var es, m := SortByTime(answer), Boot(env, Some(answer)).mirror;
    OlderGrantsRestore(env, answer, c);
    GrantsReplayHistory(env, Some(answer), []);
    assert History(Some(answer), []) == es;
    assert m.grants == ReplayGrants(env.codec.profile, env.authority.Start(), es);
    ResolvesToApplying(env.authority, env.codec.profile, es, c);
    ReceivesIffEntitled(m.subs, m.grants, c, name);
    forall e ensures GrantFrom(env.codec.profile, e).profile.AllowsNotification(name)
                <==> env.codec.profile(e.content).Some? && MayReceive(env.codec.profile(e.content).value, name)
    {
      NotificationAllowedIff(GrantFrom(env.codec.profile, e).profile, name);
    }
  }
}
