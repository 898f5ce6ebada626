/** What holds over every run of the service, whatever the relays bring. */
module Runs {
  import opened Wrappers
  import opened Keys
  import opened Limit
  import opened UsageStore
  import opened Events
  import opened Profile
  import opened Grants
  import opened Replay
  import opened Codecs
  import opened Subscriptions
  import opened Pipeline
  import opened Requests
  import opened Service

  // ---------------------------------------------------------------------
  // The grants are the replay of everything heard
  // ---------------------------------------------------------------------

  /** The events an input puts before the access layer, in order. */
  function Brought(i: Input): seq<Event> {
    match i
    case Arrived(e, _, _) => [e]
    case Reconnected(None) => []
    case Reconnected(Some(es)) => SortByTime(es)
  }

  function Heard(inputs: seq<Input>): seq<Event> {
    if inputs == [] then []
    else Heard(inputs[..|inputs| - 1]) + Brought(inputs[|inputs| - 1])
  }

  /** Everything heard since the service started. */
  function History(start: Option<seq<Event>>, inputs: seq<Input>): seq<Event> {
    Brought(Reconnected(start)) + Heard(inputs)
  }

  lemma OtherKindsGrantNothing(parse: ProfileParser, g: GrantStore, e: Event)
    requires e.kind != GRANT_KIND
    ensures g.Apply(parse, e).0 == g
  {
  }

  lemma {:induction false} AbsorbReplays(codec: Codec, m: Mirror, es: seq<Event>)
    ensures Absorb(codec, m, es).grants == ReplayGrants(codec.profile, m.grants, es)
    decreases es
  {
    if es != [] {
      var front, last := es[..|es| - 1], es[|es| - 1];
      AbsorbReplays(codec, m, front);
      if last.kind != GRANT_KIND {
        OtherKindsGrantNothing(codec.profile, ReplayGrants(codec.profile, m.grants, front), last);
      }
    }
  }

  lemma {:induction false} AbsorbConcat(codec: Codec, m: Mirror, xs: seq<Event>, ys: seq<Event>)
    ensures Absorb(codec, m, xs + ys) == Absorb(codec, Absorb(codec, m, xs), ys)
    decreases ys
  {
    if ys == [] {
      assert xs + ys == xs;
    } else {
      var front := ys[..|ys| - 1];
      AbsorbConcat(codec, m, xs, front);
      assert (xs + ys)[..|xs + ys| - 1] == xs + front;
    }
  }

  lemma StepAbsorbs(env: Env, s: State, i: Input)
    ensures var t := Step(env, s, i).0;
            Mirror(t.grants, t.subs) == Absorb(env.codec, Mirror(s.grants, s.subs), Brought(i))
  {
    match i
    case Arrived(e, _, _) =>
      assert [e][..0] == [];
      assert Absorb(env.codec, Mirror(s.grants, s.subs), [e]) == AbsorbOne(env.codec, Mirror(s.grants, s.subs), e);
    case Reconnected(None) =>
    case Reconnected(Some(_)) =>
  }

  /** However events arrive, live or read again, one by one or many at once, the
      grants and the subscriptions are what one pass over all of them gives. */
  lemma {:induction false} RunAbsorbs(env: Env, s: State, inputs: seq<Input>)
    ensures var t := Run(env, s, inputs);
            Mirror(t.grants, t.subs) == Absorb(env.codec, Mirror(s.grants, s.subs), Heard(inputs))
    decreases inputs
  {
    if inputs != [] {
      var front, last := inputs[..|inputs| - 1], inputs[|inputs| - 1];
      RunAbsorbs(env, s, front);
      StepAbsorbs(env, Run(env, s, front), last);
      AbsorbConcat(env.codec, Mirror(s.grants, s.subs), Heard(front), Brought(last));
    }
  }

  lemma StepReplays(env: Env, s: State, i: Input)
    ensures Step(env, s, i).0.grants == ReplayGrants(env.codec.profile, s.grants, Brought(i))
  {
    match i
    case Arrived(e, _, _) =>
      assert [e][..0] == [];
      if e.kind != GRANT_KIND {
        OtherKindsGrantNothing(env.codec.profile, s.grants, e);
      }
    case Reconnected(None) =>
    case Reconnected(Some(es)) =>
      AbsorbReplays(env.codec, Mirror(s.grants, s.subs), SortByTime(es));
  }

  lemma {:induction false} RunReplays(env: Env, s: State, inputs: seq<Input>)
    ensures Run(env, s, inputs).grants == ReplayGrants(env.codec.profile, s.grants, Heard(inputs))
    decreases inputs
  {
    if inputs != [] {
      var front, last := inputs[..|inputs| - 1], inputs[|inputs| - 1];
      RunReplays(env, s, front);
      StepReplays(env, Run(env, s, front), last);
      ReplayConcat(env.codec.profile, s.grants, Heard(front), Brought(last));
    }
  }

  lemma GrantsReplayHistory(env: Env, start: Option<seq<Event>>, inputs: seq<Input>)
    ensures Run(env, Boot(env, start), inputs).grants
         == ReplayGrants(env.codec.profile, env.authority.Start(), History(start, inputs))
  {
    StepReplays(env, Blank(env), Reconnected(start));
    RunReplays(env, Boot(env, start), inputs);
    ReplayConcat(env.codec.profile, env.authority.Start(), Brought(Reconnected(start)), Heard(inputs));
  }

  // ---------------------------------------------------------------------
  // Nothing runs that no owner asked for
  // ---------------------------------------------------------------------

  function AccessFor(profile: UsageProfile, protocol: Protocol): Option<AccessMap> {
    match protocol
    case Wallet => profile.methods
    case Control => profile.control
  }

  /** The event's `d` tag is this node's key, a colon and the target. */
  predicate Names(env: Env, e: Event, target: string) {
    FirstValue(e.tags, "d") == Some(ToHex(env.authority.node) + ":" + target)
  }

  /** The limits an event's author wrote for a method: the entry of that name, or
      else the one for everything not named, and the quota. */
  function Written(env: Env, e: Event, protocol: Protocol, name: string): Option<Terms> {
    match env.codec.profile(e.content)
    case None => None
    case Some(profile) =>
      match AccessFor(profile, protocol)
      case None => None
      case Some(access) =>
        var entry := if name in access then name else "OTHERS";
        if entry in access then Some(Terms(access[entry].rate, profile.quota)) else None
  }

  /** An owner wrote this event to this node, about this controller or about
      everybody no grant names; nothing heard supersedes it, being newer, or as
      new and heard later; and it permits the method in the protocol's own map. */
  ghost predicate Justifies(env: Env, heard: seq<Event>, e: Event, c: PublicKey, protocol: Protocol, name: string) {
    && e in heard
    && e.kind == 30198
    && e.pubkey in env.authority.owners
    && HasTag(e, "p", ToHex(env.authority.node))
    && (|| (Names(env, e, ToHex(c)) && env.authority.Stands(heard, ToHex(c), e))
        || (Names(env, e, OTHERS) && env.authority.Stands(heard, OTHERS, e) &&
            !env.authority.AnyFor(heard, ToHex(c))))
    && Written(env, e, protocol, name).Some?
    && env.codec.profile(e.content).value.IsValid()
  }

  /** What a profile allows is what its author wrote. */
  lemma AllowedAsWritten(env: Env, e: Event, protocol: Protocol, name: string)
    ensures var profile := GrantFrom(env.codec.profile, e).profile;
            var allowed := Allows(profile, protocol, name);
            && (allowed.Success? <==> profile.IsValid() && Written(env, e, protocol, name).Some?)
            && (allowed.Success? ==> Written(env, e, protocol, name) == Some(Terms(allowed.value, profile.quota)))
  {
  }

  lemma ResolvedGrantIsJustified(env: Env, heard: seq<Event>, c: PublicKey, protocol: Protocol, name: string)
    returns (e: Event)
    requires Authorize(ReplayGrants(env.codec.profile, env.authority.Start(), heard), protocol, c, name).Success?
    ensures Justifies(env, heard, e, c, protocol, name)
    ensures Authorize(ReplayGrants(env.codec.profile, env.authority.Start(), heard), protocol, c, name)
         == Success(Written(env, e, protocol, name).value)
  {
    var store := ReplayGrants(env.codec.profile, env.authority.Start(), heard);
    assert |ToHex(c)| == 64 && |OTHERS| == 6;
    var target := if store.GetRaw(ToHex(c)).Some? then ToHex(c) else OTHERS;
    ReplayHoldsStanding(env.authority, env.codec.profile, heard, ToHex(c));
    ReplayHoldsStanding(env.authority, env.codec.profile, heard, target);
    e :| env.authority.Stands(heard, target, e) && store.Resolve(c).value == GrantFrom(env.codec.profile, e);
    TargetIsNamed(env.authority.node, e, target);
    AllowedAsWritten(env, e, protocol, name);
  }

  lemma JustifiedGrantResolves(env: Env, heard: seq<Event>, e: Event, c: PublicKey, protocol: Protocol, name: string)
    requires Justifies(env, heard, e, c, protocol, name)
    ensures Authorize(ReplayGrants(env.codec.profile, env.authority.Start(), heard), protocol, c, name)
         == Success(Written(env, e, protocol, name).value)
  {
    var store := ReplayGrants(env.codec.profile, env.authority.Start(), heard);
    assert |ToHex(c)| == 64 && |OTHERS| == 6;
    var target := if env.authority.Stands(heard, ToHex(c), e) then ToHex(c) else OTHERS;
    ReplayHoldsStanding(env.authority, env.codec.profile, heard, ToHex(c));
    StandingIsHeld(env.authority, env.codec.profile, heard, target, e);
    assert store.Resolve(c) == Success(GrantFrom(env.codec.profile, e));
    AllowedAsWritten(env, e, protocol, name);
  }

  /** At every point of every run, a call is authorized exactly when an event heard
      justifies it. */
  lemma AuthorizedIffJustified(env: Env, start: Option<seq<Event>>, inputs: seq<Input>, c: PublicKey,
                               protocol: Protocol, name: string)
    ensures Authorize(Run(env, Boot(env, start), inputs).grants, protocol, c, name).Success?
       <==> exists e :: Justifies(env, History(start, inputs), e, c, protocol, name)
  {
    var heard := History(start, inputs);
    GrantsReplayHistory(env, start, inputs);
    if Authorize(Run(env, Boot(env, start), inputs).grants, protocol, c, name).Success? {
      var _ := ResolvedGrantIsJustified(env, heard, c, protocol, name);
    }
    if e :| Justifies(env, heard, e, c, protocol, name) {
      JustifiedGrantResolves(env, heard, e, c, protocol, name);
    }
  }

  /** The event a controller's rights come from. */
  ghost predicate Applies(a: Authority, heard: seq<Event>, e: Event, c: PublicKey) {
    a.Stands(heard, ToHex(c), e) || (a.Stands(heard, OTHERS, e) && !a.AnyFor(heard, ToHex(c)))
  }

  /** A caller is told UNAUTHORIZED, rather than RESTRICTED, exactly when no event
      applies to it or the one that does is invalid. */
  lemma UnauthorizedIff(env: Env, start: Option<seq<Event>>, inputs: seq<Input>, c: PublicKey,
                        protocol: Protocol, name: string)
    ensures Authorize(Run(env, Boot(env, start), inputs).grants, protocol, c, name) == Failure(Unauthorized)
       <==> forall e :: Applies(env.authority, History(start, inputs), e, c) ==>
              !GrantFrom(env.codec.profile, e).profile.IsValid()
  {
    var heard := History(start, inputs);
    GrantsReplayHistory(env, start, inputs);
    UnauthorizedByReplay(env, heard, c, protocol, name);
  }

  /** A controller resolves to the grant of the event that applies, if any. */
  lemma ResolvesToApplying(a: Authority, parse: ProfileParser, heard: seq<Event>, c: PublicKey)
    ensures match ReplayGrants(parse, a.Start(), heard).Resolve(c)
            case Failure(why) => why == Unauthorized && forall e :: !Applies(a, heard, e, c)
            case Success(g) =>
              && (exists e :: Applies(a, heard, e, c))
              && (forall e :: Applies(a, heard, e, c) ==> GrantFrom(parse, e) == g)
  {
    var store := ReplayGrants(parse, a.Start(), heard);
    assert |ToHex(c)| == 64 && |OTHERS| == 6;
    ReplayHoldsStanding(a, parse, heard, ToHex(c));
    ReplayHoldsStanding(a, parse, heard, OTHERS);
    forall e | Applies(a, heard, e, c) ensures store.Resolve(c) == Success(GrantFrom(parse, e)) {
      StandingIsHeld(a, parse, heard, if a.Stands(heard, ToHex(c), e) then ToHex(c) else OTHERS, e);
    }
    if store.Resolve(c).Success? {
      var target := if store.GetRaw(ToHex(c)).Some? then ToHex(c) else OTHERS;
      var e :| a.Stands(heard, target, e) && store.Resolve(c).value == GrantFrom(parse, e);
      assert Applies(a, heard, e, c);
    }
  }

  lemma UnauthorizedByReplay(env: Env, heard: seq<Event>, c: PublicKey, protocol: Protocol, name: string)
    ensures Authorize(ReplayGrants(env.codec.profile, env.authority.Start(), heard), protocol, c, name)
            == Failure(Unauthorized)
       <==> forall e :: Applies(env.authority, heard, e, c) ==> !GrantFrom(env.codec.profile, e).profile.IsValid()
  {
    ResolvesToApplying(env.authority, env.codec.profile, heard, c);
    var resolved := ReplayGrants(env.codec.profile, env.authority.Start(), heard).Resolve(c);
    if resolved.Success? {
      UnauthorizedMeansInvalid(resolved.value.profile, protocol, name);
    }
  }

  lemma UnauthorizedMeansInvalid(profile: UsageProfile, protocol: Protocol, name: string)
    ensures Allows(profile, protocol, name) == Failure(Unauthorized) <==> !profile.IsValid()
  {
  }

  // ---------------------------------------------------------------------
  // Whoever is in the registry of subscriptions was granted something
  // ---------------------------------------------------------------------

  /** Every subscriber resolves to some grant. */
  ghost predicate Backed(m: Mirror) {
    forall c: PublicKey :: ToHex(c) in m.subs.byController ==> m.grants.Resolve(c).Success?
  }

  lemma AbsorbOneBacked(codec: Codec, m: Mirror, e: Event)
    requires Backed(m)
    ensures Backed(AbsorbOne(codec, m, e))
  {
  }

  lemma {:induction false} AbsorbBacked(codec: Codec, m: Mirror, es: seq<Event>)
    requires Backed(m)
    ensures Backed(Absorb(codec, m, es))
    decreases es
  {
    if es != [] {
      AbsorbBacked(codec, m, es[..|es| - 1]);
      AbsorbOneBacked(codec, Absorb(codec, m, es[..|es| - 1]), es[|es| - 1]);
    }
  }

  lemma StepBacked(env: Env, s: State, i: Input)
    requires Backed(Mirror(s.grants, s.subs))
    ensures var t := Step(env, s, i).0; Backed(Mirror(t.grants, t.subs))
  {
    match i
    case Arrived(e, _, _) => AbsorbOneBacked(env.codec, Mirror(s.grants, s.subs), e);
    case Reconnected(None) =>
    case Reconnected(Some(es)) => AbsorbBacked(env.codec, Mirror(s.grants, s.subs), SortByTime(es));
  }

  lemma {:induction false} RunBacked(env: Env, s: State, inputs: seq<Input>)
    requires Backed(Mirror(s.grants, s.subs))
    ensures var t := Run(env, s, inputs); Backed(Mirror(t.grants, t.subs))
    decreases inputs
  {
    if inputs != [] {
      RunBacked(env, s, inputs[..|inputs| - 1]);
      StepBacked(env, Run(env, s, inputs[..|inputs| - 1]), inputs[|inputs| - 1]);
    }
  }

  /** Of all who ask, only a controller that some accepted grant heard so far
      covers is ever remembered. */
  lemma SubscribersWereGranted(env: Env, start: Option<seq<Event>>, inputs: seq<Input>, c: PublicKey)
    requires ToHex(c) in Run(env, Boot(env, start), inputs).subs.byController
    ensures GrantedBy(env.authority, History(start, inputs), c)
  {
    StepBacked(env, Blank(env), Reconnected(start));
    RunBacked(env, Boot(env, start), inputs);
    GrantsReplayHistory(env, start, inputs);
    ResolvesIffGranted(env.authority, env.codec.profile, History(start, inputs), c);
  }

  /** The protocol of a request's kind, and what this service implements of it. */
  function ProtocolOf(e: Event): Protocol {
    if e.kind == 23194 then Wallet else Control
  }

  function Implemented(env: Env, protocol: Protocol): seq<string> {
    match protocol
    case Wallet => env.wallet.GetOr([])
    case Control => env.control.GetOr([])
  }

  /** The node was made to do something, or some bucket is not what it was. */
  predicate LeftATrace(u: UsageState, o: Outcome) {
    o.prepared || o.executed || o.usage != u
  }

  lemma TraceWasAdmitted(env: Env, g: GrantStore, u: UsageState, e: Event, now: u64, oracle: Oracle)
    requires LeftATrace(u, Answer(env, g, u, e, now, oracle))
    ensures var d := Decode(env, e);
            && d.Ready? && d.call.protocol == ProtocolOf(e)
            && d.call.name in Implemented(env, ProtocolOf(e))
            && var terms := Authorize(g, d.call.protocol, e.pubkey, d.call.name);
               && terms.Success?
               && Answer(env, g, u, e, now, oracle)
                  == Proceed(env.codec, d.call, terms.value, u, e.pubkey, now, oracle)
  {
  }

  /** The request calls an implemented method, an event heard justifies it, and
      it proceeds under the limits written in that event. */
  ghost predicate RanAsWritten(env: Env, heard: seq<Event>, g: Event, u: UsageState, e: Event, now: u64, oracle: Oracle,
                               o: Outcome)
  {
    var d := Decode(env, e);
    && d.Ready? && d.call.name in Implemented(env, ProtocolOf(e))
    && Justifies(env, heard, g, e.pubkey, ProtocolOf(e), d.call.name)
    && o == Proceed(env.codec, d.call, Written(env, g, ProtocolOf(e), d.call.name).value, u, e.pubkey, now, oracle)
  }

  lemma AnswerIsJustified(env: Env, heard: seq<Event>, store: GrantStore, u: UsageState, e: Event, now: u64,
                          oracle: Oracle)
    returns (g: Event)
    requires store == ReplayGrants(env.codec.profile, env.authority.Start(), heard)
    requires LeftATrace(u, Answer(env, store, u, e, now, oracle))
    ensures RanAsWritten(env, heard, g, u, e, now, oracle, Answer(env, store, u, e, now, oracle))
  {
    TraceWasAdmitted(env, store, u, e, now, oracle);
    g := ResolvedGrantIsJustified(env, heard, e.pubkey, ProtocolOf(e), Decode(env, e).call.name);
  }

  /** In every run, whenever a request makes the node prepare or execute a method
      or touches a bucket, an event already heard justifies it, and the call is
      held to the limits written in that event. */
  lemma ExecutionIsJustified(env: Env, start: Option<seq<Event>>, inputs: seq<Input>, e: Event, now: u64,
                             oracle: Oracle)
    returns (g: Event)
    requires var s := Run(env, Boot(env, start), inputs);
             var o := OnEvent(env, s, e, now, oracle).1;
             o.Some? && LeftATrace(s.usage, o.value)
    ensures var s := Run(env, Boot(env, start), inputs);
            var o := OnEvent(env, s, e, now, oracle).1;
            RanAsWritten(env, History(start, inputs), g, s.usage, e, now, oracle, o.value)
  {
    var s := Run(env, Boot(env, start), inputs);
    GrantsReplayHistory(env, start, inputs);
    g := AnswerIsJustified(env, History(start, inputs), s.grants, s.usage, e, now, oracle);
  }

  /** With no owners configured, nothing is ever prepared, executed or counted. */
  lemma NoOwnersNothingRuns(env: Env, start: Option<seq<Event>>, inputs: seq<Input>, i: Input)
    requires env.authority.owners == []
    ensures var s := Run(env, Boot(env, start), inputs);
            var o := Step(env, s, i).1;
            o.Some? ==> !LeftATrace(s.usage, o.value)
  {
    var s := Run(env, Boot(env, start), inputs);
    var o := Step(env, s, i).1;
    if o.Some? && LeftATrace(s.usage, o.value) {
      var _ := ExecutionIsJustified(env, start, inputs, i.event, i.now, i.oracle);
    }
  }

  // ---------------------------------------------------------------------
  // Going away and coming back
  // ---------------------------------------------------------------------

  /** A relay that comes back leaves the grants that live delivery of everything
      missed would have, if and only if nothing newest is missing from its answer
      and what was heard before. */
  lemma ReconnectCatchesUpIff(env: Env, start: Option<seq<Event>>, inputs: seq<Input>, live: seq<Input>,
                              answer: seq<Event>)
    requires Unambiguous(env.authority, env.codec.profile, History(start, inputs) + Heard(live))
    requires Drawn(History(start, inputs), Heard(live), answer)
    ensures var s, heard := Run(env, Boot(env, start), inputs), History(start, inputs);
            (Step(env, s, Reconnected(Some(answer))).0.grants == Run(env, s, live).grants
             <==> NewsSurvives(env.authority, env.codec.profile, heard + Heard(live), heard + answer))
  {
    var s, heard := Run(env, Boot(env, start), inputs), History(start, inputs);
    SortKeepsEvents(answer);
    GrantsReplayHistory(env, start, inputs);
    RereadCatchesUpIff(env.authority, env.codec.profile, heard, Heard(live), SortByTime(answer));
    SurvivalIgnoresOrder(env, heard + Heard(live), heard, answer, SortByTime(answer));
    StepReplays(env, s, Reconnected(Some(answer)));
    RunReplays(env, s, live);
  }

  lemma SurvivalIgnoresOrder(env: Env, live: seq<Event>, known: seq<Event>, xs: seq<Event>, ys: seq<Event>)
    requires SameEvents(xs, ys)
    ensures NewsSurvives(env.authority, env.codec.profile, live, known + xs)
       <==> NewsSurvives(env.authority, env.codec.profile, live, known + ys)
  {
    assert forall e :: e in known + xs <==> e in known + ys;
  }

  /** A relay that answers with current state is enough for that. */
  lemma ReconnectCatchesUp(env: Env, start: Option<seq<Event>>, inputs: seq<Input>, live: seq<Input>,
                           answer: seq<Event>)
    requires Unambiguous(env.authority, env.codec.profile, History(start, inputs) + Heard(live))
    requires CurrentState(env.authority, History(start, inputs), Heard(live), answer)
    ensures var s := Run(env, Boot(env, start), inputs);
            Step(env, s, Reconnected(Some(answer))).0.grants == Run(env, s, live).grants
  {
    var a, parse, heard := env.authority, env.codec.profile, History(start, inputs);
    RereadCatchesUp(a, parse, heard, Heard(live), answer);
    RereadCatchesUpIff(a, parse, heard, Heard(live), answer);
    ReconnectCatchesUpIff(env, start, inputs, live, answer);
  }

  // ---------------------------------------------------------------------
  // The mirror, and revocation
  // ---------------------------------------------------------------------

  lemma {:induction false} RunKeepsMirror(env: Env, s: State, inputs: seq<Input>)
    requires s.mirror == Mirror(s.grants, s.subs)
    ensures var r := Run(env, s, inputs); r.mirror == Mirror(r.grants, r.subs)
    decreases inputs
  {
    if inputs != [] {
      RunKeepsMirror(env, s, inputs[..|inputs| - 1]);
    }
  }

  /** Once started, notifications always see the grants and subscriptions the
      service itself goes by. */
  lemma {:induction false} MirrorIsLive(env: Env, start: Option<seq<Event>>, inputs: seq<Input>)
    ensures var s := Run(env, Boot(env, start), inputs); s.mirror == Mirror(s.grants, s.subs)
  {
    RunKeepsMirror(env, Boot(env, start), inputs);
  }

  /** Every own grant in `es` that is not older than `since` denies. */
  ghost predicate StillDenied(env: Env, es: seq<Event>, c: PublicKey, denies: UsageProfile -> bool, since: u64) {
    forall e :: e in es && env.authority.Accepts(e, ToHex(c)) && since <= e.createdAt ==>
      denies(GrantFrom(env.codec.profile, e).profile)
  }

  ghost predicate Denying(g: GrantStore, c: PublicKey, denies: UsageProfile -> bool, since: u64) {
    var own := g.GetRaw(ToHex(c));
    own.Some? && since <= own.value.createdAt && denies(own.value.profile)
  }

  lemma {:induction false} DenialStands(env: Env, g: GrantStore, es: seq<Event>, c: PublicKey,
                                        denies: UsageProfile -> bool, since: u64)
    requires g.node == Some(env.authority.node) && g.owners == env.authority.owners
    requires Denying(g, c, denies, since) && StillDenied(env, es, c, denies, since)
    ensures Denying(ReplayGrants(env.codec.profile, g, es), c, denies, since)
    decreases es
  {
    if es != [] {
      var front, last := es[..|es| - 1], es[|es| - 1];
      DenialStands(env, g, front, c, denies, since);
      ApplyAtTarget(env.codec.profile, ReplayGrants(env.codec.profile, g, front), last, ToHex(c));
    }
  }

  /** An own grant that denies something, and is not older than what stood, is
      what the controller resolves to, or a later one that denies it too, until
      one that is not older does not. */
  lemma DenialHolds(env: Env, start: Option<seq<Event>>, before: seq<Input>, e: Event, now: u64, oracle: Oracle,
                    after: seq<Input>, c: PublicKey, denies: UsageProfile -> bool)
    requires env.authority.Accepts(e, ToHex(c))
    requires !Run(env, Boot(env, start), before).grants.Supersedes(ToHex(c), e.createdAt)
    requires denies(GrantFrom(env.codec.profile, e).profile)
    requires StillDenied(env, Heard(after), c, denies, e.createdAt)
    ensures var s := Run(env, Boot(env, start), before + [Arrived(e, now, oracle)] + after);
            s.mirror.grants == s.grants && s.grants.Resolve(c).Success? && denies(s.grants.Resolve(c).value.profile)
  {
    var inputs := before + [Arrived(e, now, oracle)];
    var prior, revoked := Run(env, Boot(env, start), before), Run(env, Boot(env, start), inputs);
    assert inputs[..|before|] == before;
    GrantsReplayHistory(env, start, before);
    ApplyAtTarget(env.codec.profile, prior.grants, e, ToHex(c));
    DenialStands(env, revoked.grants, Heard(after), c, denies, e.createdAt);
    RunConcat(env, Boot(env, start), inputs, after);
    RunReplays(env, revoked, after);
    MirrorIsLive(env, start, inputs + after);
    assert |ToHex(c)| == 64 && |OTHERS| == 6;
  }

  /** A controller whose own grant stopped permitting a type is not among its
      recipients at any later point of the run, until an own grant not older
      than that one permits it again. */
  lemma RevocationEndsDelivery(env: Env, start: Option<seq<Event>>, before: seq<Input>, e: Event, now: u64,
                               oracle: Oracle, after: seq<Input>, c: PublicKey, name: string)
    requires env.authority.Accepts(e, ToHex(c))
    requires !Run(env, Boot(env, start), before).grants.Supersedes(ToHex(c), e.createdAt)
    requires !MayReceive(GrantFrom(env.codec.profile, e).profile, name)
    requires forall x :: x in Heard(after) && env.authority.Accepts(x, ToHex(c)) && e.createdAt <= x.createdAt ==>
               !MayReceive(GrantFrom(env.codec.profile, x).profile, name)
    ensures var s := Run(env, Boot(env, start), before + [Arrived(e, now, oracle)] + after);
            !Entitled(s.mirror.subs, s.mirror.grants, c, name)
  {
    var denies := (p: UsageProfile) => !p.AllowsNotification(name);
    forall x ensures denies(GrantFrom(env.codec.profile, x).profile)
                <==> !MayReceive(GrantFrom(env.codec.profile, x).profile, name)
    {
      NotificationAllowedIff(GrantFrom(env.codec.profile, x).profile, name);
    }
    DenialHolds(env, start, before, e, now, oracle, after, c, denies);
    var s := Run(env, Boot(env, start), before + [Arrived(e, now, oracle)] + after);
    ReceivesIffEntitled(s.mirror.subs, s.mirror.grants, c, name);
  }

  /** A grant that cannot be read, if not older than what stands, takes away
      everything for the rest of the run, whatever stood before and whatever
      everybody else may do, until a not-older own grant can be read. */
  lemma UnreadableRevokes(env: Env, start: Option<seq<Event>>, before: seq<Input>, e: Event, now: u64, oracle: Oracle,
                          after: seq<Input>, c: PublicKey, protocol: Protocol, name: string)
    requires env.authority.Accepts(e, ToHex(c)) && env.codec.profile(e.content).None?
    requires !Run(env, Boot(env, start), before).grants.Supersedes(ToHex(c), e.createdAt)
    requires forall x :: x in Heard(after) && env.authority.Accepts(x, ToHex(c)) && e.createdAt <= x.createdAt ==>
               env.codec.profile(x.content).None?
    ensures var s := Run(env, Boot(env, start), before + [Arrived(e, now, oracle)] + after);
            && Authorize(s.grants, protocol, c, name) == Failure(Restricted)
            && !Entitled(s.mirror.subs, s.mirror.grants, c, name)
  {
    DenialHolds(env, start, before, e, now, oracle, after, c, (p: UsageProfile) => p == EMPTY_PROFILE);
    var s := Run(env, Boot(env, start), before + [Arrived(e, now, oracle)] + after);
    ReceivesIffEntitled(s.mirror.subs, s.mirror.grants, c, name);
  }

  // ---------------------------------------------------------------------
  // Controllers do not interfere
  // ---------------------------------------------------------------------

  predicate RequestOf(i: Input, c: PublicKey) {
    i.Arrived? && IsRequest(i.event) && i.event.pubkey == c
  }

  predicate RequestOfAnother(i: Input, c: PublicKey) {
    i.Arrived? && IsRequest(i.event) && i.event.pubkey != c
  }

  /** The run without any other controller's requests. */
  function OnlyRequestsOf(inputs: seq<Input>, c: PublicKey): seq<Input> {
    if inputs == [] then []
    else
      var front, last := OnlyRequestsOf(inputs[..|inputs| - 1], c), inputs[|inputs| - 1];
      if RequestOfAnother(last, c) then front else front + [last]
  }

  /** What a controller was told, in order. */
  function RepliesTo(env: Env, s: State, inputs: seq<Input>, c: PublicKey): seq<Option<Reply>>
    decreases inputs
  {
    if inputs == [] then []
    else
      var front, last := inputs[..|inputs| - 1], inputs[|inputs| - 1];
      var told := RepliesTo(env, s, front, c);
      if RequestOf(last, c) then told + [ReplyOf(Step(env, Run(env, s, front), last).1)] else told
  }

  /** The two states differ at most in other controllers' buckets. */
  ghost predicate Indistinguishable(c: PublicKey, s: State, t: State) {
    s.grants == t.grants && s.subs == t.subs && s.mirror == t.mirror && SameFor(c, s.usage, t.usage)
  }

  lemma AnswerIsLocal(env: Env, s: State, t: State, e: Event, now: u64, oracle: Oracle)
    requires Indistinguishable(e.pubkey, s, t)
    ensures var x, y := Answer(env, s.grants, s.usage, e, now, oracle), Answer(env, t.grants, t.usage, e, now, oracle);
            x.reply == y.reply && SameFor(e.pubkey, x.usage, y.usage)
  {
    var d := Decode(env, e);
    if d.Ready? {
      HandleIsLocal(env.codec, d.call, d.methods, s.grants, s.usage, t.usage, e.pubkey, now, oracle);
    }
  }

  lemma StepIsLocal(env: Env, s: State, t: State, i: Input, c: PublicKey)
    requires Indistinguishable(c, s, t) && !RequestOfAnother(i, c)
    ensures Indistinguishable(c, Step(env, s, i).0, Step(env, t, i).0)
    ensures ReplyOf(Step(env, s, i).1) == ReplyOf(Step(env, t, i).1)
  {
    if RequestOf(i, c) {
      AnswerIsLocal(env, s, t, i.event, i.now, i.oracle);
    }
  }

  lemma OthersStepUnseen(env: Env, s: State, i: Input, c: PublicKey)
    requires RequestOfAnother(i, c)
    ensures Indistinguishable(c, Step(env, s, i).0, s)
  {
    var d := Decode(env, i.event);
    if d.Ready? {
      HandleSparesOthers(env.codec, d.call, d.methods, s.grants, s.usage, i.event.pubkey, i.now, i.oracle, c);
    }
  }

  /** Deleting every other controller's requests from a run leaves a controller's
      answers and buckets exactly as they were, also when all of them share the
      grant for everybody else. */
  lemma {:induction false} NonInterference(env: Env, s: State, inputs: seq<Input>, c: PublicKey)
    ensures Indistinguishable(c, Run(env, s, inputs), Run(env, s, OnlyRequestsOf(inputs, c)))
    ensures RepliesTo(env, s, inputs, c) == RepliesTo(env, s, OnlyRequestsOf(inputs, c), c)
    decreases inputs
  {
    if inputs != [] {
      var front, last := inputs[..|inputs| - 1], inputs[|inputs| - 1];
      NonInterference(env, s, front, c);
      var full, alone := Run(env, s, front), Run(env, s, OnlyRequestsOf(front, c));
      if RequestOfAnother(last, c) {
        OthersStepUnseen(env, full, last, c);
      } else {
        var kept := OnlyRequestsOf(front, c) + [last];
        assert kept[..|kept| - 1] == OnlyRequestsOf(front, c);
        StepIsLocal(env, full, alone, last, c);
      }
    }
  }
}
