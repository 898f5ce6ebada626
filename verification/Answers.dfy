/** The answer every request is due, read off the events heard, the tokens left
    and what the node says: who is answered at all, who is refused and why, and
    that whoever is not refused is served. */
module Answers {
  import opened Wrappers
  import opened Keys
  import opened Limit
  import opened UsageStore
  import opened Events
  import opened Profile
  import opened Grants
  import opened Replay
  import opened Codecs
  import opened Pipeline
  import opened Requests
  import opened Service
  import opened Runs

  // ---------------------------------------------------------------------
  // Every request is answered
  // ---------------------------------------------------------------------

  /** A wallet request or a control request arrives. */
  ghost predicate Asked(i: Input) {
    i.Arrived? && (i.event.kind == 23194 || i.event.kind == 23198)
  }

  /** What each kind of event does, by its number, and nothing else does anything. */
  lemma StepByKind(env: Env, s: State, e: Event, now: u64, oracle: Oracle)
    ensures var (t, o) := Step(env, s, Arrived(e, now, oracle));
            var answer := Answer(env, s.grants, s.usage, e, now, oracle);
            && (e.kind == 23194 || e.kind == 23198 <==> o == Some(answer))
            && (o == None || o == Some(answer))
            && t.usage == (if o.Some? then answer.usage else s.usage)
            && t.grants == (if e.kind == 30198 then s.grants.Apply(env.codec.profile, e).0 else s.grants)
            && t.subs == (if e.kind == 30199 then s.subs.Apply(env.codec, s.grants, e).0 else s.subs)
  {
  }

  /** Over a whole run, an input is answered exactly if it is a request, with the
      answer to it at that point. */
  lemma {:induction false} EveryRequestIsAnswered(env: Env, s: State, inputs: seq<Input>, k: nat)
    requires k < |inputs|
    ensures var was, i := Run(env, s, inputs[..k]), inputs[k];
            && (Replies(env, s, inputs)[k].Some? <==> Asked(i))
            && (Asked(i) ==>
                  Replies(env, s, inputs)[k]
                  == Some(Answer(env, was.grants, was.usage, i.event, i.now, i.oracle).reply))
    decreases inputs
  {
    var front := inputs[..|inputs| - 1];
    if k < |front| {
      EveryRequestIsAnswered(env, s, front, k);
      assert front[..k] == inputs[..k];
    } else if inputs[k].Arrived? {
      StepByKind(env, Run(env, s, front), inputs[k].event, inputs[k].now, inputs[k].oracle);
    }
  }

  // ---------------------------------------------------------------------
  // The answer
  // ---------------------------------------------------------------------

  /** The request in an event, if it can be decrypted and read. */
  function Carried(env: Env, e: Event): Option<Request> {
    match env.codec.decrypt(e.pubkey, e.content)
    case None => None
    case Some(plaintext) => env.codec.request(plaintext)
  }

  /** The event this controller's rights come from, if there is one. */
  ghost predicate ApplyingIs(env: Env, heard: seq<Event>, c: PublicKey, g: Option<Event>) {
    match g
    case None => forall e :: !Applies(env.authority, heard, e, c)
    case Some(e) => Applies(env.authority, heard, e, c)
  }

  lemma SomeApplyingIs(env: Env, heard: seq<Event>, c: PublicKey) returns (g: Option<Event>)
    ensures ApplyingIs(env, heard, c, g)
  {
    g := None;
    if e :| Applies(env.authority, heard, e, c) {
      g := Some(e);
    }
  }

  /** No event applies, or the one that does has an impossible period in it. */
  ghost predicate Unentitled(env: Env, g: Option<Event>) {
    g.None? || (env.codec.profile(g.value.content).Some? && !Usable(env.codec.profile(g.value.content).value))
  }

  /** The terms an event's author wrote for a method, if the event is usable. */
  ghost function TermsIn(env: Env, g: Option<Event>, protocol: Protocol, name: string): (t: Option<Terms>)
    ensures t.Some? ==> ValidTerms(t.value)
  {
    if Unentitled(env, g) then None else Written(env, g.value, protocol, name)
  }

  /** Why a request is not put to the node: the first that holds, in this order. */
  ghost function Obstacle(env: Env, g: Option<Event>, u: UsageState, e: Event, now: u64): Option<ErrorCode> {
    if env.codec.decrypt(e.pubkey, e.content).None? then Some(UnsupportedEncryption)
    else if Carried(env, e).None? then Some(Other)
    else
      var r, protocol := Carried(env, e).value, ProtocolOf(e);
      if r.name !in Implemented(env, protocol) then Some(NotImplemented)
      else if Unentitled(env, g) then Some(UnauthorizedCode)
      else if TermsIn(env, g, protocol, r.name).None? then Some(RestrictedCode)
      else if TypeFor(protocol, r.name).None? then Some(NotImplemented)
      else if !env.codec.fits(TypeFor(protocol, r.name).value, r.params) then Some(Other)
      else if !HasToken(u, e.pubkey, r.name, TermsIn(env, g, protocol, r.name).value.rate, now) then Some(RateLimited)
      else None
  }

  /** The quota the caller is held to covers the cost. */
  ghost predicate Pays(env: Env, g: Option<Event>, u: UsageState, e: Event, cost: u64, now: u64)
    requires Obstacle(env, g, u, e, now).None?
  {
    Covered(u, e.pubkey, cost, TermsIn(env, g, ProtocolOf(e), Carried(env, e).value.name).value.quota, now)
  }

  /** What a caller is told. */
  ghost function Due(env: Env, g: Option<Event>, u: UsageState, e: Event, now: u64, oracle: Oracle): Reply {
    match Obstacle(env, g, u, e, now)
    case Some(code) => Failure(code)
    case None =>
      match oracle.prepared
      case Failure(code) => Failure(code)
      case Success(cost) => if Pays(env, g, u, e, cost, now) then oracle.executed else Failure(QuotaExceeded)
  }

  /** Authorization, read off the event that applies. */
  lemma AuthorizedAsWritten(env: Env, heard: seq<Event>, c: PublicKey, protocol: Protocol, name: string,
                            g: Option<Event>)
    requires ApplyingIs(env, heard, c, g)
    ensures Authorize(ReplayGrants(env.codec.profile, env.authority.Start(), heard), protocol, c, name)
         == if Unentitled(env, g) then Failure(Unauthorized)
            else match TermsIn(env, g, protocol, name)
                 case None => Failure(Restricted)
                 case Some(terms) => Success(terms)
  {
    ResolvesToApplying(env.authority, env.codec.profile, heard, c);
    if g.Some? {
      AllowedAsWritten(env, g.value, protocol, name);
      ValidIffUsable(GrantFrom(env.codec.profile, g.value).profile);
      UnauthorizedMeansInvalid(GrantFrom(env.codec.profile, g.value).profile, protocol, name);
    }
  }

  lemma DecodesAsCarried(env: Env, e: Event)
    ensures match Decode(env, e)
            case Undecoded(code) =>
              code == if env.codec.decrypt(e.pubkey, e.content).None? then UnsupportedEncryption
                      else if Carried(env, e).None? then Other
                      else NotImplemented
            case Ready(call, methods) =>
              Carried(env, e).Some? && call == CallFor(ProtocolOf(e), Carried(env, e).value)
              && methods == Implemented(env, ProtocolOf(e))
    ensures Decode(env, e).Undecoded? && Carried(env, e).Some? ==> Implemented(env, ProtocolOf(e)) == []
  {
  }

  /** Steps 2 to 4, read off the event that applies. */
  lemma AdmittedAsWritten(env: Env, heard: seq<Event>, c: PublicKey, protocol: Protocol, r: Request, call: Call,
                          methods: seq<string>, g: Option<Event>)
    requires ApplyingIs(env, heard, c, g) && call == CallFor(protocol, r)
    ensures Admit(env.codec, call, methods, ReplayGrants(env.codec.profile, env.authority.Start(), heard), c)
         == if r.name !in methods then Failure(NotImplemented)
            else if Unentitled(env, g) then Failure(UnauthorizedCode)
            else if TermsIn(env, g, protocol, r.name).None? then Failure(RestrictedCode)
            else if TypeFor(protocol, r.name).None? then Failure(NotImplemented)
            else if !env.codec.fits(TypeFor(protocol, r.name).value, r.params) then Failure(Other)
            else Success(TermsIn(env, g, protocol, r.name).value)
  {
    CallKeepsRequest(protocol, r);
    AuthorizedAsWritten(env, heard, c, protocol, r.name, g);
  }

  /** The answer to any request, given what was heard before it. */
  lemma AnswerIsDue(env: Env, heard: seq<Event>, store: GrantStore, u: UsageState, e: Event, now: u64, oracle: Oracle,
                    g: Option<Event>)
    requires store == ReplayGrants(env.codec.profile, env.authority.Start(), heard)
    requires ApplyingIs(env, heard, e.pubkey, g)
    ensures var o := Answer(env, store, u, e, now, oracle);
            && o.reply == Due(env, g, u, e, now, oracle)
            && (o.prepared <==> Obstacle(env, g, u, e, now).None?)
            && (o.executed <==> o.prepared && oracle.prepared.Success? &&
                                Pays(env, g, u, e, oracle.prepared.value, now))
  {
    DecodesAsCarried(env, e);
    match Decode(env, e)
    case Undecoded(_) =>
    case Ready(call, methods) =>
      var r, protocol := Carried(env, e).value, ProtocolOf(e);
      AdmittedAsWritten(env, heard, e.pubkey, protocol, r, call, methods, g);
      CallKeepsRequest(protocol, r);
      var admitted := Admit(env.codec, call, methods, store, e.pubkey);
      if admitted.Success? {
        AdmittedIsDue(env.codec, call, admitted.value, u, e.pubkey, now, oracle);
      }
  }

  /** At every point of every run, a request is told exactly what it is due. */
  lemma EveryAnswerIsDue(env: Env, start: Option<seq<Event>>, inputs: seq<Input>, e: Event, now: u64, oracle: Oracle,
                         g: Option<Event>)
    requires ApplyingIs(env, History(start, inputs), e.pubkey, g)
    ensures var s := Run(env, Boot(env, start), inputs);
            var o := Answer(env, s.grants, s.usage, e, now, oracle);
            && o.reply == Due(env, g, s.usage, e, now, oracle)
            && (o.prepared <==> Obstacle(env, g, s.usage, e, now).None?)
            && (o.executed <==> o.prepared && oracle.prepared.Success? &&
                                Pays(env, g, s.usage, e, oracle.prepared.value, now))
  {
    var s := Run(env, Boot(env, start), inputs);
    GrantsReplayHistory(env, start, inputs);
    AnswerIsDue(env, History(start, inputs), s.grants, s.usage, e, now, oracle, g);
  }

  /** And leaves exactly the buckets it should: none is touched unless the request
      gets as far as the rate limit. */
  lemma AnswerLeaves(env: Env, heard: seq<Event>, store: GrantStore, u: UsageState, e: Event, now: u64, oracle: Oracle,
                     g: Option<Event>)
    requires store == ReplayGrants(env.codec.profile, env.authority.Start(), heard)
    requires ApplyingIs(env, heard, e.pubkey, g)
    ensures var o, obstacle := Answer(env, store, u, e, now, oracle), Obstacle(env, g, u, e, now);
            if obstacle.Some? && obstacle != Some(RateLimited) then o.usage == u
            else var r := Carried(env, e).value;
                 LeavesBuckets(u, e.pubkey, r.name, TermsIn(env, g, ProtocolOf(e), r.name).value, now, oracle, o)
  {
    DecodesAsCarried(env, e);
    match Decode(env, e)
    case Undecoded(_) =>
    case Ready(call, methods) =>
      var r, protocol := Carried(env, e).value, ProtocolOf(e);
      AdmittedAsWritten(env, heard, e.pubkey, protocol, r, call, methods, g);
      CallKeepsRequest(protocol, r);
      var admitted := Admit(env.codec, call, methods, store, e.pubkey);
      if admitted.Success? {
        AdmittedLeaves(env.codec, call, admitted.value, u, e.pubkey, now, oracle);
      }
  }

  lemma EveryAnswerLeaves(env: Env, start: Option<seq<Event>>, inputs: seq<Input>, e: Event, now: u64, oracle: Oracle,
                          g: Option<Event>)
    requires ApplyingIs(env, History(start, inputs), e.pubkey, g)
    ensures var s := Run(env, Boot(env, start), inputs);
            var o, obstacle := Answer(env, s.grants, s.usage, e, now, oracle), Obstacle(env, g, s.usage, e, now);
            if obstacle.Some? && obstacle != Some(RateLimited) then o.usage == s.usage
            else var r := Carried(env, e).value;
                 LeavesBuckets(s.usage, e.pubkey, r.name, TermsIn(env, g, ProtocolOf(e), r.name).value, now, oracle, o)
  {
    var s := Run(env, Boot(env, start), inputs);
    GrantsReplayHistory(env, start, inputs);
    AnswerLeaves(env, History(start, inputs), s.grants, s.usage, e, now, oracle, g);
  }

  /** A caller nobody granted anything is told which stage its request failed at,
      and for an implemented method the same whatever its parameters are; and it
      leaves no trace in the buckets. */
  lemma StrangersLearnNothing(env: Env, start: Option<seq<Event>>, inputs: seq<Input>, e: Event, now: u64,
                              oracle: Oracle)
    requires !GrantedBy(env.authority, History(start, inputs), e.pubkey)
    ensures var s := Run(env, Boot(env, start), inputs);
            var o := Answer(env, s.grants, s.usage, e, now, oracle);
            && !LeftATrace(s.usage, o)
            && o.reply == Failure(if env.codec.decrypt(e.pubkey, e.content).None? then UnsupportedEncryption
                                  else if Carried(env, e).None? then Other
                                  else if Carried(env, e).value.name in Implemented(env, ProtocolOf(e))
                                  then UnauthorizedCode
                                  else NotImplemented)
  {
    forall x ensures !Applies(env.authority, History(start, inputs), x, e.pubkey) {
      NothingApplies(env.authority, History(start, inputs), e.pubkey, x);
    }
    EveryAnswerIsDue(env, start, inputs, e, now, oracle, None);
    EveryAnswerLeaves(env, start, inputs, e, now, oracle, None);
  }

  lemma NothingApplies(a: Authority, heard: seq<Event>, c: PublicKey, e: Event)
    requires !GrantedBy(a, heard, c)
    ensures !Applies(a, heard, e, c)
  {
    if Applies(a, heard, e, c) {
      var target := if a.Stands(heard, ToHex(c), e) then ToHex(c) else OTHERS;
      OneStands(a, heard, target, e, e);
    }
  }

  /** Everything it takes to be served. */
  ghost predicate Entitles(env: Env, heard: seq<Event>, g: Event, u: UsageState, e: Event, now: u64, oracle: Oracle) {
    && Carried(env, e).Some?
    && var r, protocol, c := Carried(env, e).value, ProtocolOf(e), e.pubkey;
       && r.name in Implemented(env, protocol)
       && Justifies(env, heard, g, c, protocol, r.name)
       && TypeFor(protocol, r.name).Some? && env.codec.fits(TypeFor(protocol, r.name).value, r.params)
       && var terms := Written(env, g, protocol, r.name).value;
          && ValidTerms(terms)
          && HasToken(u, c, r.name, terms.rate, now)
          && oracle.prepared.Success? && Covered(u, c, oracle.prepared.value, terms.quota, now)
  }

  lemma JustifyingApplies(env: Env, heard: seq<Event>, g: Event, c: PublicKey, protocol: Protocol, name: string)
    ensures Justifies(env, heard, g, c, protocol, name)
       <==> Applies(env.authority, heard, g, c) && TermsIn(env, Some(g), protocol, name).Some?
  {
    AcceptedIff(env.authority, g, ToHex(c));
    AcceptedIff(env.authority, g, OTHERS);
    if env.codec.profile(g.content).Some? {
      ValidIffUsable(env.codec.profile(g.content).value);
    }
  }

  lemma EntitlesIffClear(env: Env, heard: seq<Event>, g: Event, u: UsageState, e: Event, now: u64, oracle: Oracle)
    ensures Entitles(env, heard, g, u, e, now, oracle)
       <==> (&& Applies(env.authority, heard, g, e.pubkey)
             && Obstacle(env, Some(g), u, e, now).None?
             && oracle.prepared.Success? && Pays(env, Some(g), u, e, oracle.prepared.value, now))
  {
    if Carried(env, e).Some? {
      JustifyingApplies(env, heard, g, e.pubkey, ProtocolOf(e), Carried(env, e).value.name);
    }
  }

  /** A request is executed, and answered with what the node says then, if and
      only if it asks for an implemented method, an event heard justifies it, its
      parameters fit, it has a token left, the node can prepare it, and the quota
      covers the cost. */
  lemma ExecutedIff(env: Env, start: Option<seq<Event>>, inputs: seq<Input>, e: Event, now: u64, oracle: Oracle)
    ensures var s := Run(env, Boot(env, start), inputs);
            var o := Answer(env, s.grants, s.usage, e, now, oracle);
            && (o.executed <==>
                exists g :: Entitles(env, History(start, inputs), g, s.usage, e, now, oracle))
            && (o.executed ==> o.reply == oracle.executed)
  {
    var heard, s := History(start, inputs), Run(env, Boot(env, start), inputs);
    var o := Answer(env, s.grants, s.usage, e, now, oracle);
    if x :| Entitles(env, heard, x, s.usage, e, now, oracle) {
      EntitlesIffClear(env, heard, x, s.usage, e, now, oracle);
      EveryAnswerIsDue(env, start, inputs, e, now, oracle, Some(x));
    } else if o.executed {
      var g := SomeApplyingIs(env, heard, e.pubkey);
      EveryAnswerIsDue(env, start, inputs, e, now, oracle, g);
      EntitlesIffClear(env, heard, g.value, s.usage, e, now, oracle);
    }
  }
}
