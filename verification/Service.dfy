/** The node service as one state machine: grants, subscriptions, buckets and
    the mirror that notifications are delivered from, driven by whatever the
    relays bring. */
module Service {
  import opened Wrappers
  import opened Limit
  import opened UsageStore
  import opened Events
  import opened Grants
  import opened Replay
  import opened Codecs
  import opened Subscriptions
  import opened Pipeline

  /** What is fixed for a service's lifetime. A protocol it does not speak has
      no method list. */
  datatype Env = Env(authority: Authority, codec: Codec, wallet: Option<seq<string>>, control: Option<seq<string>>)

  /** Who is entitled to what, as notifications see it. */
  datatype Mirror = Mirror(grants: GrantStore, subs: SubStore)

  datatype State = State(grants: GrantStore, subs: SubStore, usage: UsageState, mirror: Mirror)

  /** An event with the clock and the handler's answers at that moment, or a
      relay coming back, with what the query for current state returned. */
  datatype Input =
    | Arrived(event: Event, now: u64, oracle: Oracle)
    | Reconnected(answer: Option<seq<Event>>)

  /** A request reaching the pipeline, or failing to. */
  datatype Decoded = Undecoded(code: ErrorCode) | Ready(call: Call, methods: seq<string>)

  /** Step 1, and which handler serves the request's kind. */
  function Decode(env: Env, e: Event): Decoded {
    match env.codec.decrypt(e.pubkey, e.content)
    case None => Undecoded(UnsupportedEncryption)
    case Some(plaintext) =>
      match env.codec.request(plaintext)
      case None => Undecoded(Other)
      case Some(request) =>
        var protocol := if e.kind == WALLET_REQUEST_KIND then Wallet else Control;
        match if protocol == Wallet then env.wallet else env.control
        case None => Undecoded(NotImplemented)
        case Some(methods) => Ready(CallFor(protocol, request), methods)
  }

  function Answer(env: Env, grants: GrantStore, u: UsageState, e: Event, now: u64, oracle: Oracle): Outcome {
    match Decode(env, e)
    case Undecoded(code) => Refused(code, u)
    case Ready(call, methods) => Handle(env.codec, call, methods, grants, u, e.pubkey, now, oracle)
  }

  predicate IsRequest(e: Event) {
    e.kind == WALLET_REQUEST_KIND || e.kind == CONTROL_REQUEST_KIND
  }

  // ---------------------------------------------------------------------
  // Reading current state
  // ---------------------------------------------------------------------

  function InsertByTime(e: Event, es: seq<Event>): seq<Event> {
    if es == [] || e.createdAt <= es[0].createdAt then [e] + es
    else [es[0]] + InsertByTime(e, es[1..])
  }

  /** Oldest first; events of the same second keep their order. */
  function SortByTime(es: seq<Event>): seq<Event> {
    if es == [] then [] else InsertByTime(es[0], SortByTime(es[1..]))
  }

  ghost predicate OldestFirst(es: seq<Event>) {
    forall i, j :: 0 <= i < j < |es| ==> es[i].createdAt <= es[j].createdAt
  }

  function AtTime(es: seq<Event>, t: u64): seq<Event> {
    if es == [] then []
    else if es[0].createdAt == t then [es[0]] + AtTime(es[1..], t)
    else AtTime(es[1..], t)
  }

  lemma {:induction false} InsertKeeps(e: Event, es: seq<Event>)
    ensures multiset(InsertByTime(e, es)) == multiset([e]) + multiset(es)
  {
    if es != [] && es[0].createdAt < e.createdAt {
      InsertKeeps(e, es[1..]);
      assert es == [es[0]] + es[1..];
    }
  }

  lemma {:induction false} InsertSorts(e: Event, es: seq<Event>)
    requires OldestFirst(es)
    ensures OldestFirst(InsertByTime(e, es))
    ensures forall x :: x in InsertByTime(e, es) ==> x == e || x in es
  {
    if es != [] && es[0].createdAt < e.createdAt {
      InsertSorts(e, es[1..]);
      assert forall x :: x in es[1..] ==> es[0].createdAt <= x.createdAt;
    }
  }

  lemma {:induction false} InsertIsStable(e: Event, es: seq<Event>, t: u64)
    ensures AtTime(InsertByTime(e, es), t) == if e.createdAt == t then [e] + AtTime(es, t) else AtTime(es, t)
  {
    var r := InsertByTime(e, es);
    if es == [] || e.createdAt <= es[0].createdAt {
      assert r[1..] == es;
    } else {
      InsertIsStable(e, es[1..], t);
      assert r[1..] == InsertByTime(e, es[1..]);
    }
  }

  /** Sorting loses nothing, orders by time, and is stable. */
  lemma {:induction false} SortIsStable(es: seq<Event>, t: u64)
    ensures OldestFirst(SortByTime(es))
    ensures multiset(SortByTime(es)) == multiset(es)
    ensures AtTime(SortByTime(es), t) == AtTime(es, t)
  {
    if es != [] {
      SortIsStable(es[1..], t);
      InsertKeeps(es[0], SortByTime(es[1..]));
      InsertSorts(es[0], SortByTime(es[1..]));
      InsertIsStable(es[0], SortByTime(es[1..]), t);
      assert es == [es[0]] + es[1..];
    }
  }

  lemma SortKeepsEvents(es: seq<Event>)
    ensures SameEvents(SortByTime(es), es)
  {
    SortIsStable(es, 0);
    forall e ensures e in SortByTime(es) <==> e in es {
      assert e in SortByTime(es) <==> e in multiset(SortByTime(es));
    }
  }

  /** Grants and subscriptions are read in one pass, oldest first. */
  function AbsorbOne(codec: Codec, m: Mirror, e: Event): Mirror {
    if e.kind == GRANT_KIND then m.(grants := m.grants.Apply(codec.profile, e).0)
    else m.(subs := m.subs.Apply(codec, m.grants, e).0)
  }

  function Absorb(codec: Codec, m: Mirror, es: seq<Event>): Mirror
    decreases es
  {
    if es == [] then m
    else AbsorbOne(codec, Absorb(codec, m, es[..|es| - 1]), es[|es| - 1])
  }

  function Reread(codec: Codec, m: Mirror, answer: Option<seq<Event>>): Mirror {
    match answer
    case None => m
    case Some(es) => Absorb(codec, m, SortByTime(es))
  }

  // ---------------------------------------------------------------------
  // Steps and runs
  // ---------------------------------------------------------------------

  function OnEvent(env: Env, s: State, e: Event, now: u64, oracle: Oracle): (State, Option<Outcome>) {
    if e.kind == GRANT_KIND then
      var grants := s.grants.Apply(env.codec.profile, e).0;
      (s.(grants := grants, mirror := Mirror(grants, s.subs)), None)
    else if e.kind == SUBSCRIPTION_KIND then
      var subs := s.subs.Apply(env.codec, s.grants, e).0;
      (s.(subs := subs, mirror := Mirror(s.grants, subs)), None)
    else if IsRequest(e) then
      var outcome := Answer(env, s.grants, s.usage, e, now, oracle);
      (s.(usage := outcome.usage), Some(outcome))
    else (s, None)
  }

  function Step(env: Env, s: State, i: Input): (State, Option<Outcome>) {
    match i
    case Arrived(e, now, oracle) => OnEvent(env, s, e, now, oracle)
    case Reconnected(answer) =>
      var m := Reread(env.codec, Mirror(s.grants, s.subs), answer);
      (s.(grants := m.grants, subs := m.subs, mirror := m), None)
  }

  function Run(env: Env, s: State, inputs: seq<Input>): State
    decreases inputs
  {
    if inputs == [] then s
    else Step(env, Run(env, s, inputs[..|inputs| - 1]), inputs[|inputs| - 1]).0
  }

  /** What each input was answered, if it was a request. */
  function Replies(env: Env, s: State, inputs: seq<Input>): (r: seq<Option<Reply>>)
    ensures |r| == |inputs|
    decreases inputs
  {
    if inputs == [] then []
    else
      var front := inputs[..|inputs| - 1];
      Replies(env, s, front) + [ReplyOf(Step(env, Run(env, s, front), inputs[|inputs| - 1]).1)]
  }

  function ReplyOf(o: Option<Outcome>): Option<Reply> {
    match o
    case None => None
    case Some(outcome) => Some(outcome.reply)
  }

  /** Before anything is read; the mirror exists before the service runs. */
  function Blank(env: Env): State {
    var g, s := NoGrants(env.authority.node, env.authority.owners), NoSubscriptions(env.authority.node);
    State(g, s, NOTHING_SPENT, Mirror(GrantStore(None, [], map[], None), SubStore(None, map[])))
  }

  /** Starting reads current state exactly as a reconnect does. */
  function Boot(env: Env, answer: Option<seq<Event>>): State {
    Step(env, Blank(env), Reconnected(answer)).0
  }

  lemma {:induction false} RunConcat(env: Env, s: State, xs: seq<Input>, ys: seq<Input>)
    ensures Run(env, s, xs + ys) == Run(env, Run(env, s, xs), ys)
    decreases ys
  {
    if ys == [] {
      assert xs + ys == xs;
    } else {
      var front := ys[..|ys| - 1];
      RunConcat(env, s, xs, front);
      assert (xs + ys)[..|xs + ys| - 1] == xs + front;
    }
  }

  lemma OneMoreInput(env: Env, s: State, inputs: seq<Input>, i: nat)
    requires i < |inputs|
    ensures var step := Step(env, Run(env, s, inputs[..i]), inputs[i]);
            && Run(env, s, inputs[..i + 1]) == step.0
            && Replies(env, s, inputs[..i + 1]) == Replies(env, s, inputs[..i]) + [ReplyOf(step.1)]
  {
    assert inputs[..i + 1][..i] == inputs[..i];
  }

  // ---------------------------------------------------------------------
  // The service as it runs
  // ---------------------------------------------------------------------

  class Service {
    const env: Env
    /** What notifiers read. */
    var delivery: Mirror

    constructor (env: Env)
      ensures this.env == env && delivery == Blank(env).mirror
    {
      this.env := env;
      delivery := Mirror(GrantStore(None, [], map[], None), SubStore(None, map[]));
    }

    method Refresh(grants: Grants, subs: Subscriptions, answer: Option<seq<Event>>)
      modifies grants, subs
      ensures Mirror(grants.View(), subs.View())
           == Reread(env.codec, Mirror(old(grants.View()), old(subs.View())), answer)
    {
      if answer.None? {
        return;
      }
      var list := SortByTime(answer.value);
      ghost var start := Mirror(grants.View(), subs.View());
      for i := 0 to |list|
        invariant Mirror(grants.View(), subs.View()) == Absorb(env.codec, start, list[..i])
      {
        assert list[..i + 1][..i] == list[..i];
        if list[i].kind == GRANT_KIND {
          var _ := grants.Apply(env.codec.profile, list[i]);
        } else {
          var _ := subs.Apply(env.codec, grants, list[i]);
        }
      }
      assert list[..|list|] == list;
    }

    method MirrorNow(grants: Grants, subs: Subscriptions)
      modifies this
      ensures delivery == Mirror(grants.View(), subs.View())
    {
      delivery := Mirror(GrantStore(grants.node, grants.owners, grants.byController, grants.others),
                         SubStore(subs.node, subs.byController));
    }

    method AnswerRequest(grants: Grants, usage: Usage, e: Event, now: u64, oracle: Oracle) returns (reply: Reply)
      requires usage.Valid()
      modifies usage, usage.Buckets()
      ensures usage.Valid() && fresh(usage.Buckets() - old(usage.Buckets()))
      ensures var o := Answer(env, grants.View(), old(usage.View()), e, now, oracle);
              reply == o.reply && usage.View() == o.usage
    {
      var decoded := Decode(env, e);
      match decoded
      case Undecoded(code) =>
        reply := Failure(code);
      case Ready(call, methods) =>
        reply := Serve(env.codec, call, methods, grants, usage, e.pubkey, now, oracle);
    }

    method OnGrant(grants: Grants, subs: Subscriptions, e: Event)
      modifies this, grants
      ensures grants.View() == old(grants.View()).Apply(env.codec.profile, e).0
      ensures delivery == Mirror(grants.View(), subs.View())
    {
      var _ := grants.Apply(env.codec.profile, e);
      MirrorNow(grants, subs);
    }

    method OnSubscription(grants: Grants, subs: Subscriptions, e: Event)
      modifies this, subs
      ensures subs.View() == old(subs.View()).Apply(env.codec, grants.View(), e).0
      ensures delivery == Mirror(grants.View(), subs.View())
    {
      var _ := subs.Apply(env.codec, grants, e);
      MirrorNow(grants, subs);
    }

    method OnRelayEvent(grants: Grants, subs: Subscriptions, usage: Usage, e: Event, now: u64, oracle: Oracle)
      returns (reply: Option<Reply>)
      requires usage.Valid()
      modifies this, grants, subs, usage, usage.Buckets()
      ensures usage.Valid() && fresh(usage.Buckets() - old(usage.Buckets()))
      ensures var was := old(State(grants.View(), subs.View(), usage.View(), delivery));
              && State(grants.View(), subs.View(), usage.View(), delivery) == OnEvent(env, was, e, now, oracle).0
              && reply == ReplyOf(OnEvent(env, was, e, now, oracle).1)
    {
      reply := None;
      if e.kind == GRANT_KIND {
        OnGrant(grants, subs, e);
      } else if e.kind == SUBSCRIPTION_KIND {
        OnSubscription(grants, subs, e);
      } else if IsRequest(e) {
        var answer := AnswerRequest(grants, usage, e, now, oracle);
        reply := Some(answer);
      }
    }

    method React(grants: Grants, subs: Subscriptions, usage: Usage, i: Input) returns (reply: Option<Reply>)
      requires usage.Valid()
      modifies this, grants, subs, usage, usage.Buckets()
      ensures usage.Valid() && fresh(usage.Buckets() - old(usage.Buckets()))
      ensures var was := old(State(grants.View(), subs.View(), usage.View(), delivery));
              && State(grants.View(), subs.View(), usage.View(), delivery) == Step(env, was, i).0
              && reply == ReplyOf(Step(env, was, i).1)
    {
      match i
      case Reconnected(answer) =>
        Refresh(grants, subs, answer);
        MirrorNow(grants, subs);
        reply := None;
      case Arrived(e, now, oracle) =>
        reply := OnRelayEvent(grants, subs, usage, e, now, oracle);
    }

    /** Start, then answer until the stream ends. */
    method Loop(start: Option<seq<Event>>, inputs: seq<Input>) returns (replies: seq<Option<Reply>>)
      requires delivery == Blank(env).mirror
      modifies this
      ensures replies == Replies(env, Boot(env, start), inputs)
      ensures delivery == Run(env, Boot(env, start), inputs).mirror
    {
      var grants := new Grants(env.authority.node, env.authority.owners);
      var subs := new Subscriptions(env.authority.node);
      var usage := new Usage();
      var _ := React(grants, subs, usage, Reconnected(start));
      ghost var boot := Boot(env, start);
      replies := [];
      for i := 0 to |inputs|
        invariant usage.Valid() && fresh(usage) && fresh(usage.Buckets())
        invariant State(grants.View(), subs.View(), usage.View(), delivery) == Run(env, boot, inputs[..i])
        invariant replies == Replies(env, boot, inputs[..i])
      {
        OneMoreInput(env, boot, inputs, i);
        var reply := React(grants, subs, usage, inputs[i]);
        replies := replies + [reply];
      }
      assert inputs[..|inputs|] == inputs;
    }
  }
}
