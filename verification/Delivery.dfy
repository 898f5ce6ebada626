/** Sending a notification out: the list of recipients, and the tags that tell
    each of them what it is about. */
module Delivery {
  import opened Wrappers
  import opened Keys
  import opened Limit
  import opened Events
  import opened Codecs
  import opened Subscriptions
  import opened Service

  /** A recipient asked for this with a request, by subscribing, or both; one of
      the three always holds. */
  datatype Cause = Command(id: EventId) | Subscription | Both(id: EventId) {
    function RequestId(): Option<EventId> {
      match this
      case Command(id) => Some(id)
      case Both(id) => Some(id)
      case Subscription => None
    }

    predicate IsSubscription() {
      Subscription? || Both?
    }
  }

  type Caller = Option<(PublicKey, EventId)>

  type Plan = seq<(PublicKey, Cause)>

  /** What one controller is due, read off the delivery rule: the caller its
      result, a subscriber its subscription, both in one notification. */
  ghost function Due(m: Mirror, name: string, caller: Caller, c: PublicKey): Option<Cause> {
    var subscribed := Entitled(m.subs, m.grants, c, name);
    if caller.Some? && caller.value.0 == c then
      Some(if subscribed then Both(caller.value.1) else Command(caller.value.1))
    else if subscribed then Some(Subscription)
    else None
  }

  /** Everyone gets exactly what they are due, once. */
  ghost predicate Fulfils(plan: Plan, m: Mirror, name: string, caller: Caller) {
    (forall i, j :: 0 <= i < j < |plan| ==> plan[i].0 != plan[j].0) &&
    (forall c: PublicKey, cause :: (c, cause) in plan <==> Due(m, name, caller, c) == Some(cause))
  }

  /** Queue the caller, then every other subscriber. */
  method PlanDelivery(m: Mirror, name: string, caller: Caller) returns (plan: Plan)
    requires m.subs.Tidy()
    ensures Fulfils(plan, m, name, caller)
  {
    var subscribers := Recipients(m.subs, name, m.grants);
    plan := [];
    if caller.Some? {
      var alsoSubscribed := caller.value.0 in subscribers;
      plan := [(caller.value.0, if alsoSubscribed then Both(caller.value.1) else Command(caller.value.1))];
    }
    for i := 0 to |subscribers|
      invariant forall j, k :: 0 <= j < k < |plan| ==> plan[j].0 != plan[k].0
      invariant forall c: PublicKey, cause :: (c, cause) in plan <==>
        Due(m, name, caller, c) == Some(cause) && ((caller.Some? && caller.value.0 == c) || c in subscribers[..i])
    {
      var s := subscribers[i];
      assert subscribers[..i + 1] == subscribers[..i] + [s];
      assert s !in subscribers[..i];
      if caller.Some? && caller.value.0 == s {
        continue;
      }
      assert forall k :: 0 <= k < |plan| ==> (plan[k].0, plan[k].1) in plan;
      plan := plan + [(s, Subscription)];
    }
    assert subscribers[..|subscribers|] == subscribers;
  }

  /** The subscription a controller holds at a service, as an `a` tag names it. */
  function Coordinate(controller: PublicKey, service: PublicKey): string {
    "30199:" + ToHex(controller) + ":" + ToHex(service)
  }

  function CauseTags(service: PublicKey, to: PublicKey, cause: Cause): seq<Tag> {
    [["p", ToHex(to)]]
    + (if cause.RequestId().Some? then [["e", ToHex(cause.RequestId().value)]] else [])
    + (if cause.IsSubscription() then [["a", Coordinate(to, service)]] else [])
  }

  /** What a sent notification is besides its tags: its identity, its time, and
      the payload encrypted to one controller. */
  datatype Envelope = Envelope(id: EventId, createdAt: u64, ciphertext: string)

  function Notice(service: PublicKey, kind: nat, to: PublicKey, cause: Cause, envelope: Envelope): Event {
    Event(envelope.id, service, kind, envelope.createdAt, CauseTags(service, to, cause), envelope.ciphertext)
  }

  /** Encrypting and sending may fail for any recipient. */
  type Sender = PublicKey -> Option<Envelope>

  function Sent(plan: Plan, service: PublicKey, kind: nat, send: Sender): seq<Event> {
    if plan == [] then []
    else
      var front, (to, cause) := Sent(plan[..|plan| - 1], service, kind, send), plan[|plan| - 1];
      match send(to)
      case None => front
      case Some(envelope) => front + [Notice(service, kind, to, cause, envelope)]
  }

  /** Each recipient on its own: a failure to send to one is passed over. */
  method Deliver(m: Mirror, service: PublicKey, kind: nat, name: string, caller: Caller, send: Sender)
    returns (sent: nat, notices: seq<Event>, plan: Plan)
    requires m.subs.Tidy()
    ensures Fulfils(plan, m, name, caller)
    ensures notices == Sent(plan, service, kind, send) && sent == |notices|
  {
    plan := PlanDelivery(m, name, caller);
    sent, notices := 0, [];
    for i := 0 to |plan|
      invariant notices == Sent(plan[..i], service, kind, send) && sent == |notices|
    {
      var (to, cause) := plan[i];
      assert plan[..i + 1][..i] == plan[..i];
      var outcome := send(to);
      if outcome.Some? {
        notices := notices + [Notice(service, kind, to, cause, outcome.value)];
        sent := sent + 1;
      }
    }
    assert plan[..|plan|] == plan;
  }

  /** Every planned notification whose sending works is sent, and nothing else. */
  lemma {:induction false} SentExactly(plan: Plan, service: PublicKey, kind: nat, send: Sender, n: Event)
    ensures n in Sent(plan, service, kind, send) <==>
            exists to, cause :: (to, cause) in plan && send(to).Some? &&
              n == Notice(service, kind, to, cause, send(to).value)
    decreases plan
  {
    if plan != [] {
      var front, last := plan[..|plan| - 1], plan[|plan| - 1];
      assert plan == front + [last];
      SentExactly(front, service, kind, send, n);
      assert last == (last.0, last.1);
      if to, cause :| (to, cause) in front && send(to).Some? && n == Notice(service, kind, to, cause, send(to).value) {
        assert (to, cause) in plan;
      }
      if to, cause :| (to, cause) in plan && send(to).Some? && n == Notice(service, kind, to, cause, send(to).value) {
        assert (to, cause) in front || (to, cause) == last;
      }
    }
  }

  // ---------------------------------------------------------------------
  // Stored controllers are always canonical
  // ---------------------------------------------------------------------

  lemma {:induction false} AbsorbTidy(codec: Codec, m: Mirror, es: seq<Event>)
    requires m.subs.Tidy()
    ensures Absorb(codec, m, es).subs.Tidy()
    decreases es
  {
    if es != [] {
      var before := Absorb(codec, m, es[..|es| - 1]);
      AbsorbTidy(codec, m, es[..|es| - 1]);
      ApplyTidy(codec, before.subs, before.grants, es[|es| - 1]);
    }
  }

  lemma StepTidy(env: Env, s: State, i: Input)
    requires s.subs.Tidy() && s.mirror.subs.Tidy()
    ensures Step(env, s, i).0.subs.Tidy() && Step(env, s, i).0.mirror.subs.Tidy()
  {
    match i
    case Arrived(e, _, _) => ApplyTidy(env.codec, s.subs, s.grants, e);
    case Reconnected(None) =>
    case Reconnected(Some(es)) => AbsorbTidy(env.codec, Mirror(s.grants, s.subs), SortByTime(es));
  }

  lemma {:induction false} RunTidy(env: Env, s: State, inputs: seq<Input>)
    requires s.subs.Tidy() && s.mirror.subs.Tidy()
    ensures Run(env, s, inputs).subs.Tidy() && Run(env, s, inputs).mirror.subs.Tidy()
    decreases inputs
  {
    if inputs != [] {
      RunTidy(env, s, inputs[..|inputs| - 1]);
      StepTidy(env, Run(env, s, inputs[..|inputs| - 1]), inputs[|inputs| - 1]);
    }
  }

  /** So delivery may be computed from the mirror at any point, also before the
      service has started, when nobody is entitled to anything. */
  lemma MirrorIsAlwaysTidy(env: Env, start: Option<seq<Event>>, inputs: seq<Input>)
    ensures Blank(env).mirror.subs.Tidy()
    ensures forall c: PublicKey, name :: !Entitled(Blank(env).mirror.subs, Blank(env).mirror.grants, c, name)
    ensures Run(env, Boot(env, start), inputs).mirror.subs.Tidy()
  {
    StepTidy(env, Blank(env), Reconnected(start));
    RunTidy(env, Boot(env, start), inputs);
  }
}
