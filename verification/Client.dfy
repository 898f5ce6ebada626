/** The client's side: telling a subscription delivery from the outcome of a
    command by its tags. */
module Client {
  import opened Wrappers
  import opened Keys
  import opened Events
  import opened Subscriptions
  import opened Service
  import opened Delivery

  /** What the client's stream brings: an event, or something else. */
  type Item = Option<Event>

  // ---------------------------------------------------------------------
  // The handle of an asynchronous command
  // ---------------------------------------------------------------------

  /** The notification names this request. */
  predicate NamesRequest(e: Event, id: EventId) {
    e.kind == NOTIFICATION_KIND && HasTag(e, "e", ToHex(id))
  }

  ghost predicate FirstNaming(stream: seq<Item>, id: EventId, i: nat) {
    i < |stream| && stream[i].Some? && NamesRequest(stream[i].value, id) &&
    forall j :: 0 <= j < i && stream[j].Some? ==> !NamesRequest(stream[j].value, id)
  }

  datatype Awaited<T> = TimedOut | Resolved(outcome: T)

  /** Read what arrives before the deadline until something names the request.
      What the payload then turns out to be, also a failure to read it, is the
      outcome. */
  method Wait<T>(stream: seq<Item>, id: EventId, read: Event -> T) returns (r: Awaited<T>)
    ensures r.TimedOut? ==> forall i :: 0 <= i < |stream| && stream[i].Some? ==> !NamesRequest(stream[i].value, id)
    ensures r.Resolved? ==> exists i: nat :: FirstNaming(stream, id, i) && r.outcome == read(stream[i].value)
  {
    for i := 0 to |stream|
      invariant forall j :: 0 <= j < i && stream[j].Some? ==> !NamesRequest(stream[j].value, id)
    {
      if stream[i].None? {
        continue;
      }
      var event := stream[i].value;
      if event.kind != NOTIFICATION_KIND {
        continue;
      }
      if !HasTag(event, "e", ToHex(id)) {
        continue;
      }
      assert FirstNaming(stream, id, i);
      return Resolved(read(event));
    }
    r := TimedOut;
  }

  // ---------------------------------------------------------------------
  // The listener
  // ---------------------------------------------------------------------

  predicate HasTagNamed(e: Event, name: string) {
    exists i :: 0 <= i < |e.tags| && |e.tags[i]| > 0 && e.tags[i][0] == name
  }

  /** The notification is from the service and names this controller's
      subscription there. */
  predicate ReachesListener(e: Event, me: PublicKey, service: PublicKey) {
    e.kind == NOTIFICATION_KIND && e.pubkey == service && HasTag(e, "a", Coordinate(me, service))
  }

  /** One pass over the tags, three flags. */
  method Classify(e: Event, mine: string) returns (namesSubscription: bool, namesMine: bool, namesRequest: bool)
    ensures namesSubscription == HasTagNamed(e, "a")
    ensures namesMine == HasTag(e, "a", mine)
    ensures namesRequest == HasTagNamed(e, "e")
  {
    namesSubscription, namesMine, namesRequest := false, false, false;
    for i := 0 to |e.tags|
      invariant namesSubscription == exists j :: 0 <= j < i && |e.tags[j]| > 0 && e.tags[j][0] == "a"
      invariant namesMine == exists j :: 0 <= j < i && TagIs(e.tags[j], "a", mine)
      invariant namesRequest == exists j :: 0 <= j < i && |e.tags[j]| > 0 && e.tags[j][0] == "e"
    {
      var tag := e.tags[i];
      if |tag| > 0 {
        if tag[0] == "a" {
          namesSubscription := true;
          namesMine := namesMine || (|tag| > 1 && tag[1] == mine);
        } else if tag[0] == "e" {
          namesRequest := true;
        }
      }
    }
  }

  /** What the callback says after a notification, or that it could not be read. */
  datatype Verdict = Continue | Stop | Fail

  /** The notifications of the stream meant for this listener. */
  function ForListener(stream: seq<Item>, me: PublicKey, service: PublicKey): seq<Event> {
    if stream == [] then []
    else
      var front, last := ForListener(stream[..|stream| - 1], me, service), stream[|stream| - 1];
      if last.Some? && ReachesListener(last.value, me, service) then front + [last.value] else front
  }

  /** Hand on what is meant for this listener, in order, until told to stop. */
  method Listen(stream: seq<Item>, me: PublicKey, service: PublicKey, callback: Event -> Verdict)
    returns (handed: seq<Event>)
    ensures handed <= ForListener(stream, me, service)
    ensures forall i :: 0 <= i < |handed| - 1 ==> callback(handed[i]) == Continue
    ensures handed == ForListener(stream, me, service) ||
            (handed != [] && callback(handed[|handed| - 1]) != Continue)
  {
    var mine := Coordinate(me, service);
    handed := [];
    for i := 0 to |stream|
      invariant handed == ForListener(stream[..i], me, service)
      invariant forall j :: 0 <= j < |handed| ==> callback(handed[j]) == Continue
    {
      assert stream[..i + 1][..i] == stream[..i];
      if stream[i].None? {
        continue;
      }
      var event := stream[i].value;
      if event.kind != NOTIFICATION_KIND || event.pubkey != service {
        continue;
      }
      var namesSubscription, namesMine, _ := Classify(event, mine);
      if !namesSubscription || !namesMine {
        continue;
      }
      handed := handed + [event];
      if callback(event) != Continue {
        PrefixForListener(stream, i + 1, me, service);
        return;
      }
    }
    assert stream[..|stream|] == stream;
  }

  lemma {:induction false} PrefixForListener(stream: seq<Item>, i: nat, me: PublicKey, service: PublicKey)
    requires i <= |stream|
    ensures ForListener(stream[..i], me, service) <= ForListener(stream, me, service)
    decreases stream
  {
    if i < |stream| {
      var front := stream[..|stream| - 1];
      PrefixForListener(front, i, me, service);
      assert front[..i] == stream[..i];
    } else {
      assert stream[..i] == stream;
    }
  }

  // ---------------------------------------------------------------------
  // Routing
  // ---------------------------------------------------------------------

  lemma CoordinateNamesOne(c: PublicKey, s: PublicKey, d: PublicKey, t: PublicKey)
    requires Coordinate(c, s) == Coordinate(d, t)
    ensures c == d && s == t
  {
    assert Coordinate(c, s)[6..70] == c && Coordinate(d, t)[6..70] == d;
    assert Coordinate(c, s)[71..] == s && Coordinate(d, t)[71..] == t;
  }

  /** A notification is by the service, addressed to its recipient and to nobody
      else, and names a subscription exactly if that is a cause of it. */
  lemma TagsAreExact(service: PublicKey, to: PublicKey, cause: Cause, envelope: Envelope, k: PublicKey, a: string)
    ensures var n := Notice(service, 23200, to, cause, envelope);
            && n.kind == 23200 && n.pubkey == service && n.content == envelope.ciphertext
            && (HasTag(n, "p", ToHex(k)) <==> k == to)
            && (HasTag(n, "a", a) <==>
                  cause.IsSubscription() && a == "30199:" + ToHex(to) + ":" + ToHex(service))
  {
    var n := Notice(service, 23200, to, cause, envelope);
    assert n.tags[0] == ["p", ToHex(to)];
    match cause
    case Command(_) =>
      assert n.tags[1] == ["e", ToHex(cause.id)];
    case Subscription =>
      assert n.tags[1] == ["a", Coordinate(to, service)];
    case Both(_) =>
      assert n.tags[1] == ["e", ToHex(cause.id)] && n.tags[2] == ["a", Coordinate(to, service)];
  }

  /** A notification always names a cause; it resolves a handle exactly when it
      is the outcome of that handle's request, and reaches a listener exactly
      when it is a delivery to that controller's subscription at that service. */
  lemma RoutingIsExact(service: PublicKey, to: PublicKey, cause: Cause, envelope: Envelope,
                       id: EventId, me: PublicKey, at: PublicKey)
    ensures var n := Notice(service, 23200, to, cause, envelope);
            && (HasTagNamed(n, "e") || HasTagNamed(n, "a"))
            && (NamesRequest(n, id) <==> cause.RequestId() == Some(id))
            && (ReachesListener(n, me, at) <==> cause.IsSubscription() && to == me && service == at)
  {
    var n := Notice(service, NOTIFICATION_KIND, to, cause, envelope);
    assert n.tags[0] == ["p", ToHex(to)];
    match cause
    case Command(_) =>
      assert n.tags[1] == ["e", ToHex(cause.id)];
    case Subscription =>
      assert n.tags[1] == ["a", Coordinate(to, service)];
      if ReachesListener(n, me, at) {
        CoordinateNamesOne(to, service, me, at);
      }
    case Both(_) =>
      assert n.tags[1] == ["e", ToHex(cause.id)] && n.tags[2] == ["a", Coordinate(to, service)];
      if ReachesListener(n, me, at) {
        CoordinateNamesOne(to, service, me, at);
      }
  }

  /** One command's notification, as its node sends it. */
  datatype Posted = Posted(to: PublicKey, cause: Cause, envelope: Envelope)

  function Post(service: PublicKey, p: Posted): Event {
    Notice(service, NOTIFICATION_KIND, p.to, p.cause, p.envelope)
  }

  /** Only the command at `k` names this request: its outcome, and nobody else's. */
  ghost predicate OnlyNaming(posts: seq<Posted>, k: nat, id: EventId) {
    k < |posts| && forall j :: 0 <= j < |posts| ==> (posts[j].cause.RequestId() == Some(id) <==> j == k)
  }

  /** Whatever the stream brings in the service's name, the service sent. */
  ghost predicate OwnWordsOnly(service: PublicKey, posts: seq<Posted>, stream: seq<Item>) {
    forall j :: 0 <= j < |stream| && stream[j].Some? && stream[j].value.pubkey == service ==>
      exists p :: p in posts && stream[j].value == Post(service, p)
  }

  /** Somebody else's event, naming the request a handle waits for. */
  predicate Foreign(item: Item, id: EventId, service: PublicKey) {
    item.Some? && item.value.pubkey != service && NamesRequest(item.value, id)
  }

  /** Of what the service sent, only that command's notification names the request. */
  lemma OwnNamingIsTheOutcome(service: PublicKey, posts: seq<Posted>, stream: seq<Item>, k: nat, id: EventId, i: nat)
    requires OnlyNaming(posts, k, id) && OwnWordsOnly(service, posts, stream)
    requires i < |stream| && stream[i].Some? && NamesRequest(stream[i].value, id)
    requires !Foreign(stream[i], id, service)
    ensures stream[i] == Some(Post(service, posts[k]))
  {
    var p :| p in posts && stream[i].value == Post(service, p);
    RoutingIsExact(service, p.to, p.cause, p.envelope, id, p.to, service);
  }

  lemma {:induction false} SomethingNamesFirst(stream: seq<Item>, id: EventId, m: nat) returns (i: nat)
    requires m < |stream| && stream[m].Some? && NamesRequest(stream[m].value, id)
    ensures i <= m && FirstNaming(stream, id, i)
  {
    i := m;
    if j :| 0 <= j < m && stream[j].Some? && NamesRequest(stream[j].value, id) {
      i := SomethingNamesFirst(stream, id, j);
    }
  }

  /** A handle resolves with an event of the service if and only if one that names
      the request arrives before any by another author that does, on every stream. */
  lemma ServiceResolvesIff(service: PublicKey, stream: seq<Item>, id: EventId)
    ensures (exists i: nat :: FirstNaming(stream, id, i) && stream[i].value.pubkey == service)
       <==> (exists m: nat :: BeforeForeign(stream, id, service, m))
  {
    if m: nat :| BeforeForeign(stream, id, service, m) {
      var _ := OwnNamesFirst(service, stream, id, m);
    }
    if i: nat :| FirstNaming(stream, id, i) && stream[i].value.pubkey == service {
      assert BeforeForeign(stream, id, service, i);
    }
  }

  /** The event at `m` names the request, and so far nobody else's did. */
  ghost predicate BeforeForeign(stream: seq<Item>, id: EventId, service: PublicKey, m: nat) {
    m < |stream| && stream[m].Some? && NamesRequest(stream[m].value, id) &&
    forall j :: 0 <= j <= m ==> !Foreign(stream[j], id, service)
  }

  lemma OwnNamesFirst(service: PublicKey, stream: seq<Item>, id: EventId, m: nat) returns (i: nat)
    requires BeforeForeign(stream, id, service, m)
    ensures FirstNaming(stream, id, i) && stream[i].value.pubkey == service
  {
    i := SomethingNamesFirst(stream, id, m);
    assert !Foreign(stream[i], id, service);
  }

  /** However the notifications of concurrent commands interleave, with each other
      and with anything by anybody else, a handle gets the outcome of its own
      command if and only if that arrives before any event of another author that
      names the request; an event of the service is never taken for another's. */
  lemma ConcurrentOutcomesKeepApart(service: PublicKey, posts: seq<Posted>, stream: seq<Item>, k: nat, id: EventId)
    requires OnlyNaming(posts, k, id) && OwnWordsOnly(service, posts, stream)
    ensures (exists i: nat :: FirstNaming(stream, id, i) && stream[i] == Some(Post(service, posts[k])))
       <==> (exists m: nat :: m < |stream| && stream[m] == Some(Post(service, posts[k])) &&
                              forall j :: 0 <= j < m ==> !Foreign(stream[j], id, service))
    ensures forall i: nat :: FirstNaming(stream, id, i) && stream[i].value.pubkey == service ==>
              stream[i] == Some(Post(service, posts[k]))
  {
    var p := posts[k];
    var outcome := Some(Post(service, p));
    RoutingIsExact(service, p.to, p.cause, p.envelope, id, p.to, service);
    forall i: nat | FirstNaming(stream, id, i) && stream[i].value.pubkey == service
      ensures stream[i] == outcome
    {
      OwnNamingIsTheOutcome(service, posts, stream, k, id, i);
    }
    if m: nat :| m < |stream| && stream[m] == outcome && forall j :: 0 <= j < m ==> !Foreign(stream[j], id, service) {
      var _ := OwnNamesFirst(service, stream, id, m);
    }
  }

  ghost predicate HasPair(e: Event, name: string, value: string) {
    exists i :: 0 <= i < |e.tags| && |e.tags[i]| >= 2 && e.tags[i][0] == name && e.tags[i][1] == value
  }

  /** What the two loops look at in any event: its kind and one tag, and the author
      only when listening. */
  lemma MatchesIff(e: Event, id: EventId, me: PublicKey, service: PublicKey)
    ensures NamesRequest(e, id) <==> e.kind == 23200 && HasPair(e, "e", ToHex(id))
    ensures ReachesListener(e, me, service) <==>
              && e.kind == 23200 && e.pubkey == service
              && HasPair(e, "a", "30199:" + ToHex(me) + ":" + ToHex(service))
  {
    forall name, value ensures HasTag(e, name, value) <==> HasPair(e, name, value) {
      if i :| 0 <= i < |e.tags| && TagIs(e.tags[i], name, value) {
        assert |e.tags[i]| >= 2 && e.tags[i][0] == name && e.tags[i][1] == value;
      }
      if i :| 0 <= i < |e.tags| && |e.tags[i]| >= 2 && e.tags[i][0] == name && e.tags[i][1] == value {
        assert TagIs(e.tags[i], name, value);
      }
    }
  }

  /** An event with the tags that a waiting handle and a listener look for. */
  function Tagged(author: PublicKey, id: EventId, me: PublicKey, service: PublicKey, envelope: Envelope): Event {
    Event(envelope.id, author, NOTIFICATION_KIND, envelope.createdAt,
          [["e", ToHex(id)], ["a", Coordinate(me, service)]], envelope.ciphertext)
  }

  /** The author is not looked at by a handle: an event by anybody with its tag,
      arriving first, is what it resolves with, and the service's own outcome
      behind it is not. A listener passes over the same event. */
  lemma AnyAuthorResolves(author: PublicKey, service: PublicKey, p: Posted, id: EventId, envelope: Envelope,
                          me: PublicKey)
    requires author != service && p.cause.RequestId() == Some(id)
    ensures var other, own := Some(Tagged(author, id, me, service, envelope)), Some(Post(service, p));
            && FirstNaming([other, own], id, 0) && !FirstNaming([other, own], id, 1)
            && FirstNaming([own, other], id, 0)
            && !ReachesListener(other.value, me, service)
            && ReachesListener(other.value.(pubkey := service), me, service)
  {
    var other := Tagged(author, id, me, service, envelope);
    assert TagIs(other.tags[0], "e", ToHex(id)) && TagIs(other.tags[1], "a", Coordinate(me, service));
    RoutingIsExact(service, p.to, p.cause, p.envelope, id, me, service);
  }

  lemma SentWasDue(m: Mirror, service: PublicKey, name: string, caller: Caller, send: Sender, plan: Plan, n: Event)
    returns (to: PublicKey, cause: Cause)
    requires Fulfils(plan, m, name, caller) && n in Sent(plan, service, NOTIFICATION_KIND, send)
    ensures Due(m, name, caller, to) == Some(cause) && send(to).Some?
    ensures n == Notice(service, NOTIFICATION_KIND, to, cause, send(to).value)
  {
    SentExactly(plan, service, NOTIFICATION_KIND, send, n);
    to, cause :| (to, cause) in plan && send(to).Some? &&
      n == Notice(service, NOTIFICATION_KIND, to, cause, send(to).value);
  }

  /** End to end: of everything one delivery sends, a controller's listener is
      reached by something exactly if the controller wants and may have the type
      and sending to it worked. */
  lemma DeliveryReachesSubscribers(m: Mirror, service: PublicKey, name: string, caller: Caller, send: Sender,
                                   plan: Plan, c: PublicKey)
    requires Fulfils(plan, m, name, caller)
    ensures (exists n :: n in Sent(plan, service, NOTIFICATION_KIND, send) && ReachesListener(n, c, service))
       <==> (Entitled(m.subs, m.grants, c, name) && send(c).Some?)
  {
    forall n | n in Sent(plan, service, NOTIFICATION_KIND, send) && ReachesListener(n, c, service)
      ensures Entitled(m.subs, m.grants, c, name) && send(c).Some?
    {
      var to, cause := SentWasDue(m, service, name, caller, send, plan, n);
      RoutingIsExact(service, to, cause, send(to).value, c, c, service);
    }
    if Entitled(m.subs, m.grants, c, name) && send(c).Some? {
      DueIsSent(m, service, name, caller, send, plan, c, c);
    }
  }

  /** And a handle is resolved by something exactly if its request is the one
      that caused the notification, and sending to its controller worked. */
  lemma DeliveryResolvesTheCaller(m: Mirror, service: PublicKey, name: string, caller: Caller, send: Sender,
                                  plan: Plan, id: EventId)
    requires Fulfils(plan, m, name, caller)
    ensures (exists n :: n in Sent(plan, service, NOTIFICATION_KIND, send) && NamesRequest(n, id))
       <==> (caller.Some? && caller.value.1 == id && send(caller.value.0).Some?)
  {
    forall n | n in Sent(plan, service, NOTIFICATION_KIND, send) && NamesRequest(n, id)
      ensures caller.Some? && caller.value.1 == id && send(caller.value.0).Some?
    {
      var to, cause := SentWasDue(m, service, name, caller, send, plan, n);
      RoutingIsExact(service, to, cause, send(to).value, id, to, service);
    }
    if caller.Some? && caller.value.1 == id && send(caller.value.0).Some? {
      DueIsSent(m, service, name, caller, send, plan, caller.value.0, id);
    }
  }

  lemma DueIsSent(m: Mirror, service: PublicKey, name: string, caller: Caller, send: Sender, plan: Plan,
                  c: PublicKey, id: EventId)
    requires Fulfils(plan, m, name, caller) && Due(m, name, caller, c).Some? && send(c).Some?
    ensures var cause := Due(m, name, caller, c).value;
            var n := Notice(service, NOTIFICATION_KIND, c, cause, send(c).value);
            && n in Sent(plan, service, NOTIFICATION_KIND, send)
            && (NamesRequest(n, id) <==> cause.RequestId() == Some(id))
            && (ReachesListener(n, c, service) <==> cause.IsSubscription())
  {
    var cause := Due(m, name, caller, c).value;
    assert (c, cause) in plan;
    SentExactly(plan, service, NOTIFICATION_KIND, send, Notice(service, NOTIFICATION_KIND, c, cause, send(c).value));
    RoutingIsExact(service, c, cause, send(c).value, id, c, service);
  }
}
