/** Grants as a replicated register: what any sequence of untrusted, reordered
    and repeated events leaves behind. */
module Replay {
  import opened Wrappers
  import opened Keys
  import opened Events
  import opened Profile
  import opened Grants

  /** Apply events one after the other, ignoring what `Apply` answers. */
  function ReplayGrants(parse: ProfileParser, start: GrantStore, es: seq<Event>): (s: GrantStore)
    ensures s.node == start.node && s.owners == start.owners
    decreases es
  {
    if es == [] then start
    else ReplayGrants(parse, start, es[..|es| - 1]).Apply(parse, es[|es| - 1]).0
  }

  lemma {:induction false} ReplayConcat(parse: ProfileParser, start: GrantStore, xs: seq<Event>, ys: seq<Event>)
    ensures ReplayGrants(parse, start, xs + ys) == ReplayGrants(parse, ReplayGrants(parse, start, xs), ys)
    decreases ys
  {
    if ys == [] {
      assert xs + ys == xs;
    } else {
      var front := ys[..|ys| - 1];
      ReplayConcat(parse, start, xs, front);
      assert (xs + ys)[..|xs + ys| - 1] == xs + front;
    }
  }

  lemma {:induction false} ReplayTidy(parse: ProfileParser, start: GrantStore, es: seq<Event>)
    requires start.Tidy()
    ensures ReplayGrants(parse, start, es).Tidy()
    decreases es
  {
    if es != [] {
      ReplayTidy(parse, start, es[..|es| - 1]);
    }
  }

  /** Who this node is and whom it obeys; both fixed for a service's lifetime. */
  datatype Authority = Authority(node: PublicKey, owners: seq<PublicKey>) {
    function Start(): GrantStore {
      NoGrants(node, owners)
    }

    /** The event passes every check for this target. */
    predicate Accepts(e: Event, target: string) {
      Screen(Some(node), owners, e) == Success(target)
    }

    ghost predicate AnyFor(es: seq<Event>, target: string) {
      exists e :: e in es && Accepts(e, target)
    }

    /** No accepted event for the target is newer. */
    ghost predicate Newest(es: seq<Event>, target: string, e: Event) {
      e in es && Accepts(e, target) &&
      forall x :: x in es && Accepts(x, target) ==> x.createdAt <= e.createdAt
    }

    /** No accepted event for the target is newer, and none as new comes later. */
    ghost predicate StandsAt(es: seq<Event>, target: string, i: nat) {
      i < |es| && Accepts(es[i], target) &&
      forall j :: 0 <= j < |es| && Accepts(es[j], target) ==>
        es[j].createdAt < es[i].createdAt || (es[j].createdAt == es[i].createdAt && j <= i)
    }

    ghost predicate Stands(es: seq<Event>, target: string, e: Event) {
      exists i: nat :: StandsAt(es, target, i) && es[i] == e
    }
  }

  /** What it takes to be accepted for a target, and nothing else. */
  lemma AcceptedIff(a: Authority, e: Event, target: string)
    ensures a.Accepts(e, target)
       <==> (&& e.kind == 30198
             && e.pubkey in a.owners
             && HasTag(e, "p", ToHex(a.node))
             && target != ""
             && FirstValue(e.tags, "d") == Some(ToHex(a.node) + ":" + target))
  {
    TargetIsNamed(a.node, e, target);
  }

  /** What `Apply` reports, and when exactly: each refusal for its own reason, and
      success only for a readable grant that now stands in its target's slot. */
  lemma ReportIsExact(a: Authority, parse: ProfileParser, s: GrantStore, e: Event, target: string)
    requires s.node == Some(a.node) && s.owners == a.owners
    ensures var (after, report) := s.Apply(parse, e);
            var owned := e.kind == 30198 && e.pubkey in a.owners;
            var addressed := owned && HasTag(e, "p", ToHex(a.node));
            var older := s.GetRaw(target).Some? && e.createdAt < s.GetRaw(target).value.createdAt;
            && (report == Failure(WrongKind) <==> e.kind != 30198)
            && (report == Failure(NoOwnersConfigured) <==> e.kind == 30198 && a.owners == [])
            && (report == Failure(NotAnOwner) <==> e.kind == 30198 && a.owners != [] && e.pubkey !in a.owners)
            && (report == Failure(NotAddressedToThisNode) <==> owned && !addressed)
            && (report == Failure(WrongTarget) <==> addressed && forall t :: !a.Accepts(e, t))
            && (report == Success(target) <==> a.Accepts(e, target) && !older && parse(e.content).Some?)
            && (a.Accepts(e, target) ==>
                  && (report == Failure(Superseded) <==> older)
                  && (report == Failure(Unparseable) <==> !older && parse(e.content).None?))
            && (report.Success? || report == Failure(Unparseable) || after == s)
  {
    AcceptedIff(a, e, target);
    match Screen(s.node, s.owners, e)
    case Failure(_) =>
    case Success(t) =>
      assert a.Accepts(e, t);
      AcceptedIff(a, e, t);
  }

  /** A slot is empty, or holds the grant of a newest accepted event. */
  ghost predicate HoldsNewest(a: Authority, parse: ProfileParser, es: seq<Event>, target: string,
                              slot: Option<VerifiedGrant>)
  {
    match slot
    case None => !a.AnyFor(es, target)
    case Some(g) => exists e :: a.Newest(es, target, e) && g == GrantFrom(parse, e)
  }

  lemma ApplyAtTarget(parse: ProfileParser, s: GrantStore, e: Event, target: string)
    ensures s.Apply(parse, e).0.GetRaw(target)
         == if Screen(s.node, s.owners, e) == Success(target) && !s.Supersedes(target, e.createdAt)
            then Some(GrantFrom(parse, e)) else s.GetRaw(target)
  {
  }

  lemma OneStands(a: Authority, es: seq<Event>, target: string, e: Event, f: Event)
    requires a.Stands(es, target, e) && a.Stands(es, target, f)
    ensures e == f && a.Newest(es, target, e)
  {
    var i: nat :| a.StandsAt(es, target, i) && es[i] == e;
    var j: nat :| a.StandsAt(es, target, j) && es[j] == f;
    assert i == j;
  }

  /** Exactly what any run leaves in a slot, in every order and with every tie:
      the grant of the last among the newest accepted events. */
  lemma {:induction false} ReplayHoldsStanding(a: Authority, parse: ProfileParser, es: seq<Event>, target: string)
    ensures match ReplayGrants(parse, a.Start(), es).GetRaw(target)
            case None => !a.AnyFor(es, target)
            case Some(g) =>
              exists e :: a.Stands(es, target, e) && g == GrantFrom(parse, e) &&
                g.owner == e.pubkey && g.createdAt == e.createdAt &&
                g.profile == parse(e.content).GetOr(UsageProfile(None, None, None, None))
    decreases es
  {
    if es != [] {
      var front, last := es[..|es| - 1], es[|es| - 1];
      assert es == front + [last];
      ReplayHoldsStanding(a, parse, front, target);
      var before := ReplayGrants(parse, a.Start(), front);
      ApplyAtTarget(parse, before, last, target);
      if before.GetRaw(target).None? {
        assert a.Accepts(last, target) ==> a.StandsAt(es, target, |front|);
      } else {
        var e :| a.Stands(front, target, e) && before.GetRaw(target) == Some(GrantFrom(parse, e));
        var i: nat :| a.StandsAt(front, target, i) && front[i] == e;
        StandingMovesOn(a, front, last, target, i);
      }
    }
  }

  lemma StandingMovesOn(a: Authority, front: seq<Event>, last: Event, target: string, i: nat)
    requires a.StandsAt(front, target, i)
    ensures if a.Accepts(last, target) && front[i].createdAt <= last.createdAt
            then a.Stands(front + [last], target, last) else a.Stands(front + [last], target, front[i])
  {
    var es := front + [last];
    if a.Accepts(last, target) && front[i].createdAt <= last.createdAt {
      assert a.StandsAt(es, target, |front|);
    } else {
      assert a.StandsAt(es, target, i);
    }
  }

  lemma ReplayHoldsNewest(a: Authority, parse: ProfileParser, es: seq<Event>, target: string)
    ensures HoldsNewest(a, parse, es, target, ReplayGrants(parse, a.Start(), es).GetRaw(target))
  {
    ReplayHoldsStanding(a, parse, es, target);
    var slot := ReplayGrants(parse, a.Start(), es).GetRaw(target);
    if slot.Some? {
      var e :| a.Stands(es, target, e) && slot.value == GrantFrom(parse, e);
      OneStands(a, es, target, e, e);
    }
  }

  /** The event that stands is the one whose grant is held. */
  lemma StandingIsHeld(a: Authority, parse: ProfileParser, es: seq<Event>, target: string, e: Event)
    requires a.Stands(es, target, e)
    ensures a.Newest(es, target, e)
    ensures ReplayGrants(parse, a.Start(), es).GetRaw(target) == Some(GrantFrom(parse, e))
  {
    OneStands(a, es, target, e, e);
    assert a.AnyFor(es, target);
    ReplayHoldsStanding(a, parse, es, target);
    var g := ReplayGrants(parse, a.Start(), es).GetRaw(target).value;
    var f :| a.Stands(es, target, f) && g == GrantFrom(parse, f);
    OneStands(a, es, target, e, f);
  }

  /** Some event grants this controller, or everybody else, something. */
  ghost predicate GrantedBy(a: Authority, es: seq<Event>, c: PublicKey) {
    a.AnyFor(es, ToHex(c)) || a.AnyFor(es, OTHERS)
  }

  lemma ResolvesIffGranted(a: Authority, parse: ProfileParser, es: seq<Event>, c: PublicKey)
    ensures ReplayGrants(parse, a.Start(), es).Resolve(c).Success? <==> GrantedBy(a, es, c)
  {
    ReplayHoldsNewest(a, parse, es, ToHex(c));
    ReplayHoldsNewest(a, parse, es, OTHERS);
    assert |ToHex(c)| == 64 && |OTHERS| == 6;
  }

  /** Two tidy stores that agree at every target are the same store. */
  lemma SameSlotsSameStore(s: GrantStore, t: GrantStore)
    requires s.node == t.node && s.owners == t.owners && s.Tidy() && t.Tidy()
    requires forall target :: s.GetRaw(target) == t.GetRaw(target)
    ensures s == t
  {
    assert s.GetRaw(OTHERS) == t.GetRaw(OTHERS);
    forall c ensures Get(s.byController, c) == Get(t.byController, c) {
      assert s.GetRaw(c) == t.GetRaw(c);
    }
    assert forall c :: c in s.byController <==> Get(s.byController, c).Some?;
    assert forall c :: c in t.byController <==> Get(t.byController, c).Some?;
    assert s.byController == t.byController;
  }

  // ---------------------------------------------------------------------
  // Convergence
  // ---------------------------------------------------------------------

  ghost predicate SameEvents(xs: seq<Event>, ys: seq<Event>) {
    forall e :: e in xs <==> e in ys
  }

  /** Where two newest events tie, they grant the same. */
  ghost predicate Unambiguous(a: Authority, parse: ProfileParser, es: seq<Event>) {
    forall target, x, y :: a.Newest(es, target, x) && a.Newest(es, target, y) ==>
      GrantFrom(parse, x) == GrantFrom(parse, y)
  }

  /** Accepted events for one target carry distinct timestamps. */
  ghost predicate DistinctTimes(a: Authority, es: seq<Event>) {
    forall target, x, y ::
      (x in es && y in es && a.Accepts(x, target) && a.Accepts(y, target) && x.createdAt == y.createdAt)
      ==> x == y
  }

  lemma DistinctTimesUnambiguous(a: Authority, parse: ProfileParser, es: seq<Event>)
    requires DistinctTimes(a, es)
    ensures Unambiguous(a, parse, es)
  {
  }

  /** `ys` has something at least as new for everything accepted in `xs`. */
  ghost predicate CoveredBy(a: Authority, xs: seq<Event>, ys: seq<Event>) {
    forall x, target :: x in xs && a.Accepts(x, target) ==>
      exists y :: y in ys && a.Accepts(y, target) && x.createdAt <= y.createdAt
  }

  /** An event newest among the covering events is newest among the covered. */
  lemma NewestTransfers(a: Authority, xs: seq<Event>, ys: seq<Event>, target: string, y: Event)
    requires CoveredBy(a, xs, ys) && a.Newest(ys, target, y) && y in xs
    ensures a.Newest(xs, target, y)
  {
  }

  lemma SameNewsSameSlot(a: Authority, parse: ProfileParser, xs: seq<Event>, ys: seq<Event>, target: string,
                         s: Option<VerifiedGrant>, t: Option<VerifiedGrant>)
    requires Unambiguous(a, parse, xs)
    requires CoveredBy(a, xs, ys)
    requires forall y :: a.Newest(ys, target, y) ==> y in xs
    requires HoldsNewest(a, parse, xs, target, s) && HoldsNewest(a, parse, ys, target, t)
    ensures s == t
  {
    if t.Some? {
      var y :| a.Newest(ys, target, y) && t.value == GrantFrom(parse, y);
      NewestTransfers(a, xs, ys, target, y);
      assert a.AnyFor(xs, target);
      var x :| a.Newest(xs, target, x) && s.value == GrantFrom(parse, x);
    }
  }

  /** Runs over the same news end in the same store, whatever the order, the
      repetitions and the stale events left out. */
  lemma SameNewsSameStore(a: Authority, parse: ProfileParser, xs: seq<Event>, ys: seq<Event>)
    requires Unambiguous(a, parse, xs)
    requires CoveredBy(a, xs, ys)
    requires forall y, target :: y in ys && a.Accepts(y, target) ==> y in xs
    ensures ReplayGrants(parse, a.Start(), xs) == ReplayGrants(parse, a.Start(), ys)
  {
    var s, t := ReplayGrants(parse, a.Start(), xs), ReplayGrants(parse, a.Start(), ys);
    forall target ensures s.GetRaw(target) == t.GetRaw(target) {
      ReplayHoldsNewest(a, parse, xs, target);
      ReplayHoldsNewest(a, parse, ys, target);
      SameNewsSameSlot(a, parse, xs, ys, target, s.GetRaw(target), t.GetRaw(target));
    }
    ReplayTidy(parse, a.Start(), xs);
    ReplayTidy(parse, a.Start(), ys);
    SameSlotsSameStore(s, t);
  }

  /** A newest event that arrives last is the one that stands. */
  lemma LastNewestStands(a: Authority, parse: ProfileParser, es: seq<Event>, target: string, e: Event)
    requires a.Newest(es, target, e)
    ensures ReplayGrants(parse, a.Start(), es + [e]).GetRaw(target) == Some(GrantFrom(parse, e))
  {
    assert (es + [e])[..|es|] == es;
    ReplayHoldsNewest(a, parse, es, target);
    ApplyAtTarget(parse, ReplayGrants(parse, a.Start(), es), e, target);
  }

  /** Every arrival order and repetition of these events ends in one store. */
  ghost predicate OrderIrrelevant(a: Authority, parse: ProfileParser, es: seq<Event>) {
    forall xs, ys :: SameEvents(xs, es) && SameEvents(ys, es) ==>
      ReplayGrants(parse, a.Start(), xs) == ReplayGrants(parse, a.Start(), ys)
  }

  lemma UnambiguousTransfers(a: Authority, parse: ProfileParser, xs: seq<Event>, ys: seq<Event>)
    requires SameEvents(xs, ys) && Unambiguous(a, parse, ys)
    ensures Unambiguous(a, parse, xs)
  {
    forall target, x, y | a.Newest(xs, target, x) && a.Newest(xs, target, y)
      ensures GrantFrom(parse, x) == GrantFrom(parse, y)
    {
      assert a.Newest(ys, target, x) && a.Newest(ys, target, y);
    }
  }

  lemma UnambiguousConverges(a: Authority, parse: ProfileParser, es: seq<Event>)
    requires Unambiguous(a, parse, es)
    ensures OrderIrrelevant(a, parse, es)
  {
    forall xs, ys | SameEvents(xs, es) && SameEvents(ys, es)
      ensures ReplayGrants(parse, a.Start(), xs) == ReplayGrants(parse, a.Start(), ys)
    {
      UnambiguousTransfers(a, parse, xs, es);
      SameNewsSameStore(a, parse, xs, ys);
    }
  }

  lemma AmbiguousDiverges(a: Authority, parse: ProfileParser, es: seq<Event>)
    requires !Unambiguous(a, parse, es)
    ensures exists x, y :: x in es && y in es &&
              ReplayGrants(parse, a.Start(), es + [x]) != ReplayGrants(parse, a.Start(), es + [y])
  {
    var target, x, y :| a.Newest(es, target, x) && a.Newest(es, target, y) &&
      GrantFrom(parse, x) != GrantFrom(parse, y);
    LastNewestStands(a, parse, es, target, x);
    LastNewestStands(a, parse, es, target, y);
    assert x in es && y in es;
  }

  lemma RepetitionMatters(a: Authority, parse: ProfileParser, es: seq<Event>, x: Event, y: Event)
    requires x in es && y in es
    requires ReplayGrants(parse, a.Start(), es + [x]) != ReplayGrants(parse, a.Start(), es + [y])
    ensures !OrderIrrelevant(a, parse, es)
  {
  }

  /** Convergence, exactly: replicas agree in every order precisely when no two
      newest events for a target disagree. */
  lemma ConvergesIff(a: Authority, parse: ProfileParser, es: seq<Event>)
    ensures OrderIrrelevant(a, parse, es) <==> Unambiguous(a, parse, es)
  {
    if Unambiguous(a, parse, es) {
      UnambiguousConverges(a, parse, es);
    } else {
      AmbiguousDiverges(a, parse, es);
      var x, y :| x in es && y in es &&
        ReplayGrants(parse, a.Start(), es + [x]) != ReplayGrants(parse, a.Start(), es + [y]);
      RepetitionMatters(a, parse, es, x, y);
    }
  }

  /** Whatever arrives later, a slot once filled stays filled and its timestamp
      never goes back. */
  lemma {:induction false} TimestampsNeverRegress(parse: ProfileParser, s: GrantStore, es: seq<Event>, target: string)
    requires s.GetRaw(target).Some?
    ensures var after := ReplayGrants(parse, s, es).GetRaw(target);
            after.Some? && s.GetRaw(target).value.createdAt <= after.value.createdAt
    decreases es
  {
    if es != [] {
      var front := es[..|es| - 1];
      TimestampsNeverRegress(parse, s, front, target);
      ApplyAtTarget(parse, ReplayGrants(parse, s, front), es[|es| - 1], target);
    }
  }

  // ---------------------------------------------------------------------
  // Reading current state after a gap
  // ---------------------------------------------------------------------

  /** What a relay gives back was published, before the gap or during it. */
  ghost predicate Drawn(known: seq<Event>, missed: seq<Event>, answer: seq<Event>) {
    forall e :: e in answer ==> e in known || e in missed
  }

  /** For every missed event, the answer has one at least as new for the same
      target, by whichever owner. */
  ghost predicate CurrentState(a: Authority, known: seq<Event>, missed: seq<Event>, answer: seq<Event>) {
    Drawn(known, missed, answer) &&
    (forall e, target :: e in missed && a.Accepts(e, target) ==>
       exists x :: x in answer && a.Accepts(x, target) && e.createdAt <= x.createdAt)
  }

  /** Whatever a newest live event grants, some event read grants too. */
  ghost predicate NewsSurvives(a: Authority, parse: ProfileParser, live: seq<Event>, reread: seq<Event>) {
    forall target, e :: a.Newest(live, target, e) ==>
      exists x :: x in reread && a.Accepts(x, target) && GrantFrom(parse, x) == GrantFrom(parse, e)
  }

  lemma SurvivingNewsCovers(a: Authority, parse: ProfileParser, live: seq<Event>, reread: seq<Event>, target: string)
    requires Unambiguous(a, parse, live) && NewsSurvives(a, parse, live, reread)
    requires forall e :: e in reread ==> e in live
    ensures ReplayGrants(parse, a.Start(), live).GetRaw(target)
         == ReplayGrants(parse, a.Start(), reread).GetRaw(target)
  {
    ReplayHoldsNewest(a, parse, live, target);
    ReplayHoldsNewest(a, parse, reread, target);
    var s := ReplayGrants(parse, a.Start(), live).GetRaw(target);
    if s.Some? {
      var e :| a.Newest(live, target, e) && s.value == GrantFrom(parse, e);
      var x :| x in reread && a.Accepts(x, target) && GrantFrom(parse, x) == GrantFrom(parse, e);
      assert a.AnyFor(reread, target);
      var t := ReplayGrants(parse, a.Start(), reread).GetRaw(target);
      var y :| a.Newest(reread, target, y) && t.value == GrantFrom(parse, y);
      assert x.createdAt <= y.createdAt && x.createdAt == e.createdAt;
      assert a.Newest(live, target, y);
    }
  }

  lemma CaughtUpSurvives(a: Authority, parse: ProfileParser, live: seq<Event>, reread: seq<Event>)
    requires Unambiguous(a, parse, live)
    requires ReplayGrants(parse, a.Start(), live) == ReplayGrants(parse, a.Start(), reread)
    ensures NewsSurvives(a, parse, live, reread)
  {
    forall target, e | a.Newest(live, target, e)
      ensures exists x :: x in reread && a.Accepts(x, target) && GrantFrom(parse, x) == GrantFrom(parse, e)
    {
      ReplayHoldsNewest(a, parse, live, target);
      ReplayHoldsNewest(a, parse, reread, target);
      assert a.AnyFor(live, target);
      var slot := ReplayGrants(parse, a.Start(), reread).GetRaw(target);
      var x :| a.Newest(reread, target, x) && slot.value == GrantFrom(parse, x);
    }
  }

  /** Re-reading after a gap leaves the store that never going away would have,
      in whatever order the answer and the missed events come, if and only if
      nothing newest is missing from what was known and what is answered. */
  lemma RereadCatchesUpIff(a: Authority, parse: ProfileParser, known: seq<Event>, missed: seq<Event>,
                           answer: seq<Event>)
    requires Unambiguous(a, parse, known + missed) && Drawn(known, missed, answer)
    ensures ReplayGrants(parse, ReplayGrants(parse, a.Start(), known), answer)
            == ReplayGrants(parse, ReplayGrants(parse, a.Start(), known), missed)
       <==> NewsSurvives(a, parse, known + missed, known + answer)
  {
    var live, reread := known + missed, known + answer;
    var s, t := ReplayGrants(parse, a.Start(), live), ReplayGrants(parse, a.Start(), reread);
    ReplayConcat(parse, a.Start(), known, missed);
    ReplayConcat(parse, a.Start(), known, answer);
    if s == t {
      CaughtUpSurvives(a, parse, live, reread);
    }
    if NewsSurvives(a, parse, live, reread) {
      forall target ensures s.GetRaw(target) == t.GetRaw(target) {
        SurvivingNewsCovers(a, parse, live, reread, target);
      }
      ReplayTidy(parse, a.Start(), live);
      ReplayTidy(parse, a.Start(), reread);
      SameSlotsSameStore(s, t);
    }
  }

  /** Current state is enough for that. */
  lemma RereadCatchesUp(a: Authority, parse: ProfileParser, known: seq<Event>, missed: seq<Event>, answer: seq<Event>)
    requires Unambiguous(a, parse, known + missed)
    requires CurrentState(a, known, missed, answer)
    ensures ReplayGrants(parse, ReplayGrants(parse, a.Start(), known), answer)
         == ReplayGrants(parse, ReplayGrants(parse, a.Start(), known), missed)
  {
    var live, reread := known + missed, known + answer;
    forall target, e | a.Newest(live, target, e)
      ensures exists x :: x in reread && a.Accepts(x, target) && GrantFrom(parse, x) == GrantFrom(parse, e)
    {
      if e in known {
        assert e in reread;
      } else {
        var x :| x in answer && a.Accepts(x, target) && e.createdAt <= x.createdAt;
        assert x in reread && a.Newest(live, target, x);
      }
    }
    RereadCatchesUpIff(a, parse, known, missed, answer);
  }

  /** A relay replaces a grant by any newer event of its author with the same `d`,
      also by one without this node's `p` tag, which the query for this node's
      events then leaves out. Live, the grant would still stand; re-read, it is
      gone. */
  lemma UntaggedReplacementIsMissed(a: Authority, parse: ProfileParser, granted: Event, replaced: Event, target: string)
    requires a.Accepts(granted, target) && !HasTag(replaced, "p", ToHex(a.node))
    ensures ReplayGrants(parse, a.Start(), [granted, replaced]).GetRaw(target) == Some(GrantFrom(parse, granted))
    ensures ReplayGrants(parse, a.Start(), []).GetRaw(target) == None
  {
    var live := [granted, replaced];
    AcceptedIff(a, replaced, target);
    ReplayHoldsNewest(a, parse, live, target);
    assert granted in live;
  }
}
