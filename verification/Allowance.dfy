/** What a bucket guarantees over a whole run: a bound on everything taken in a
    window of time, and agreement with an exact bucket that never rounds. */
module Allowance {
  import opened Wrappers
  import opened Limit

  // ---------------------------------------------------------------------
  // The window bound
  // ---------------------------------------------------------------------

  /** The most a rule lets out during `seconds`, whatever the bucket's past. */
  function Ceiling(rule: RateLimitRule, seconds: nat): nat
    requires rule.IsValid()
  {
    rule.maxCapacity + Refill(rule, seconds)
  }

  /** Having taken `spent` while the clock moved forward by `moved` seconds in all,
      however often it went back in between, and now stands at `at`: what was
      taken and what is left came out of one full bucket and the movement up to
      the bucket's last withdrawal. */
  ghost predicate Conserved(bucket: Option<Level>, spent: nat, moved: nat, at: u64, rule: RateLimitRule)
    requires rule.IsValid()
  {
    spent == 0 ||
    (bucket.Some? && Elapsed(bucket.value.since, at) <= moved &&
     bucket.value.balance + spent <= Ceiling(rule, moved - Elapsed(bucket.value.since, at)))
  }

  /** A bucket that is missing is created full when it is first looked at. */
  function OrFull(bucket: Option<Level>, rule: RateLimitRule, now: u64): Level {
    bucket.GetOr(Level.Full(rule, now))
  }

  /** The clock may move either way; only moving forward is counted. */
  lemma ClockMoves(bucket: Option<Level>, spent: nat, moved: nat, at: u64, more: nat, now: u64, rule: RateLimitRule)
    requires rule.IsValid() && Elapsed(at, now) <= more
    requires Conserved(bucket, spent, moved, at, rule)
    ensures Conserved(bucket, spent, moved + more, now, rule)
  {
    if spent > 0 {
      var since := bucket.value.since;
      RefillMonotone(rule, moved - Elapsed(since, at), moved + more - Elapsed(since, now));
    }
  }

  lemma WithdrawalConserves(bucket: Option<Level>, spent: nat, moved: nat, cost: u64, now: u64,
                            rule: RateLimitRule)
    requires rule.IsValid() && Conserved(bucket, spent, moved, now, rule)
    requires OrFull(bucket, rule, now).CanWithdraw(cost, now, rule)
    ensures Conserved(Some(OrFull(bucket, rule, now).Withdraw(cost, now, rule).1), spent + cost, moved, now, rule)
  {
    var level := OrFull(bucket, rule, now);
    BalanceIsExact(level, now, rule);
    if spent > 0 {
      RefillSuperadditive(rule, moved - Elapsed(level.since, now), Elapsed(level.since, now));
    }
  }

  lemma ConservedBound(bucket: Option<Level>, spent: nat, moved: nat, at: u64, rule: RateLimitRule)
    requires rule.IsValid() && Conserved(bucket, spent, moved, at, rule)
    ensures spent <= Ceiling(rule, moved)
  {
    if spent > 0 {
      RefillMonotone(rule, moved - Elapsed(bucket.value.since, at), moved);
    }
  }

  lemma CeilingHolds(level: Level, now: u64, rule: RateLimitRule)
    requires rule.IsValid()
    ensures level.BalanceAt(now, rule) <= rule.maxCapacity
  {
    BalanceIsExact(level, now, rule);
  }

  lemma NothingRegainedBackwards(level: Level, now: u64, rule: RateLimitRule)
    requires rule.IsValid() && now <= level.since && level.balance <= rule.maxCapacity
    ensures level.BalanceAt(now, rule) == level.balance
  {
    BalanceIsExact(level, now, rule);
    assert rule.amount * Elapsed(level.since, now) == 0;
  }

  lemma TakenThenEarlier(level: Level, rule: RateLimitRule, earlier: u64, now: u64, x: u64, y: u64)
    requires rule.IsValid() && earlier < now && x + y <= level.BalanceAt(now, rule)
    ensures var left := level.BalanceAt(now, rule) - x;
            && level.Withdraw(x, now, rule) == (true, Level(left, now))
            && Level(left, now).Withdraw(y, earlier, rule) == (true, Level(left - y, earlier))
  {
    CeilingHolds(level, now, rule);
    NothingRegainedBackwards(Level(level.BalanceAt(now, rule) - x, now), earlier, rule);
  }

  /** A withdrawal at an earlier instant moves `since` back, and the time up to a
      later one is credited again. For any bucket and any backward step: having
      taken `x` now and then `y` earlier, what can be taken by `later` exceeds
      what the time from now to `later` allows exactly if `x` is more than that
      time refills, and `y` less than what the level now and the refill since
      `earlier` have above that allowance. */
  lemma BackwardClockBreaksTheBoundIff(level: Level, rule: RateLimitRule, earlier: u64, now: u64, later: u64,
                                       x: u64, y: u64)
    requires rule.IsValid() && earlier < now <= later && x + y <= level.BalanceAt(now, rule)
    ensures var (first, a) := level.Withdraw(x, now, rule);
            var (second, b) := a.Withdraw(y, earlier, rule);
            && first && second
            && (x + b.BalanceAt(later, rule) > Ceiling(rule, later - now) <==>
                (&& x > Refill(rule, later - now)
                 && level.BalanceAt(now, rule) + Refill(rule, later - earlier) > Ceiling(rule, later - now) + y))
  {
    TakenThenEarlier(level, rule, earlier, now, x, y);
    CeilingHolds(level, now, rule);
    BalanceIsExact(Level(level.BalanceAt(now, rule) - x - y, earlier), later, rule);
  }

  /** Such steps exist: fifteen tokens leave a bucket of ten at one instant. */
  lemma BackwardClockBreaksTheBound()
    ensures var rule := RateLimitRule(10, 1, 10);
            var (first, a) := Level.Full(rule, 10).Withdraw(5, 10, rule);
            var (earlier, b) := a.Withdraw(5, 0, rule);
            var (second, c) := b.Withdraw(10, 10, rule);
            first && earlier && second && 5 + 10 > Ceiling(rule, 10 - 10)
  {
    var rule := RateLimitRule(10, 1, 10);
    BalanceIsExact(Level(10, 10), 10, rule);
    BalanceIsExact(Level(5, 10), 0, rule);
    BalanceIsExact(Level(0, 0), 10, rule);
  }

  // ---------------------------------------------------------------------
  // Refinement of an exact bucket
  // ---------------------------------------------------------------------

  /** A bucket that counts fractions of a token: `fill` is in units of one
      token divided by `perSecs`, so its refill never rounds. It is brought up
      to date at every attempt, taken or refused. */
  datatype Ideal = Ideal(fill: int, at: u64)

  function IdealAt(i: Ideal, now: u64, rule: RateLimitRule): int
    requires i.at <= now
  {
    Min(i.fill + rule.amount * (now - i.at), rule.maxCapacity * rule.perSecs)
  }

  datatype Attempt = Attempt(cost: u64, now: u64)

  /** The two buckets side by side, and how many withdrawals were taken. */
  datatype Pair = Pair(code: Level, ideal: Ideal, taken: nat)

  ghost predicate InOrder(start: u64, attempts: seq<Attempt>) {
    (forall i :: 0 <= i < |attempts| ==> start <= attempts[i].now) &&
    (forall i, j :: 0 <= i < j < |attempts| ==> attempts[i].now <= attempts[j].now)
  }

  /** Serve attempts with the code's bucket, charging the exact bucket for
      whatever the code let through. */
  ghost function Serve(rule: RateLimitRule, start: u64, attempts: seq<Attempt>): (p: Pair)
    requires InOrder(start, attempts)
    ensures p.ideal.at == (if attempts == [] then start else attempts[|attempts| - 1].now)
  {
    if attempts == [] then
      Pair(Level.Full(rule, start), Ideal(rule.maxCapacity * rule.perSecs, start), 0)
    else
      ServeOne(rule, Serve(rule, start, attempts[..|attempts| - 1]), attempts[|attempts| - 1])
  }

  ghost function ServeOne(rule: RateLimitRule, before: Pair, a: Attempt): (p: Pair)
    requires before.ideal.at <= a.now
    ensures p.ideal.at == a.now
  {
    var fill := IdealAt(before.ideal, a.now, rule);
    var (ok, level) := before.code.Withdraw(a.cost, a.now, rule);
    if ok then Pair(level, Ideal(fill - a.cost * rule.perSecs, a.now), before.taken + 1)
    else Pair(level, Ideal(fill, a.now), before.taken)
  }

  /** How far the code's balance is below the exact one at `now`. */
  ghost function Leak(p: Pair, now: u64, rule: RateLimitRule): int
    requires p.ideal.at <= now
  {
    IdealAt(p.ideal, now, rule) - rule.perSecs * p.code.BalanceAt(now, rule)
  }

  /** `fill` is what the exact bucket held at the code's last withdrawal. */
  ghost predicate Aligned(p: Pair, fill: int, rule: RateLimitRule)
    requires rule.IsValid()
  {
    var cap := rule.maxCapacity * rule.perSecs;
    p.code.since <= p.ideal.at &&
    rule.perSecs * p.code.balance <= fill <= cap &&
    p.ideal.fill == Min(fill + rule.amount * (p.ideal.at - p.code.since), cap) &&
    (if p.taken == 0 then p.code.balance == rule.maxCapacity
     else fill - rule.perSecs * p.code.balance <= (p.taken - 1) * (rule.perSecs - 1))
  }

  /** Refilling up to one instant and then to a later one is refilling once. */
  lemma IdealAccumulates(p: Pair, fill: int, now: u64, rule: RateLimitRule)
    requires rule.IsValid() && Aligned(p, fill, rule) && p.ideal.at <= now
    ensures IdealAt(p.ideal, now, rule)
         == Min(fill + rule.amount * (now - p.code.since), rule.maxCapacity * rule.perSecs)
  {
    var a, b := p.ideal.at - p.code.since, now - p.ideal.at;
    assert rule.amount * (a + b) == rule.amount * a + rule.amount * b;
    assert a + b == now - p.code.since;
  }

  lemma ScaledMin(per: nat, a: nat, b: nat)
    ensures per * Min(a, b) == Min(per * a, b * per)
  {
    if a <= b {
      MulMonotone(per, per, a, b);
    } else {
      MulMonotone(per, per, b, a);
    }
  }

  /** A common ceiling never widens a gap. */
  lemma CappedGap(ahead: int, behind: int, cap: int)
    requires behind <= ahead
    ensures 0 <= Min(ahead, cap) - Min(behind, cap) <= ahead - behind
    ensures cap <= behind ==> Min(ahead, cap) == Min(behind, cap)
  {
  }

  lemma FloorGap(n: nat, q: nat)
    requires q > 0
    ensures q * (n / q) <= n <= q * (n / q) + (q - 1)
  {
  }

  /** Rounding the refill down costs at most one token less a unit, and the
      ceiling never widens the gap. */
  lemma RoundingLoss(per: nat, fill: int, balance: nat, gained: nat, cap: nat)
    requires per > 0 && per * balance <= fill <= cap * per
    ensures var loss := Min(fill + gained, cap * per) - per * Min(balance + gained / per, cap);
            && 0 <= loss <= fill - per * balance + (per - 1)
            && (balance == cap ==> loss == 0)
  {
    var tokens := gained / per;
    FloorGap(gained, per);
    Distribute(per, balance + tokens, tokens);
    ScaledMin(per, balance + tokens, cap);
    CappedGap(fill + gained, per * (balance + tokens), cap * per);
    if balance == cap {
      MulMonotone(per, per, cap, balance + tokens);
    }
  }

  lemma AlignedLeak(p: Pair, fill: int, now: u64, rule: RateLimitRule)
    requires rule.IsValid() && Aligned(p, fill, rule) && p.ideal.at <= now
    ensures 0 <= Leak(p, now, rule) <= p.taken * (rule.perSecs - 1)
  {
    var gained := rule.amount * (now - p.code.since);
    assert Leak(p, now, rule) ==
           Min(fill + gained, rule.maxCapacity * rule.perSecs)
           - rule.perSecs * Min(p.code.balance + gained / rule.perSecs, rule.maxCapacity) by {
      IdealAccumulates(p, fill, now, rule);
      BalanceIsExact(p.code, now, rule);
    }
    RoundingLoss(rule.perSecs, fill, p.code.balance, gained, rule.maxCapacity);
    if p.taken > 0 {
      OneMore(p.taken, rule.perSecs - 1);
    }
  }

  lemma OneMore(k: nat, step: nat)
    requires k > 0
    ensures k * step == (k - 1) * step + step
  {
  }

  lemma Distribute(per: nat, a: nat, b: nat)
    requires b <= a
    ensures per * (a - b) == per * a - b * per
    ensures 0 <= per * (a - b)
  {
  }

  /** A withdrawal leaves exactly the gap there was when it was made. */
  lemma TakenAligned(rule: RateLimitRule, before: Pair, a: Attempt, available: u64, exact: int)
    requires rule.IsValid() && before.ideal.at <= a.now && a.cost <= available
    requires available == before.code.BalanceAt(a.now, rule) && exact == IdealAt(before.ideal, a.now, rule)
    requires 0 <= exact - rule.perSecs * available <= before.taken * (rule.perSecs - 1)
    ensures Aligned(ServeOne(rule, before, a), exact - a.cost * rule.perSecs, rule)
  {
    Distribute(rule.perSecs, available, a.cost);
    ProductIsNat(a.cost, rule.perSecs);
    var p := ServeOne(rule, before, a);
    assert p.code == Level(available - a.cost, a.now) && p.taken == before.taken + 1;
    assert rule.amount * (a.now - a.now) == 0;
  }

  lemma StepAligned(rule: RateLimitRule, before: Pair, was: int, a: Attempt) returns (fill: int)
    requires rule.IsValid() && Aligned(before, was, rule) && before.ideal.at <= a.now
    ensures Aligned(ServeOne(rule, before, a), fill, rule)
  {
    AlignedLeak(before, was, a.now, rule);
    var available, exact := before.code.BalanceAt(a.now, rule), IdealAt(before.ideal, a.now, rule);
    if available < a.cost {
      IdealAccumulates(before, was, a.now, rule);
      fill := was;
    } else {
      TakenAligned(rule, before, a, available, exact);
      fill := exact - a.cost * rule.perSecs;
    }
  }

  lemma {:induction false} ServeAligned(rule: RateLimitRule, start: u64, attempts: seq<Attempt>)
    returns (fill: int)
    requires rule.IsValid() && InOrder(start, attempts)
    ensures Aligned(Serve(rule, start, attempts), fill, rule)
  {
    if attempts == [] {
      fill := rule.maxCapacity * rule.perSecs;
    } else {
      var earlier, last := attempts[..|attempts| - 1], attempts[|attempts| - 1];
      var was := ServeAligned(rule, start, earlier);
      fill := StepAligned(rule, Serve(rule, start, earlier), was, last);
    }
  }

  /** The code's bucket refines the exact one: after any attempts at
      non-decreasing times it is never ahead, and is behind by less than one
      token for each withdrawal it let through. */
  lemma RefinesExactBucket(rule: RateLimitRule, start: u64, attempts: seq<Attempt>, now: u64)
    requires rule.IsValid() && InOrder(start, attempts)
    requires Serve(rule, start, attempts).ideal.at <= now
    ensures var p := Serve(rule, start, attempts);
            0 <= Leak(p, now, rule) <= p.taken * (rule.perSecs - 1)
  {
    var fill := ServeAligned(rule, start, attempts);
    AlignedLeak(Serve(rule, start, attempts), fill, now, rule);
  }

  /** So the code never admits what the exact bucket could not pay, and admits
      whatever the exact bucket could pay with the leak to spare. */
  lemma AdmissionAgrees(rule: RateLimitRule, start: u64, attempts: seq<Attempt>, cost: u64, now: u64)
    requires rule.IsValid() && InOrder(start, attempts)
    requires Serve(rule, start, attempts).ideal.at <= now
    ensures var p := Serve(rule, start, attempts);
            && (p.code.CanWithdraw(cost, now, rule) ==>
                  cost * rule.perSecs <= IdealAt(p.ideal, now, rule))
            && (cost * rule.perSecs + p.taken * (rule.perSecs - 1) <= IdealAt(p.ideal, now, rule) ==>
                  p.code.CanWithdraw(cost, now, rule))
  {
    RefinesExactBucket(rule, start, attempts, now);
    var p := Serve(rule, start, attempts);
    CompareInTokens(rule.perSecs, IdealAt(p.ideal, now, rule), p.code.BalanceAt(now, rule), cost,
                    p.taken * (rule.perSecs - 1));
  }

  lemma CompareInTokens(per: nat, exact: int, balance: nat, cost: nat, slack: int)
    requires per > 0 && 0 <= exact - per * balance <= slack
    ensures cost <= balance ==> cost * per <= exact
    ensures cost * per + slack <= exact ==> cost <= balance
  {
    if cost <= balance {
      MulMonotone(cost, balance, per, per);
    } else {
      MulMonotone(balance + 1, cost, per, per);
    }
  }

  /** One withdrawal of one token a second, under a rule that earns just less
      than a token each second. */
  function Drip(k: nat): seq<Attempt>
    requires k <= U64_MAX
  {
    seq(k, i requires 0 <= i < k => Attempt(1, i))
  }

  /** Where a drip of `k` withdrawals from a full bucket ends. */
  ghost function AfterDrip(per: u64, cap: u64, k: nat): Pair
    requires per > 0 && k <= cap
  {
    var at := if k == 0 then 0 else k - 1;
    Pair(Level(cap - k, at), Ideal(per * (cap - k) + at * (per - 1), at), k)
  }

  lemma DripArithmetic(per: nat, cap: nat, k: nat)
    requires per > 0 && 0 < k <= cap
    ensures (per - 1) * 0 / per == 0 && (per - 1) * 1 / per == 0
    ensures per * (cap - (k - 1)) - 1 * per == per * (cap - k)
    ensures k > 1 ==> (k - 2) * (per - 1) + (per - 1) * 1 == (k - 1) * (per - 1)
    ensures per * (cap - (k - 1)) + (k - 1) * (per - 1) <= cap * per
  {
  }

  lemma DripBalances(per: u64, cap: u64, k: nat)
    requires per > 0 && 0 < k <= cap
    ensures var rule, p := RateLimitRule(per - 1, per, cap), AfterDrip(per, cap, k - 1);
            && p.code.BalanceAt(k - 1, rule) == cap - (k - 1)
            && IdealAt(p.ideal, k - 1, rule) == per * (cap - (k - 1)) + (k - 1) * (per - 1)
  {
    var rule, p := RateLimitRule(per - 1, per, cap), AfterDrip(per, cap, k - 1);
    DripArithmetic(per, cap, k);
    BalanceIsExact(p.code, k - 1, rule);
  }

  lemma DripStep(per: u64, cap: u64, k: nat)
    requires per > 0 && 0 < k <= cap
    ensures ServeOne(RateLimitRule(per - 1, per, cap), AfterDrip(per, cap, k - 1), Attempt(1, k - 1))
         == AfterDrip(per, cap, k)
  {
    var rule, before := RateLimitRule(per - 1, per, cap), AfterDrip(per, cap, k - 1);
    DripBalances(per, cap, k);
    assert before.code.Withdraw(1, k - 1, rule) == (true, Level(cap - k, k - 1));
    assert 1 * rule.perSecs == per;
    DripArithmetic(per, cap, k);
  }

  lemma DripInOrder(k: nat)
    requires k <= U64_MAX
    ensures InOrder(0, Drip(k))
    ensures k > 0 ==> Drip(k)[..k - 1] == Drip(k - 1)
  {
  }

  lemma {:induction false} DripLeaks(per: u64, cap: u64, k: nat)
    requires per > 0 && k <= cap && InOrder(0, Drip(k))
    ensures Serve(RateLimitRule(per - 1, per, cap), 0, Drip(k)) == AfterDrip(per, cap, k)
  {
    if k > 0 {
      DripInOrder(k);
      DripInOrder(k - 1);
      DripLeaks(per, cap, k - 1);
      DripStep(per, cap, k);
    } else {
      assert per * (cap - 0) + 0 * (per - 1) == cap * per;
    }
  }

  /** The bound is attained: for every number of withdrawals there is a run that
      loses exactly that much. */
  lemma LeakBoundIsTight(per: u64, k: nat)
    requires per > 0 && 0 < k <= U64_MAX
    ensures InOrder(0, Drip(k))
    ensures var rule := RateLimitRule(per - 1, per, k);
            var p := Serve(rule, 0, Drip(k));
            p.taken == k && p.ideal.at <= k && Leak(p, k, rule) == k * (per - 1)
  {
    var rule := RateLimitRule(per - 1, per, k);
    DripInOrder(k);
    DripLeaks(per, k, k);
    var p := AfterDrip(per, k, k);
    assert p.code.BalanceAt(k, rule) == 0 by {
      BalanceIsExact(p.code, k, rule);
      DripArithmetic(per, k, k);
    }
    assert p.ideal.fill == (k - 1) * (per - 1);
    assert IdealAt(p.ideal, k, rule) == k * (per - 1) by {
      assert rule.amount * (k - p.ideal.at) == per - 1;
      OneMore(k, per - 1);
      MulMonotone(k, k, per - 1, per);
    }
  }
}
