/** What serving a single request guarantees, for every handler, clock and
    history of the buckets. */
module Requests {
  import opened Wrappers
  import opened Keys
  import opened Limit
  import opened Allowance
  import opened UsageStore
  import opened Methods
  import opened Grants
  import opened Codecs
  import opened Pipeline

  // ---------------------------------------------------------------------
  // The tables agree
  // ---------------------------------------------------------------------

  /** The type a method's parameters are read as, by its name. */
  function TypeFor(protocol: Protocol, name: string): Option<RequestType> {
    match protocol
    case Wallet => WalletValidatedAs(ParseWalletMethod(name))
    case Control => ValidatedAs(ParseMethod(name))
  }

  /** A request is looked up under the name and with the parameters it was sent
      with, whichever the protocol. */
  lemma CallKeepsRequest(protocol: Protocol, r: Request)
    ensures var call := CallFor(protocol, r);
            && call.protocol == protocol && call.name == r.name && call.params == r.params
            && call.validatedAs == call.dispatchedAs == TypeFor(protocol, r.name)
  {
    ControlNamesRoundTrip(r.name);
  }

  /** And there is a type exactly for the names of that protocol. */
  lemma TypedIffNamed(protocol: Protocol, name: string)
    ensures TypeFor(protocol, name).Some? <==> if protocol.Wallet? then IsWalletName(name) else IsControlName(name)
  {
    ValidatedIsKnown(ParseMethod(name), ParseWalletMethod(name));
    KnownControlNames(name);
    KnownWalletNames(name);
  }

  /** A request that passes step 4 reaches its handler with the type it was
      checked against: dispatch adds no error of its own, whatever the handler
      then answers. */
  lemma ValidationCoversDispatch(codec: Codec, protocol: Protocol, r: Request, answer: Reply)
    requires Validate(codec, CallFor(protocol, r)).None?
    ensures Dispatch(codec, CallFor(protocol, r), answer) == (true, answer)
  {
  }

  /** Requests of different protocols that get as far as the rate limit never
      draw on the same bucket. */
  lemma RateKeysKeepProtocolsApart(codec: Codec, wallet: Request, control: Request, c: PublicKey)
    requires Validate(codec, CallFor(Wallet, wallet)).None?
    requires Validate(codec, CallFor(Control, control)).None?
    ensures (ToHex(c), CallFor(Wallet, wallet).name) != (ToHex(c), CallFor(Control, control).name)
  {
    var name := MethodName(ParseMethod(wallet.name));
    var w, m := ParseWalletMethod(name), ParseMethod(control.name);
    ValidatedIsKnown(m, w);
    WalletNamesRoundTrip(name);
    MethodShape(m);
    WalletMethodShape(w);
    ShapesKeepApart(m, w);
  }

  lemma ValidatedIsKnown(m: Method, w: WalletMethod)
    ensures ValidatedAs(m).Some? <==> !m.Unknown?
    ensures WalletValidatedAs(w).Some? <==> !w.UnknownWallet?
  {
  }

  // ---------------------------------------------------------------------
  // Commit is exactly what was checked
  // ---------------------------------------------------------------------

  /** A charge that follows its check always succeeds, at any clock. */
  lemma CheckedChargeSucceeds<K>(m: map<K, Level>, k: K, cost: u64, rule: RateLimitRule, now: u64)
    ensures var (ok, checked) := Check(m, k, cost, rule, now);
            && Charge(checked, k, cost, rule, now).0 == Charge(m, k, cost, rule, now).0
            && Charge(checked, k, cost, rule, now).1 == Charge(m, k, cost, rule, now).1
            && Charge(m, k, cost, rule, now).0 == ok
  {
  }

  /** What a controller could still spend under a rule. */
  function QuotaLeft(u: UsageState, c: string, rule: RateLimitRule, now: u64): u64 {
    Entry(u.quota, c, rule, now).BalanceAt(now, rule)
  }

  lemma RateStepEffect(u: UsageState, c: PublicKey, name: string, rule: RateLimitRule, now: u64)
    ensures var key := (ToHex(c), name);
            var step := RateStep(u, c, name, Some(rule), now);
            && step.0 == Check(u.rate, key, 1, rule, now).0
            && step.1 == (if step.0 then Some(true) else None)
            && step.2 == u.(rate := if step.0 then Charge(u.rate, key, 1, rule, now).1
                                    else Check(u.rate, key, 1, rule, now).1)
  {
  }

  /** What steps 5b to 7 do to the caller's quota, given whether the cost fits. */
  function QuotaAfter(quota: map<string, Level>, c: PublicKey, cost: u64, rule: Option<RateLimitRule>, now: u64,
                      succeeded: bool): map<string, Level>
  {
    if cost == 0 || rule.None? then quota
    else if succeeded then Charge(quota, ToHex(c), cost, rule.value, now).1
    else Check(quota, ToHex(c), cost, rule.value, now).1
  }

  predicate Affordable(quota: map<string, Level>, c: PublicKey, cost: u64, rule: Option<RateLimitRule>, now: u64) {
    cost == 0 || rule.None? || Check(quota, ToHex(c), cost, rule.value, now).0
  }

  lemma SpendEffect(codec: Codec, call: Call, u: UsageState, c: PublicKey, now: u64, oracle: Oracle,
                    quota: Option<RateLimitRule>, rateCharge: Option<bool>)
    ensures var o := Spend(codec, call, u, c, now, oracle, quota, rateCharge);
            && o.usage.rate == u.rate && o.prepared && o.rateCharge == rateCharge
            && match oracle.prepared
               case Failure(code) => o == Outcome(Failure(code), u, true, false, 0, rateCharge, None)
               case Success(cost) =>
                 && o.cost == cost
                 && (o.reply.Success? ==> Affordable(u.quota, c, cost, quota, now))
                 && o.quotaCharge == (if o.reply.Success? && cost > 0 && quota.Some? then Some(true) else None)
                 && o.usage.quota == QuotaAfter(u.quota, c, cost, quota, now, o.reply.Success?)
                 && o.executed == (Affordable(u.quota, c, cost, quota, now) && Dispatch(codec, call, oracle.executed).0)
                 && o.reply == (if Affordable(u.quota, c, cost, quota, now)
                                then Dispatch(codec, call, oracle.executed).1 else Failure(QuotaExceeded))
  {
    if oracle.prepared.Success? && oracle.prepared.value > 0 && quota.Some? {
      var cost, rule := oracle.prepared.value, quota.value;
      CheckedChargeSucceeds(u.quota, ToHex(c), cost, rule, now);
      var checked := Check(u.quota, ToHex(c), cost, rule, now);
      assert QuotaStep(u, c, cost, quota, now) == (checked.0, u.(quota := checked.1));
    }
  }

  /** Neither result the service discards is ever false. */
  lemma DiscardedResultsAreTrue(codec: Codec, call: Call, methods: seq<string>, grants: GrantStore, u: UsageState,
                                c: PublicKey, now: u64, oracle: Oracle)
    ensures var o := Handle(codec, call, methods, grants, u, c, now, oracle);
            o.rateCharge != Some(false) && o.quotaCharge != Some(false)
  {
    var admitted := Admit(codec, call, methods, grants, c);
    if admitted.Success? {
      ChargesOf(codec, call, admitted.value, u, c, now, oracle);
    }
  }

  lemma ChargesOf(codec: Codec, call: Call, terms: Terms, u: UsageState, c: PublicKey, now: u64, oracle: Oracle)
    ensures var o := Proceed(codec, call, terms, u, c, now, oracle);
            o.rateCharge != Some(false) && o.quotaCharge != Some(false)
  {
  }

  /** Once the node has prepared, the answer is the node's own: its refusal to
      prepare, its result, or that the quoted cost exceeds the quota. Nothing
      executes that was not prepared. */
  lemma NodeHasTheLastWord(codec: Codec, protocol: Protocol, r: Request, methods: seq<string>, grants: GrantStore,
                           u: UsageState, c: PublicKey, now: u64, oracle: Oracle)
    ensures var o := Handle(codec, CallFor(protocol, r), methods, grants, u, c, now, oracle);
            && (o.executed ==> o.prepared)
            && (o.prepared ==>
                  match oracle.prepared
                  case Failure(code) => o.reply == Failure(code) && !o.executed
                  case Success(cost) =>
                    (o.executed && o.reply == oracle.executed) || (!o.executed && o.reply == Failure(QuotaExceeded)))
  {
    var call := CallFor(protocol, r);
    var admitted := Admit(codec, call, methods, grants, c);
    if admitted.Success? {
      ValidationCoversDispatch(codec, protocol, r, oracle.executed);
      LastWord(codec, call, admitted.value, u, c, now, oracle);
    }
  }

  lemma LastWord(codec: Codec, call: Call, terms: Terms, u: UsageState, c: PublicKey, now: u64, oracle: Oracle)
    requires Dispatch(codec, call, oracle.executed) == (true, oracle.executed)
    ensures var o := Proceed(codec, call, terms, u, c, now, oracle);
            && (o.executed ==> o.prepared)
            && (o.prepared ==>
                  match oracle.prepared
                  case Failure(code) => o.reply == Failure(code) && !o.executed
                  case Success(cost) =>
                    (o.executed && o.reply == oracle.executed) || (!o.executed && o.reply == Failure(QuotaExceeded)))
  {
  }

  lemma RateStepSparesQuota(u: UsageState, c: PublicKey, name: string, rate: Option<RateLimitRule>, now: u64)
    ensures RateStep(u, c, name, rate, now).2.quota == u.quota
  {
  }

  /** The quota a request leaves, in terms of what it found. */
  lemma QuotaEffect(codec: Codec, call: Call, terms: Terms, u: UsageState, c: PublicKey, now: u64, oracle: Oracle)
    ensures var o := Proceed(codec, call, terms, u, c, now, oracle);
            && (o.reply.Success? ==>
                  oracle.prepared == Success(o.cost) && Affordable(u.quota, c, o.cost, terms.quota, now))
            && (|| o.usage.quota == u.quota
                || o.usage.quota == QuotaAfter(u.quota, c, o.cost, terms.quota, now, o.reply.Success?))
            && (o.reply.Success? ==> o.usage.quota == QuotaAfter(u.quota, c, o.cost, terms.quota, now, true))
  {
    RateStepSparesQuota(u, c, call.name, terms.rate, now);
    var (_, charge, after) := RateStep(u, c, call.name, terms.rate, now);
    SpendEffect(codec, call, after, c, now, oracle, terms.quota, charge);
  }

  /** A success withdraws precisely the cost that was quoted and checked. */
  lemma SuccessWithdrawsTheQuote(codec: Codec, call: Call, terms: Terms, u: UsageState, c: PublicKey, now: u64,
                                 oracle: Oracle)
    requires Proceed(codec, call, terms, u, c, now, oracle).reply.Success?
    ensures var o := Proceed(codec, call, terms, u, c, now, oracle);
            && oracle.prepared == Success(o.cost)
            && (if o.cost > 0 && terms.quota.Some? then
                  && o.cost <= QuotaLeft(u, ToHex(c), terms.quota.value, now)
                  && o.usage.quota == u.quota[ToHex(c) :=
                       Level(QuotaLeft(u, ToHex(c), terms.quota.value, now) - o.cost, now)]
                else o.usage.quota == u.quota)
  {
    QuotaEffect(codec, call, terms, u, c, now, oracle);
  }

  lemma CheckLeavesBalance(quota: map<string, Level>, c: string, cost: u64, rule: RateLimitRule, now: u64, later: u64)
    ensures Entry(Check(quota, c, cost, rule, now).1, c, rule, later).BalanceAt(later, rule)
         == Entry(quota, c, rule, later).BalanceAt(later, rule)
  {
    UntouchedBalance(Level.Full(rule, now), later, rule);
    UntouchedBalance(Level.Full(rule, later), later, rule);
  }

  /** A failure at any step leaves every quota as it was: other controllers'
      buckets untouched, and the caller's balance the same at every instant
      under the rule in force. */
  lemma FailureSparesQuota(codec: Codec, call: Call, methods: seq<string>, grants: GrantStore, u: UsageState,
                           c: PublicKey, now: u64, oracle: Oracle, rule: RateLimitRule, later: u64)
    requires Handle(codec, call, methods, grants, u, c, now, oracle).reply.Failure?
    requires var admitted := Admit(codec, call, methods, grants, c);
             admitted.Success? && admitted.value.quota.Some? ==> admitted.value.quota == Some(rule)
    ensures var o := Handle(codec, call, methods, grants, u, c, now, oracle);
            && o.usage.quota - {ToHex(c)} == u.quota - {ToHex(c)}
            && QuotaLeft(o.usage, ToHex(c), rule, later) == QuotaLeft(u, ToHex(c), rule, later)
  {
    var admitted := Admit(codec, call, methods, grants, c);
    if admitted.Success? {
      QuotaEffect(codec, call, admitted.value, u, c, now, oracle);
      var o := Proceed(codec, call, admitted.value, u, c, now, oracle);
      CheckLeavesBalance(u.quota, ToHex(c), o.cost, rule, now, later);
    }
  }

  // ---------------------------------------------------------------------
  // What a request is due
  // ---------------------------------------------------------------------

  /** The tokens a bucket yields, in unbounded arithmetic; a missing bucket counts
      as full. */
  ghost function TokensLeft(bucket: Option<Level>, rule: RateLimitRule, now: u64): int
    requires rule.IsValid()
  {
    match bucket
    case None => rule.maxCapacity
    case Some(level) => Min(level.balance + Refill(rule, Elapsed(level.since, now)), rule.maxCapacity)
  }

  lemma EntryYields<K>(m: map<K, Level>, k: K, rule: RateLimitRule, now: u64)
    requires rule.IsValid()
    ensures Entry(m, k, rule, now).BalanceAt(now, rule) == TokensLeft(Get(m, k), rule, now)
  {
    BalanceIsExact(Entry(m, k, rule, now), now, rule);
  }

  /** What is left after a withdrawal, and what a bucket looked at in vain is. */
  ghost function Taken<K>(m: map<K, Level>, k: K, cost: int, rule: RateLimitRule, now: u64): map<K, Level>
    requires rule.IsValid() && 0 <= cost <= TokensLeft(Get(m, k), rule, now)
  {
    m[k := Level(TokensLeft(Get(m, k), rule, now) - cost, now)]
  }

  ghost function Noticed<K>(m: map<K, Level>, k: K, rule: RateLimitRule, now: u64): map<K, Level> {
    if k in m then m else m[k := Level(rule.maxCapacity, now)]
  }

  lemma CheckAndChargeAre<K>(m: map<K, Level>, k: K, cost: u64, rule: RateLimitRule, now: u64)
    requires rule.IsValid()
    ensures var left := TokensLeft(Get(m, k), rule, now);
            && Check(m, k, cost, rule, now) == (cost <= left, Noticed(m, k, rule, now))
            && (cost <= left ==> Charge(m, k, cost, rule, now) == (true, Taken(m, k, cost, rule, now)))
  {
    EntryYields(m, k, rule, now);
    if k in m {
      assert m[k := m[k]] == m;
    }
  }

  /** The call is not held back: it has no rate, or a token left. */
  ghost predicate HasToken(u: UsageState, c: PublicKey, name: string, rate: Option<RateLimitRule>, now: u64)
    requires rate.Some? ==> rate.value.IsValid()
  {
    rate.Some? ==> TokensLeft(Get(u.rate, (ToHex(c), name)), rate.value, now) >= 1
  }

  /** The cost is nothing, or there is no quota, or the quota covers it. */
  ghost predicate Covered(u: UsageState, c: PublicKey, cost: u64, quota: Option<RateLimitRule>, now: u64)
    requires quota.Some? ==> quota.value.IsValid()
  {
    cost > 0 && quota.Some? ==> cost <= TokensLeft(Get(u.quota, ToHex(c)), quota.value, now)
  }

  ghost predicate ValidTerms(terms: Terms) {
    (terms.rate.Some? ==> terms.rate.value.IsValid()) && (terms.quota.Some? ==> terms.quota.value.IsValid())
  }

  lemma RateStepIs(u: UsageState, c: PublicKey, name: string, rate: Option<RateLimitRule>, now: u64)
    requires rate.Some? ==> rate.value.IsValid()
    ensures var step, key := RateStep(u, c, name, rate, now), (ToHex(c), name);
            && (step.0 <==> HasToken(u, c, name, rate, now))
            && step.2.quota == u.quota
            && step.2.rate == if rate.None? then u.rate
                              else if step.0 then Taken(u.rate, key, 1, rate.value, now)
                              else Noticed(u.rate, key, rate.value, now)
  {
    if rate.Some? {
      CheckAndChargeAre(u.rate, (ToHex(c), name), 1, rate.value, now);
      RateStepEffect(u, c, name, rate.value, now);
    }
  }

  lemma AffordableIffCovered(u: UsageState, c: PublicKey, cost: u64, quota: Option<RateLimitRule>, now: u64)
    requires quota.Some? ==> quota.value.IsValid()
    ensures Affordable(u.quota, c, cost, quota, now) <==> Covered(u, c, cost, quota, now)
    ensures cost > 0 && quota.Some? ==>
              && QuotaAfter(u.quota, c, cost, quota, now, false) == Noticed(u.quota, ToHex(c), quota.value, now)
              && (Covered(u, c, cost, quota, now) ==>
                    QuotaAfter(u.quota, c, cost, quota, now, true) == Taken(u.quota, ToHex(c), cost, quota.value, now))
  {
    if quota.Some? {
      CheckAndChargeAre(u.quota, ToHex(c), cost, quota.value, now);
    }
  }

  /** What an admitted request comes to, both ways: a call with a token makes the
      node prepare, a covered cost makes it execute, and its answer is passed on;
      any other call is told why not. */
  lemma AdmittedIsDue(codec: Codec, call: Call, terms: Terms, u: UsageState, c: PublicKey, now: u64, oracle: Oracle)
    requires ValidTerms(terms) && Dispatch(codec, call, oracle.executed) == (true, oracle.executed)
    ensures var o := Proceed(codec, call, terms, u, c, now, oracle);
            && (o.prepared <==> HasToken(u, c, call.name, terms.rate, now))
            && (o.executed <==> o.prepared && oracle.prepared.Success? &&
                                Covered(u, c, oracle.prepared.value, terms.quota, now))
            && o.reply == if !o.prepared then Failure(RateLimited)
                          else if oracle.prepared.Failure? then Failure(oracle.prepared.error)
                          else if !o.executed then Failure(QuotaExceeded)
                          else oracle.executed
  {
    RateStepIs(u, c, call.name, terms.rate, now);
    var (_, charge, after) := RateStep(u, c, call.name, terms.rate, now);
    SpendEffect(codec, call, after, c, now, oracle, terms.quota, charge);
    if oracle.prepared.Success? {
      AffordableIffCovered(after, c, oracle.prepared.value, terms.quota, now);
    }
  }

  /** The buckets a request leaves, to the token: one call is taken if it had a
      token, the cost if it succeeded, and a bucket looked at exists. */
  ghost predicate LeavesBuckets(u: UsageState, c: PublicKey, name: string, terms: Terms, now: u64, oracle: Oracle,
                                o: Outcome)
    requires ValidTerms(terms)
  {
    var key := (ToHex(c), name);
    && o.usage.rate == (if terms.rate.None? then u.rate
                        else if HasToken(u, c, name, terms.rate, now) then Taken(u.rate, key, 1, terms.rate.value, now)
                        else Noticed(u.rate, key, terms.rate.value, now))
    && (if o.prepared && oracle.prepared.Success? && oracle.prepared.value > 0 && terms.quota.Some? then
          var cost, rule := oracle.prepared.value, terms.quota.value;
          if o.reply.Success? then
            Covered(u, c, cost, terms.quota, now) && o.usage.quota == Taken(u.quota, ToHex(c), cost, rule, now)
          else o.usage.quota == Noticed(u.quota, ToHex(c), rule, now)
        else o.usage.quota == u.quota)
  }

  lemma AdmittedLeaves(codec: Codec, call: Call, terms: Terms, u: UsageState, c: PublicKey, now: u64, oracle: Oracle)
    requires ValidTerms(terms)
    ensures LeavesBuckets(u, c, call.name, terms, now, oracle, Proceed(codec, call, terms, u, c, now, oracle))
  {
    RateStepIs(u, c, call.name, terms.rate, now);
    var (_, charge, after) := RateStep(u, c, call.name, terms.rate, now);
    SpendEffect(codec, call, after, c, now, oracle, terms.quota, charge);
    if oracle.prepared.Success? {
      AffordableIffCovered(after, c, oracle.prepared.value, terms.quota, now);
    }
  }

  // ---------------------------------------------------------------------
  // Controllers do not touch each other's buckets
  // ---------------------------------------------------------------------

  /** The two stores hold the same buckets for this controller. */
  ghost predicate SameFor(c: PublicKey, u: UsageState, v: UsageState) {
    Get(u.quota, ToHex(c)) == Get(v.quota, ToHex(c)) &&
    forall name :: Get(u.rate, (ToHex(c), name)) == Get(v.rate, (ToHex(c), name))
  }

  lemma CheckAndChargeAreLocal<K>(m: map<K, Level>, n: map<K, Level>, k: K, cost: u64, rule: RateLimitRule, now: u64)
    requires Get(m, k) == Get(n, k)
    ensures Check(m, k, cost, rule, now).0 == Check(n, k, cost, rule, now).0
    ensures Get(Check(m, k, cost, rule, now).1, k) == Get(Check(n, k, cost, rule, now).1, k)
    ensures Get(Charge(m, k, cost, rule, now).1, k) == Get(Charge(n, k, cost, rule, now).1, k)
    ensures forall j :: j != k ==> Get(Check(m, k, cost, rule, now).1, j) == Get(m, j)
    ensures forall j :: j != k ==> Get(Charge(m, k, cost, rule, now).1, j) == Get(m, j)
  {
  }

  lemma RateStepLocal(u: UsageState, v: UsageState, c: PublicKey, name: string, rate: Option<RateLimitRule>, now: u64)
    requires SameFor(c, u, v)
    ensures var x, y := RateStep(u, c, name, rate, now), RateStep(v, c, name, rate, now);
            x.0 == y.0 && x.1 == y.1 && SameFor(c, x.2, y.2)
  {
  }

  lemma SpendLocal(codec: Codec, call: Call, u: UsageState, v: UsageState, c: PublicKey, now: u64, oracle: Oracle,
                   quota: Option<RateLimitRule>, rateCharge: Option<bool>)
    requires SameFor(c, u, v)
    ensures var x, y := Spend(codec, call, u, c, now, oracle, quota, rateCharge),
                        Spend(codec, call, v, c, now, oracle, quota, rateCharge);
            x.(usage := NOTHING_SPENT) == y.(usage := NOTHING_SPENT) && SameFor(c, x.usage, y.usage)
  {
    SpendEffect(codec, call, u, c, now, oracle, quota, rateCharge);
    SpendEffect(codec, call, v, c, now, oracle, quota, rateCharge);
    if quota.Some? && oracle.prepared.Success? {
      CheckAndChargeAreLocal(u.quota, v.quota, ToHex(c), oracle.prepared.value, quota.value, now);
    }
  }

  /** A controller's answer depends on no other controller's buckets. */
  lemma HandleIsLocal(codec: Codec, call: Call, methods: seq<string>, grants: GrantStore,
                      u: UsageState, v: UsageState, c: PublicKey, now: u64, oracle: Oracle)
    requires SameFor(c, u, v)
    ensures var x, y := Handle(codec, call, methods, grants, u, c, now, oracle),
                        Handle(codec, call, methods, grants, v, c, now, oracle);
            x.(usage := NOTHING_SPENT) == y.(usage := NOTHING_SPENT) && SameFor(c, x.usage, y.usage)
  {
    var admitted := Admit(codec, call, methods, grants, c);
    if admitted.Success? {
      var terms := admitted.value;
      RateStepLocal(u, v, c, call.name, terms.rate, now);
      var (_, charge, u') := RateStep(u, c, call.name, terms.rate, now);
      SpendLocal(codec, call, u', RateStep(v, c, call.name, terms.rate, now).2, c, now, oracle, terms.quota, charge);
    }
  }

  lemma ProceedSparesOthers(codec: Codec, call: Call, terms: Terms, u: UsageState, c: PublicKey, now: u64,
                            oracle: Oracle, other: PublicKey)
    requires other != c
    ensures SameFor(other, Proceed(codec, call, terms, u, c, now, oracle).usage, u)
  {
    if terms.rate.Some? {
      RateStepEffect(u, c, call.name, terms.rate.value, now);
      CheckAndChargeAreLocal(u.rate, u.rate, (ToHex(c), call.name), 1, terms.rate.value, now);
    }
    var (_, charge, after) := RateStep(u, c, call.name, terms.rate, now);
    SpendEffect(codec, call, after, c, now, oracle, terms.quota, charge);
    if terms.quota.Some? && oracle.prepared.Success? {
      CheckAndChargeAreLocal(u.quota, u.quota, ToHex(c), oracle.prepared.value, terms.quota.value, now);
    }
  }

  lemma ProceedSparesOtherCalls(codec: Codec, call: Call, terms: Terms, u: UsageState, c: PublicKey, now: u64,
                                oracle: Oracle, name: string)
    requires name != call.name
    ensures Get(Proceed(codec, call, terms, u, c, now, oracle).usage.rate, (ToHex(c), name))
         == Get(u.rate, (ToHex(c), name))
  {
    if terms.rate.Some? {
      RateStepEffect(u, c, call.name, terms.rate.value, now);
      CheckAndChargeAreLocal(u.rate, u.rate, (ToHex(c), call.name), 1, terms.rate.value, now);
    }
    var (_, charge, after) := RateStep(u, c, call.name, terms.rate, now);
    SpendEffect(codec, call, after, c, now, oracle, terms.quota, charge);
  }

  /** Nor does it change any. */
  lemma HandleSparesOthers(codec: Codec, call: Call, methods: seq<string>, grants: GrantStore, u: UsageState,
                           c: PublicKey, now: u64, oracle: Oracle, other: PublicKey)
    requires other != c
    ensures SameFor(other, Handle(codec, call, methods, grants, u, c, now, oracle).usage, u)
  {
    var admitted := Admit(codec, call, methods, grants, c);
    if admitted.Success? {
      ProceedSparesOthers(codec, call, admitted.value, u, c, now, oracle, other);
    }
  }

  // ---------------------------------------------------------------------
  // What one request adds to a meter's account
  // ---------------------------------------------------------------------

  lemma TallyAfterCheck<K>(m: map<K, Level>, k: K, cost: u64, spent: nat, moved: nat, now: u64, rule: RateLimitRule)
    requires rule.IsValid() && Conserved(Get(m, k), spent, moved, now, rule)
    ensures Conserved(Get(Check(m, k, cost, rule, now).1, k), spent, moved, now, rule)
  {
  }

  lemma TallyAfterCharge<K>(m: map<K, Level>, k: K, cost: u64, spent: nat, moved: nat, now: u64, rule: RateLimitRule)
    requires rule.IsValid() && Conserved(Get(m, k), spent, moved, now, rule)
    requires Check(m, k, cost, rule, now).0
    ensures Conserved(Get(Charge(m, k, cost, rule, now).1, k), spent + cost, moved, now, rule)
  {
    WithdrawalConserves(Get(m, k), spent, moved, cost, now, rule);
  }

  /** The money a request moved. */
  function SpentBy(o: Outcome): nat {
    if o.reply.Success? then o.cost else 0
  }

  lemma RequestKeepsQuotaTally(codec: Codec, call: Call, terms: Terms, u: UsageState, c: PublicKey, now: u64,
                               oracle: Oracle, spent: nat, moved: nat, rule: RateLimitRule)
    requires rule.IsValid() && Conserved(Get(u.quota, ToHex(c)), spent, moved, now, rule)
    requires terms.quota == Some(rule)
    ensures var o := Proceed(codec, call, terms, u, c, now, oracle);
            Conserved(Get(o.usage.quota, ToHex(c)), spent + SpentBy(o), moved, now, rule)
  {
    QuotaEffect(codec, call, terms, u, c, now, oracle);
    var o := Proceed(codec, call, terms, u, c, now, oracle);
    TallyAfterCheck(u.quota, ToHex(c), o.cost, spent, moved, now, rule);
    if o.reply.Success? && o.cost > 0 {
      TallyAfterCharge(u.quota, ToHex(c), o.cost, spent, moved, now, rule);
    }
  }

  /** The preparations a request provoked. */
  function PreparedBy(o: Outcome): nat {
    if o.prepared then 1 else 0
  }

  lemma RequestKeepsRateTally(codec: Codec, call: Call, terms: Terms, u: UsageState, c: PublicKey, now: u64,
                              oracle: Oracle, count: nat, moved: nat, rule: RateLimitRule)
    requires rule.IsValid() && Conserved(Get(u.rate, (ToHex(c), call.name)), count, moved, now, rule)
    requires terms.rate == Some(rule)
    ensures var o := Proceed(codec, call, terms, u, c, now, oracle);
            Conserved(Get(o.usage.rate, (ToHex(c), call.name)), count + PreparedBy(o), moved, now, rule)
  {
    var key := (ToHex(c), call.name);
    RateStepEffect(u, c, call.name, rule, now);
    var (ok, charge, after) := RateStep(u, c, call.name, terms.rate, now);
    SpendEffect(codec, call, after, c, now, oracle, terms.quota, charge);
    if ok {
      TallyAfterCharge(u.rate, key, 1, count, moved, now, rule);
    } else {
      TallyAfterCheck(u.rate, key, 1, count, moved, now, rule);
    }
  }
}
