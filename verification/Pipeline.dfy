/** How a request is served, from the first check to the final charge; wallet and
    control requests differ only in the tables they are looked up in.

    What the node's own handler answers when asked to prepare and to execute is
    an arbitrary input of each request, so every claim holds for every node. */
module Pipeline {
  import opened Wrappers
  import opened Keys
  import opened Limit
  import opened UsageStore
  import opened Profile
  import opened Methods
  import opened Grants
  import opened Codecs

  datatype Protocol = Wallet | Control

  datatype ErrorCode =
    | RateLimited | NotImplemented | RestrictedCode | UnauthorizedCode | QuotaExceeded
    | UnsupportedEncryption | Internal | Other
    | HandlerError(code: string)

  type Reply = Result<Value, ErrorCode>

  /** The handler's answers: a cost in satoshis, then a result. */
  datatype Oracle = Oracle(prepared: Result<u64, ErrorCode>, executed: Reply)

  /** What a request did. `cost` is the prepared cost, zero before that step;
      the charges record the results that the service discards. */
  datatype Outcome = Outcome(
    reply: Reply, usage: UsageState, prepared: bool, executed: bool, cost: u64,
    rateCharge: Option<bool>, quotaCharge: Option<bool>)

  function Deny(d: Denied): ErrorCode {
    match d
    case Unauthorized => UnauthorizedCode
    case Restricted => RestrictedCode
  }

  function Allows(profile: UsageProfile, protocol: Protocol, name: string): Result<Option<RateLimitRule>, Denied> {
    match protocol
    case Wallet => profile.AllowsWallet(name)
    case Control => profile.AllowsControl(name)
  }

  /** What a permitted call is held to. */
  datatype Terms = Terms(rate: Option<RateLimitRule>, quota: Option<RateLimitRule>)

  /** Step 3. */
  function Authorize(grants: GrantStore, protocol: Protocol, c: PublicKey, name: string): Result<Terms, Denied> {
    match grants.Resolve(c)
    case Failure(d) => Failure(d)
    case Success(grant) =>
      match Allows(grant.profile, protocol, name)
      case Failure(d) => Failure(d)
      case Success(rate) => Success(Terms(rate, grant.profile.quota))
  }

  /** A request's method, looked up in the protocol's tables: its wire name, the
      type step 4 reads the parameters as, and the type dispatch reads them as. */
  datatype Call = Call(
    protocol: Protocol, name: string, validatedAs: Option<RequestType>, dispatchedAs: Option<RequestType>,
    params: Value)

  function CallFor(protocol: Protocol, r: Request): Call {
    var called := ParseMethod(r.name);
    var name := MethodName(called);
    match protocol
    case Wallet =>
      Call(protocol, name, WalletValidatedAs(ParseWalletMethod(name)), WalletDispatchedAs(ParseWalletMethod(name)),
           r.params)
    case Control =>
      Call(protocol, name, ValidatedAs(called), DispatchedAs(called), r.params)
  }

  /** Step 4. */
  function Validate(codec: Codec, call: Call): Option<ErrorCode> {
    match call.validatedAs
    case None => Some(NotImplemented)
    case Some(t) => if codec.fits(t, call.params) then None else Some(Other)
  }

  /** Step 6: dispatch finds the typed call and parses the parameters again,
      with errors of its own, before the handler answers. The flag says whether
      the handler was reached. */
  function Dispatch(codec: Codec, call: Call, answer: Reply): (bool, Reply) {
    match call.dispatchedAs
    case None => (false, Failure(NotImplemented))
    case Some(t) => if codec.fits(t, call.params) then (true, answer) else (false, Failure(Other))
  }

  function Refused(code: ErrorCode, u: UsageState): Outcome {
    Outcome(Failure(code), u, false, false, 0, None, None)
  }

  /** Step 5a: whether the call may go on, the discarded charge, the usage. */
  function RateStep(u: UsageState, c: PublicKey, name: string, rate: Option<RateLimitRule>, now: u64)
    : (bool, Option<bool>, UsageState)
  {
    match rate
    case None => (true, None, u)
    case Some(rule) =>
      var (ok, checked) := u.RateAllows(c, name, rule, now);
      if !ok then (false, None, checked)
      else
        var (charged, after) := checked.ChargeRate(c, name, rule, now);
        (true, Some(charged), after)
  }

  /** Step 5c: a free call is not held to the quota. */
  function QuotaStep(u: UsageState, c: PublicKey, cost: u64, quota: Option<RateLimitRule>, now: u64)
    : (bool, UsageState)
  {
    if cost > 0 && quota.Some? then u.QuotaAllows(c, cost, quota.value, now) else (true, u)
  }

  /** Step 7: the quoted cost, and only for a success. */
  function CommitStep(u: UsageState, c: PublicKey, cost: u64, quota: Option<RateLimitRule>, now: u64)
    : (Option<bool>, UsageState)
  {
    if cost > 0 && quota.Some? then
      var (charged, after) := u.ChargeQuota(c, cost, quota.value, now);
      (Some(charged), after)
    else (None, u)
  }

  /** Steps 5b to 7, with the rate already charged. */
  function Spend(codec: Codec, call: Call, u: UsageState, c: PublicKey, now: u64, oracle: Oracle,
                 quota: Option<RateLimitRule>, rateCharge: Option<bool>): Outcome
  {
    match oracle.prepared
    case Failure(code) => Outcome(Failure(code), u, true, false, 0, rateCharge, None)
    case Success(cost) =>
      var (ok, checked) := QuotaStep(u, c, cost, quota, now);
      if !ok then Outcome(Failure(QuotaExceeded), checked, true, false, cost, rateCharge, None)
      else
        var (executed, reply) := Dispatch(codec, call, oracle.executed);
        match reply
        case Failure(_) => Outcome(reply, checked, true, executed, cost, rateCharge, None)
        case Success(_) =>
          var (charged, after) := CommitStep(checked, c, cost, quota, now);
          Outcome(reply, after, true, executed, cost, rateCharge, charged)
  }

  /** Steps 2 to 4, which touch no bucket: the terms of a call that may go on. */
  function Admit(codec: Codec, call: Call, methods: seq<string>, grants: GrantStore, c: PublicKey)
    : Result<Terms, ErrorCode>
  {
    if call.name !in methods then Failure(NotImplemented)
    else
      match Authorize(grants, call.protocol, c, call.name)
      case Failure(d) => Failure(Deny(d))
      case Success(terms) =>
        match Validate(codec, call)
        case Some(code) => Failure(code)
        case None => Success(terms)
  }

  /** Steps 5 to 7. */
  function Proceed(codec: Codec, call: Call, terms: Terms, u: UsageState, c: PublicKey, now: u64, oracle: Oracle)
    : Outcome
  {
    var (ok, charged, after) := RateStep(u, c, call.name, terms.rate, now);
    if !ok then Refused(RateLimited, after)
    else Spend(codec, call, after, c, now, oracle, terms.quota, charged)
  }

  function Handle(codec: Codec, call: Call, methods: seq<string>, grants: GrantStore, u: UsageState,
                  c: PublicKey, now: u64, oracle: Oracle): Outcome
  {
    match Admit(codec, call, methods, grants, c)
    case Failure(code) => Refused(code, u)
    case Success(terms) => Proceed(codec, call, terms, u, c, now, oracle)
  }

  // ---------------------------------------------------------------------
  // The request as the service runs it, on the live buckets
  // ---------------------------------------------------------------------

  method ChargeCall(usage: Usage, c: PublicKey, name: string, rate: Option<RateLimitRule>, now: u64)
    returns (ok: bool)
    requires usage.Valid()
    modifies usage, usage.Buckets()
    ensures usage.Valid() && fresh(usage.Buckets() - old(usage.Buckets()))
    ensures ok == RateStep(old(usage.View()), c, name, rate, now).0
    ensures usage.View() == RateStep(old(usage.View()), c, name, rate, now).2
  {
    if rate.None? {
      return true;
    }
    ok := usage.RateAllows(c, name, rate.value, now);
    if ok {
      var _ := usage.ChargeRate(c, name, rate.value, now);
    }
  }

  method PrepareAndExecute(codec: Codec, call: Call, usage: Usage, c: PublicKey, now: u64, oracle: Oracle,
                           quota: Option<RateLimitRule>, ghost rateCharge: Option<bool>)
    returns (reply: Reply)
    requires usage.Valid()
    modifies usage, usage.Buckets()
    ensures usage.Valid() && fresh(usage.Buckets() - old(usage.Buckets()))
    ensures var o := Spend(codec, call, old(usage.View()), c, now, oracle, quota, rateCharge);
            reply == o.reply && usage.View() == o.usage
  {
    if oracle.prepared.Failure? {
      return Failure(oracle.prepared.error);
    }
    var cost := oracle.prepared.value;
    if cost > 0 && quota.Some? {
      var within := usage.QuotaAllows(c, cost, quota.value, now);
      if !within {
        return Failure(QuotaExceeded);
      }
    }
    reply := Dispatch(codec, call, oracle.executed).1;
    if reply.Success? && cost > 0 && quota.Some? {
      var _ := usage.ChargeQuota(c, cost, quota.value, now);
    }
  }

  /** One step after another, leaving at the first refusal. */
  method Serve(codec: Codec, call: Call, methods: seq<string>, grants: Grants, usage: Usage,
               c: PublicKey, now: u64, oracle: Oracle)
    returns (reply: Reply)
    requires usage.Valid()
    modifies usage, usage.Buckets()
    ensures usage.Valid() && fresh(usage.Buckets() - old(usage.Buckets()))
    ensures var o := Handle(codec, call, methods, grants.View(), old(usage.View()), c, now, oracle);
            reply == o.reply && usage.View() == o.usage
  {
    if call.name !in methods {
      return Failure(NotImplemented);
    }
    var grant := grants.Resolve(c);
    if grant.Failure? {
      return Failure(Deny(grant.error));
    }
    var profile := grant.value.profile;
    var rate := Allows(profile, call.protocol, call.name);
    if rate.Failure? {
      return Failure(Deny(rate.error));
    }
    var invalid := Validate(codec, call);
    if invalid.Some? {
      return Failure(invalid.value);
    }
    ghost var charge := RateStep(usage.View(), c, call.name, rate.value, now).1;
    var ok := ChargeCall(usage, c, call.name, rate.value, now);
    if !ok {
      return Failure(RateLimited);
    }
    reply := PrepareAndExecute(codec, call, usage, c, now, oracle, profile.quota, charge);
  }
}
