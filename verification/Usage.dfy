/** Every bucket in use, found by whom and what it limits. One that is asked for
    and not there is put there, at its ceiling. */
module UsageStore {
  import opened Wrappers
  import opened Keys
  import opened Limit
  import opened Allowance

  type RateKey = (string, string)

  const NOTHING_SPENT := UsageState(map[], map[])

  /** What is there, or else a full bucket. */
  function Entry<K>(m: map<K, Level>, k: K, rule: RateLimitRule, now: u64): Level {
    OrFull(Get(m, k), rule, now)
  }

  function Check<K>(m: map<K, Level>, k: K, cost: u64, rule: RateLimitRule, now: u64): (bool, map<K, Level>) {
    var level := Entry(m, k, rule, now);
    (level.CanWithdraw(cost, now, rule), m[k := level])
  }

  function Charge<K>(m: map<K, Level>, k: K, cost: u64, rule: RateLimitRule, now: u64): (bool, map<K, Level>) {
    var (ok, level) := Entry(m, k, rule, now).Withdraw(cost, now, rule);
    (ok, m[k := level])
  }

  /** The buckets that exist: by controller and method, and by controller. */
  datatype UsageState = UsageState(rate: map<RateKey, Level>, quota: map<string, Level>) {
    function RateAllows(c: PublicKey, name: string, rule: RateLimitRule, now: u64): (bool, UsageState) {
      var (ok, buckets) := Check(rate, (ToHex(c), name), 1, rule, now);
      (ok, this.(rate := buckets))
    }

    function QuotaAllows(c: PublicKey, cost: u64, rule: RateLimitRule, now: u64): (bool, UsageState) {
      var (ok, buckets) := Check(quota, ToHex(c), cost, rule, now);
      (ok, this.(quota := buckets))
    }

    function ChargeRate(c: PublicKey, name: string, rule: RateLimitRule, now: u64): (bool, UsageState) {
      var (ok, buckets) := Charge(rate, (ToHex(c), name), 1, rule, now);
      (ok, this.(rate := buckets))
    }

    function ChargeQuota(c: PublicKey, cost: u64, rule: RateLimitRule, now: u64): (bool, UsageState) {
      var (ok, buckets) := Charge(quota, ToHex(c), cost, rule, now);
      (ok, this.(quota := buckets))
    }
  }

  // ---------------------------------------------------------------------
  // Creating buckets late is the same as having had them all along
  // ---------------------------------------------------------------------

  datatype UsageOp =
    | AskRate(controller: PublicKey, name: string, now: u64)
    | AskQuota(controller: PublicKey, cost: u64, now: u64)
    | TakeRate(controller: PublicKey, name: string, now: u64)
    | TakeQuota(controller: PublicKey, cost: u64, now: u64)
  {
    predicate IsCheck() {
      AskRate? || AskQuota?
    }
  }

  /** The rule in force for every bucket there could be. */
  datatype Rules = Rules(rate: RateKey -> RateLimitRule, quota: string -> RateLimitRule)

  function Lazy(rules: Rules, u: UsageState, op: UsageOp): (bool, UsageState) {
    match op
    case AskRate(c, m, now) => u.RateAllows(c, m, rules.rate((ToHex(c), m)), now)
    case AskQuota(c, cost, now) => u.QuotaAllows(c, cost, rules.quota(ToHex(c)), now)
    case TakeRate(c, m, now) => u.ChargeRate(c, m, rules.rate((ToHex(c), m)), now)
    case TakeQuota(c, cost, now) => u.ChargeQuota(c, cost, rules.quota(ToHex(c)), now)
  }

  function LazyAnswers(rules: Rules, u: UsageState, ops: seq<UsageOp>): (answers: seq<bool>)
    ensures |answers| == |ops|
    decreases ops
  {
    if ops == [] then []
    else
      var (answer, next) := Lazy(rules, u, ops[0]);
      [answer] + LazyAnswers(rules, next, ops[1..])
  }

  /** A store that holds every bucket from the start and never creates one. */
  datatype Eager = Eager(rate: RateKey -> Level, quota: string -> Level)

  function AllFull(rules: Rules, start: u64): Eager {
    Eager(k => Level.Full(rules.rate(k), start), c => Level.Full(rules.quota(c), start))
  }

  function Put<K(==)>(f: K -> Level, key: K, level: Level): K -> Level {
    k => if k == key then level else f(k)
  }

  function EagerStep(rules: Rules, s: Eager, op: UsageOp): (bool, Eager) {
    match op
    case AskRate(c, m, now) => (s.rate((ToHex(c), m)).CanWithdraw(1, now, rules.rate((ToHex(c), m))), s)
    case AskQuota(c, cost, now) => (s.quota(ToHex(c)).CanWithdraw(cost, now, rules.quota(ToHex(c))), s)
    case TakeRate(c, m, now) =>
      var (ok, level) := s.rate((ToHex(c), m)).Withdraw(1, now, rules.rate((ToHex(c), m)));
      (ok, s.(rate := Put(s.rate, (ToHex(c), m), level)))
    case TakeQuota(c, cost, now) =>
      var (ok, level) := s.quota(ToHex(c)).Withdraw(cost, now, rules.quota(ToHex(c)));
      (ok, s.(quota := Put(s.quota, ToHex(c), level)))
  }

  function EagerAnswers(rules: Rules, s: Eager, ops: seq<UsageOp>): seq<bool>
    decreases ops
  {
    if ops == [] then []
    else
      var (answer, next) := EagerStep(rules, s, ops[0]);
      [answer] + EagerAnswers(rules, next, ops[1..])
  }

  /** The same bucket, or two that nothing has been taken from yet. */
  ghost predicate Alike(rule: RateLimitRule, lazy: Option<Level>, eager: Level) {
    match lazy
    case None => eager.balance == rule.maxCapacity
    case Some(level) => level == eager || level.balance == eager.balance == rule.maxCapacity
  }

  ghost predicate Refines<K(!new)>(rules: K -> RateLimitRule, lazy: map<K, Level>, eager: K -> Level) {
    forall k: K :: Alike(rules(k), Get(lazy, k), eager(k))
  }

  ghost predicate UsageRefines(rules: Rules, u: UsageState, s: Eager) {
    Refines(rules.rate, u.rate, s.rate) && Refines(rules.quota, u.quota, s.quota)
  }

  lemma UntouchedBalance(level: Level, now: u64, rule: RateLimitRule)
    requires level.balance == rule.maxCapacity
    ensures level.BalanceAt(now, rule) == if rule.IsValid() then rule.maxCapacity else 0
  {
    if rule.IsValid() {
      BalanceIsExact(level, now, rule);
    }
  }

  lemma AlikeAnswers(rule: RateLimitRule, lazy: Option<Level>, eager: Level, cost: u64, now: u64)
    requires Alike(rule, lazy, eager)
    ensures var level := OrFull(lazy, rule, now);
            && Alike(rule, Some(level), eager)
            && level.CanWithdraw(cost, now, rule) == eager.CanWithdraw(cost, now, rule)
            && level.Withdraw(cost, now, rule).0 == eager.Withdraw(cost, now, rule).0
            && Alike(rule, Some(level.Withdraw(cost, now, rule).1), eager.Withdraw(cost, now, rule).1)
  {
    var level := OrFull(lazy, rule, now);
    if level != eager {
      UntouchedBalance(level, now, rule);
      UntouchedBalance(eager, now, rule);
    }
  }

  lemma StoresStayAlike<K(!new)>(rules: K -> RateLimitRule, m: map<K, Level>, f: K -> Level, k: K, cost: u64,
                                 now: u64)
    requires Refines(rules, m, f)
    ensures Check(m, k, cost, rules(k), now).0 == f(k).CanWithdraw(cost, now, rules(k))
    ensures Refines(rules, Check(m, k, cost, rules(k), now).1, f)
    ensures Charge(m, k, cost, rules(k), now).0 == f(k).Withdraw(cost, now, rules(k)).0
    ensures Refines(rules, Charge(m, k, cost, rules(k), now).1, Put(f, k, f(k).Withdraw(cost, now, rules(k)).1))
  {
    assert Alike(rules(k), Get(m, k), f(k));
    AlikeAnswers(rules(k), Get(m, k), f(k), cost, now);
    var checked := Check(m, k, cost, rules(k), now).1;
    forall j ensures Alike(rules(j), Get(checked, j), f(j)) {
      assert Alike(rules(j), Get(m, j), f(j));
    }
    var charged := Charge(m, k, cost, rules(k), now).1;
    var g := Put(f, k, f(k).Withdraw(cost, now, rules(k)).1);
    forall j ensures Alike(rules(j), Get(charged, j), g(j)) {
      assert Alike(rules(j), Get(m, j), f(j));
    }
  }

  lemma LazyStepRefines(rules: Rules, u: UsageState, s: Eager, op: UsageOp)
    requires UsageRefines(rules, u, s)
    ensures Lazy(rules, u, op).0 == EagerStep(rules, s, op).0
    ensures UsageRefines(rules, Lazy(rules, u, op).1, EagerStep(rules, s, op).1)
  {
    match op
    case AskRate(c, m, now) => StoresStayAlike(rules.rate, u.rate, s.rate, (ToHex(c), m), 1, now);
    case TakeRate(c, m, now) => StoresStayAlike(rules.rate, u.rate, s.rate, (ToHex(c), m), 1, now);
    case AskQuota(c, cost, now) => StoresStayAlike(rules.quota, u.quota, s.quota, ToHex(c), cost, now);
    case TakeQuota(c, cost, now) => StoresStayAlike(rules.quota, u.quota, s.quota, ToHex(c), cost, now);
  }

  lemma {:induction false} LazyAnswersRefine(rules: Rules, u: UsageState, s: Eager, ops: seq<UsageOp>)
    requires UsageRefines(rules, u, s)
    ensures LazyAnswers(rules, u, ops) == EagerAnswers(rules, s, ops)
    decreases ops
  {
    if ops != [] {
      LazyStepRefines(rules, u, s, ops[0]);
      LazyAnswersRefine(rules, Lazy(rules, u, ops[0]).1, EagerStep(rules, s, ops[0]).1, ops[1..]);
    }
  }

  /** Under fixed rules, valid or not, and any clock, late creation is invisible. */
  lemma LazyRefinesEager(rules: Rules, start: u64, ops: seq<UsageOp>)
    ensures LazyAnswers(rules, NOTHING_SPENT, ops) == EagerAnswers(rules, AllFull(rules, start), ops)
  {
    LazyAnswersRefine(rules, NOTHING_SPENT, AllFull(rules, start), ops);
  }

  /** The elements whose mark is set. */
  function Select<T>(xs: seq<T>, keep: seq<bool>): seq<T>
    requires |xs| == |keep|
  {
    if xs == [] then []
    else
      var rest := Select(xs[1..], keep[1..]);
      if keep[0] then [xs[0]] + rest else rest
  }

  lemma {:induction false} ThinnedAnswers(rules: Rules, u: UsageState, v: UsageState, s: Eager,
                                          ops: seq<UsageOp>, keep: seq<bool>)
    requires |ops| == |keep| && forall i :: 0 <= i < |ops| && !keep[i] ==> ops[i].IsCheck()
    requires UsageRefines(rules, u, s) && UsageRefines(rules, v, s)
    ensures LazyAnswers(rules, v, Select(ops, keep)) == Select(LazyAnswers(rules, u, ops), keep)
    decreases ops
  {
    if ops != [] {
      LazyStepRefines(rules, u, s, ops[0]);
      LazyStepRefines(rules, v, s, ops[0]);
      var (answer, u') := Lazy(rules, u, ops[0]);
      var v' := if keep[0] then Lazy(rules, v, ops[0]).1 else v;
      ThinnedAnswers(rules, u', v', EagerStep(rules, s, ops[0]).1, ops[1..], keep[1..]);
      SelectHead(answer, LazyAnswers(rules, u', ops[1..]), keep);
      if keep[0] {
        LazyHead(rules, v, ops[0], Select(ops[1..], keep[1..]));
      }
    }
  }

  lemma SelectHead<T>(x: T, xs: seq<T>, keep: seq<bool>)
    requires |keep| == |xs| + 1
    ensures Select([x] + xs, keep)
         == if keep[0] then [x] + Select(xs, keep[1..]) else Select(xs, keep[1..])
  {
  }

  lemma LazyHead(rules: Rules, u: UsageState, op: UsageOp, ops: seq<UsageOp>)
    ensures LazyAnswers(rules, u, [op] + ops)
         == [Lazy(rules, u, op).0] + LazyAnswers(rules, Lazy(rules, u, op).1, ops)
  {
  }

  /** Leaving out any of the checks changes no other answer. */
  lemma ChecksAreUnobservable(rules: Rules, ops: seq<UsageOp>, keep: seq<bool>)
    requires |ops| == |keep| && forall i :: 0 <= i < |ops| && !keep[i] ==> ops[i].IsCheck()
    ensures LazyAnswers(rules, NOTHING_SPENT, Select(ops, keep))
         == Select(LazyAnswers(rules, NOTHING_SPENT, ops), keep)
  {
    ThinnedAnswers(rules, NOTHING_SPENT, NOTHING_SPENT, AllFull(rules, 0), ops, keep);
  }

  /** Across a change of rule a check can be seen: it fixes the bucket at the
      old ceiling. It stays invisible exactly when the new rule is invalid, and
      everything is refused, or its ceiling is not higher. */
  lemma CheckSurvivesRuleChangeIff(was: RateLimitRule, checkedAt: u64, rule: RateLimitRule)
    ensures (forall now: u64 ::
               Level.Full(was, checkedAt).BalanceAt(now, rule) == Level.Full(rule, now).BalanceAt(now, rule))
       <==> (!rule.IsValid() || rule.maxCapacity <= was.maxCapacity)
  {
    var left := Level.Full(was, checkedAt);
    if rule.IsValid() {
      forall now: u64 ensures Level.Full(rule, now).BalanceAt(now, rule) == rule.maxCapacity {
        UntouchedBalance(Level.Full(rule, now), now, rule);
      }
      if rule.maxCapacity <= was.maxCapacity {
        forall now: u64 ensures left.BalanceAt(now, rule) == rule.maxCapacity {
          BalanceIsExact(left, now, rule);
        }
      } else {
        BalanceIsExact(left, checkedAt, rule);
        assert rule.amount * Elapsed(checkedAt, checkedAt) == 0;
        assert left.BalanceAt(checkedAt, rule) == was.maxCapacity;
      }
    }
  }

  // ---------------------------------------------------------------------
  // The store as the service holds it
  // ---------------------------------------------------------------------

  class Usage {
    var rate: map<RateKey, Bucket>
    var quota: map<string, Bucket>

    ghost function Buckets(): set<Bucket>
      reads this
    {
      rate.Values + quota.Values
    }

    /** Every entry owns its bucket. */
    ghost predicate Valid()
      reads this
    {
      (forall j, k :: j in rate && k in rate && j != k ==> rate[j] != rate[k]) &&
      (forall j, k :: j in quota && k in quota && j != k ==> quota[j] != quota[k]) &&
      rate.Values !! quota.Values
    }

    ghost function View(): UsageState
      reads this, Buckets()
    {
      UsageState(map k | k in rate :: rate[k].View(), map k | k in quota :: quota[k].View())
    }

    constructor ()
      ensures Valid() && View() == NOTHING_SPENT && Buckets() == {}
    {
      rate, quota := map[], map[];
    }

    method RateEntry(key: RateKey, rule: RateLimitRule, now: u64) returns (b: Bucket)
      requires Valid()
      modifies this
      ensures Valid() && fresh(Buckets() - old(Buckets()))
      ensures key in rate && rate[key] == b && b.View() == Entry(old(View()).rate, key, rule, now)
      ensures View() == old(View()).(rate := old(View()).rate[key := b.View()])
    {
      if key !in rate {
        b := new Bucket.Full(rule, now);
        rate := rate[key := b];
      } else {
        b := rate[key];
      }
      assert View().quota == old(View()).quota;
      assert View().rate == old(View()).rate[key := b.View()];
    }

    method QuotaEntry(key: string, rule: RateLimitRule, now: u64) returns (b: Bucket)
      requires Valid()
      modifies this
      ensures Valid() && fresh(Buckets() - old(Buckets()))
      ensures key in quota && quota[key] == b && b.View() == Entry(old(View()).quota, key, rule, now)
      ensures View() == old(View()).(quota := old(View()).quota[key := b.View()])
    {
      if key !in quota {
        b := new Bucket.Full(rule, now);
        quota := quota[key := b];
      } else {
        b := quota[key];
      }
      assert View().rate == old(View()).rate;
      assert View().quota == old(View()).quota[key := b.View()];
    }

    method TakeRate(key: RateKey, cost: u64, rule: RateLimitRule, now: u64) returns (ok: bool)
      requires Valid() && key in rate
      modifies rate[key]
      ensures ok == old(rate[key].View()).Withdraw(cost, now, rule).0
      ensures View() == old(View()).(rate := old(View()).rate[key := old(rate[key].View()).Withdraw(cost, now, rule).1])
    {
      ok := rate[key].Withdraw(cost, now, rule);
      assert rate[key] in rate.Values;
      assert View().quota == old(View()).quota;
      assert View().rate == old(View()).rate[key := rate[key].View()];
    }

    method TakeQuota(key: string, cost: u64, rule: RateLimitRule, now: u64) returns (ok: bool)
      requires Valid() && key in quota
      modifies quota[key]
      ensures ok == old(quota[key].View()).Withdraw(cost, now, rule).0
      ensures View()
           == old(View()).(quota := old(View()).quota[key := old(quota[key].View()).Withdraw(cost, now, rule).1])
    {
      ok := quota[key].Withdraw(cost, now, rule);
      assert quota[key] in quota.Values;
      assert View().rate == old(View()).rate;
      assert View().quota == old(View()).quota[key := quota[key].View()];
    }

    method RateAllows(c: PublicKey, name: string, rule: RateLimitRule, now: u64) returns (ok: bool)
      requires Valid()
      modifies this
      ensures Valid() && fresh(Buckets() - old(Buckets()))
      ensures ok == old(View()).RateAllows(c, name, rule, now).0
      ensures View() == old(View()).RateAllows(c, name, rule, now).1
    {
      var b := RateEntry((ToHex(c), name), rule, now);
      ok := b.CanWithdraw(1, now, rule);
    }

    method QuotaAllows(c: PublicKey, cost: u64, rule: RateLimitRule, now: u64) returns (ok: bool)
      requires Valid()
      modifies this
      ensures Valid() && fresh(Buckets() - old(Buckets()))
      ensures ok == old(View()).QuotaAllows(c, cost, rule, now).0
      ensures View() == old(View()).QuotaAllows(c, cost, rule, now).1
    {
      var b := QuotaEntry(ToHex(c), rule, now);
      ok := b.CanWithdraw(cost, now, rule);
    }

    method ChargeRate(c: PublicKey, name: string, rule: RateLimitRule, now: u64) returns (ok: bool)
      requires Valid()
      modifies this, Buckets()
      ensures Valid() && fresh(Buckets() - old(Buckets()))
      ensures ok == old(View()).ChargeRate(c, name, rule, now).0
      ensures View() == old(View()).ChargeRate(c, name, rule, now).1
    {
      var _ := RateEntry((ToHex(c), name), rule, now);
      ok := TakeRate((ToHex(c), name), 1, rule, now);
    }

    method ChargeQuota(c: PublicKey, cost: u64, rule: RateLimitRule, now: u64) returns (ok: bool)
      requires Valid()
      modifies this, Buckets()
      ensures Valid() && fresh(Buckets() - old(Buckets()))
      ensures ok == old(View()).ChargeQuota(c, cost, rule, now).0
      ensures View() == old(View()).ChargeQuota(c, cost, rule, now).1
    {
      var _ := QuotaEntry(ToHex(c), rule, now);
      ok := TakeQuota(ToHex(c), cost, rule, now);
    }
  }
}
