/** Token buckets, and the rules they are read under.

    A bucket holds a 64-bit amount and refills through 128-bit intermediates that
    saturate; the widths are written out here and shown to be invisible. */
module Limit {
  import opened Wrappers

  const U64_MAX: int := 0xFFFF_FFFF_FFFF_FFFF
  const U128_MAX: int := 0xFFFF_FFFF_FFFF_FFFF_FFFF_FFFF_FFFF_FFFF

  type u64 = x: int | 0 <= x <= U64_MAX
  type u128 = x: int | 0 <= x <= U128_MAX

  datatype RateLimitRule = RateLimitRule(amount: u64, perSecs: u64, maxCapacity: u64) {
    predicate IsValid() {
      perSecs > 0
    }
  }

  function Saturate128(x: nat): u128 {
    if x <= U128_MAX then x else U128_MAX
  }

  function Elapsed(since: u64, now: u64): u64 {
    if now >= since then now - since else 0
  }

  /** The `as u64` cast: the low sixty-four bits. */
  function Truncate64(x: u128): u64 {
    x % (U64_MAX + 1)
  }

  /** What a bucket holds, and the instant that was true. */
  datatype Level = Level(balance: u64, since: u64) {
    static function Full(rule: RateLimitRule, now: u64): Level {
      Level(rule.maxCapacity, now)
    }

    function BalanceAt(now: u64, rule: RateLimitRule): u64 {
      if !rule.IsValid() then 0
      else
        ProductIsNat(rule.amount, Elapsed(since, now));
        var product := Saturate128(rule.amount * Elapsed(since, now));
        QuotientIsNat(product, rule.perSecs);
        var filled := Saturate128(balance + product / rule.perSecs);
        Truncate64(Min(filled, rule.maxCapacity))
    }

    predicate CanWithdraw(cost: u64, now: u64, rule: RateLimitRule) {
      BalanceAt(now, rule) >= cost
    }

    function Withdraw(cost: u64, now: u64, rule: RateLimitRule): (bool, Level) {
      var available := BalanceAt(now, rule);
      if available < cost then (false, this) else (true, Level(available - cost, now))
    }
  }

  /** The tokens an interval is worth, in unbounded arithmetic. */
  function Refill(rule: RateLimitRule, seconds: nat): nat
    requires rule.IsValid()
  {
    ProductIsNat(rule.amount, seconds);
    QuotientIsNat(rule.amount * seconds, rule.perSecs);
    rule.amount * seconds / rule.perSecs
  }

  // Arithmetic

  lemma MulMonotone(a: nat, b: nat, x: nat, y: nat)
    requires a <= b && x <= y
    ensures a * x <= b * y
  {
  }

  lemma ProductIsNat(a: nat, b: nat)
    ensures 0 <= a * b
  {
  }

  lemma QuotientIsNat(n: nat, q: nat)
    requires q > 0
    ensures 0 <= n / q <= n
  {
    if n < n / q {
      MulMonotone(1, q, n / q, n / q);
    }
  }

  /** Division is the largest multiplier that fits. */
  lemma QuotientIsLargest(k: nat, n: nat, q: nat)
    requires q > 0 && k * q <= n
    ensures k <= n / q
  {
    if n / q + 1 <= k {
      MulMonotone(n / q + 1, k, q, q);
    }
  }

  lemma DivMonotone(m: nat, n: nat, p: nat, q: nat)
    requires m <= n && 0 < q <= p
    ensures m / p <= n / q
  {
    MulMonotone(m / p, m / p, q, p);
    QuotientIsLargest(m / p, n, q);
  }

  lemma FloorSuperadditive(m: nat, n: nat, p: nat)
    requires p > 0
    ensures m / p + n / p <= (m + n) / p
  {
    assert (m / p + n / p) * p == m / p * p + n / p * p;
    QuotientIsLargest(m / p + n / p, m + n, p);
  }

  /** Refills over adjoining intervals never exceed the refill over both. */
  lemma RefillSuperadditive(rule: RateLimitRule, x: nat, y: nat)
    requires rule.IsValid()
    ensures Refill(rule, x) + Refill(rule, y) <= Refill(rule, x + y)
  {
    assert rule.amount * (x + y) == rule.amount * x + rule.amount * y;
    FloorSuperadditive(rule.amount * x, rule.amount * y, rule.perSecs);
  }

  lemma RefillMonotone(rule: RateLimitRule, x: nat, y: nat)
    requires rule.IsValid() && x <= y
    ensures Refill(rule, x) <= Refill(rule, y)
  {
    MulMonotone(rule.amount, rule.amount, x, y);
    DivMonotone(rule.amount * x, rule.amount * y, rule.perSecs, rule.perSecs);
  }

  /** No 128-bit step saturates and the final cast loses nothing: the balance is
      the mathematical one. */
  lemma BalanceIsExact(b: Level, now: u64, rule: RateLimitRule)
    requires rule.IsValid()
    ensures b.BalanceAt(now, rule)
         == Min(b.balance + Refill(rule, Elapsed(b.since, now)), rule.maxCapacity)
    ensures rule.amount * Elapsed(b.since, now) <= U128_MAX
    ensures b.balance + Refill(rule, Elapsed(b.since, now)) <= U128_MAX
  {
    var product := rule.amount * Elapsed(b.since, now);
    MulMonotone(rule.amount, U64_MAX, Elapsed(b.since, now), U64_MAX);
    assert product <= U64_MAX * U64_MAX;
    QuotientIsNat(product, rule.perSecs);
  }

  /** Waiting longer, a larger allowance and a higher ceiling never lower the
      balance; a longer period never raises it. */
  lemma BalanceIsMonotone(b: Level, now: u64, later: u64, rule: RateLimitRule, better: RateLimitRule)
    requires rule.IsValid() && better.IsValid() && now <= later
    requires rule.amount <= better.amount
    requires rule.maxCapacity <= better.maxCapacity
    requires better.perSecs <= rule.perSecs
    ensures b.BalanceAt(now, rule) <= b.BalanceAt(later, better)
  {
    BalanceIsExact(b, now, rule);
    BalanceIsExact(b, later, better);
    var e, f := Elapsed(b.since, now), Elapsed(b.since, later);
    MulMonotone(rule.amount, better.amount, e, f);
    DivMonotone(rule.amount * e, better.amount * f, rule.perSecs, better.perSecs);
  }

  /** A bucket in memory; only a withdrawal that succeeds changes it. */
  class Bucket {
    var balance: u64
    var since: u64

    ghost function View(): Level
      reads this
    {
      Level(balance, since)
    }

    constructor Full(rule: RateLimitRule, now: u64)
      ensures View() == Level.Full(rule, now)
    {
      balance, since := rule.maxCapacity, now;
    }

    method BalanceAt(now: u64, rule: RateLimitRule) returns (r: u64)
      ensures r == View().BalanceAt(now, rule)
      ensures rule.IsValid() ==>
                r == Min(balance + Refill(rule, Elapsed(since, now)), rule.maxCapacity)
    {
      if !rule.IsValid() {
        return 0;
      }
      BalanceIsExact(View(), now, rule);
      var elapsed := Elapsed(since, now);
      ProductIsNat(rule.amount, elapsed);
      var product := Saturate128(rule.amount * elapsed);
      QuotientIsNat(product, rule.perSecs);
      var filled := Saturate128(balance + product / rule.perSecs);
      r := Truncate64(Min(filled, rule.maxCapacity));
    }

    method CanWithdraw(cost: u64, now: u64, rule: RateLimitRule) returns (ok: bool)
      ensures ok == View().CanWithdraw(cost, now, rule)
    {
      var available := BalanceAt(now, rule);
      ok := available >= cost;
    }

    method Withdraw(cost: u64, now: u64, rule: RateLimitRule) returns (ok: bool)
      modifies this
      ensures (ok, View()) == old(View()).Withdraw(cost, now, rule)
    {
      var available := BalanceAt(now, rule);
      if available < cost {
        return false;
      }
      balance := available - cost;
      since := now;
      ok := true;
    }
  }
}
