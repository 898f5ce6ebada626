/** The limits over whole runs of the service: however requests of controllers,
    methods and handlers interleave, a window of time lets through no more than
    one full bucket and what the window earns. */
module Limits {
  import opened Wrappers
  import opened Keys
  import opened Limit
  import opened Allowance
  import opened UsageStore
  import opened Events
  import opened Codecs
  import opened Pipeline
  import opened Requests
  import opened Service
  import opened Profile
  import opened Replay
  import opened Runs

  /** What a bucket counts: a controller's money, or its calls of one method. */
  datatype Meter = Money(controller: PublicKey) | Calls(controller: PublicKey, name: string) {
    function Bucket(u: UsageState): Option<Level> {
      match this
      case Money(c) => Get(u.quota, ToHex(c))
      case Calls(c, name) => Get(u.rate, (ToHex(c), name))
    }

    function Rule(terms: Terms): Option<RateLimitRule> {
      match this
      case Money(_) => terms.quota
      case Calls(_, _) => terms.rate
    }

    /** Whether a decoded request is one this meter counts. */
    predicate Counts(e: Event, d: Decoded) {
      e.pubkey == controller && d.Ready? && (Calls? ==> d.call.name == name)
    }

    /** Satoshis of a successful call, or one for a call that made the node
        prepare, even if it was refused or failed afterwards. */
    function Used(o: Outcome): nat {
      match this
      case Money(_) => SpentBy(o)
      case Calls(_, _) => PreparedBy(o)
    }
  }

  /** Arrivals do not go back in time. */
  ghost predicate ClockAdvances(inputs: seq<Input>) {
    forall i, j :: 0 <= i < j < |inputs| && inputs[i].Arrived? && inputs[j].Arrived? ==>
      inputs[i].now <= inputs[j].now
  }

  ghost predicate NoLaterThan(inputs: seq<Input>, t: u64) {
    forall i :: 0 <= i < |inputs| && inputs[i].Arrived? ==> inputs[i].now <= t
  }

  predicate InWindow(i: Input, from: u64, to: u64) {
    i.Arrived? && IsRequest(i.event) && from <= i.now <= to
  }

  function UsedBy(env: Env, s: State, i: Input, meter: Meter, from: u64, to: u64): nat {
    if InWindow(i, from, to) && meter.Counts(i.event, Decode(env, i.event)) then
      meter.Used(Answer(env, s.grants, s.usage, i.event, i.now, i.oracle))
    else 0
  }

  /** What a run used of a meter within the window. */
  function TotalUsed(env: Env, s: State, inputs: seq<Input>, meter: Meter, from: u64, to: u64): nat
    decreases inputs
  {
    if inputs == [] then 0
    else
      var front := inputs[..|inputs| - 1];
      TotalUsed(env, s, front, meter, from, to)
      + UsedBy(env, Run(env, s, front), inputs[|inputs| - 1], meter, from, to)
  }

  /** If the request is admitted, it is held to this rule. */
  predicate HeldTo(env: Env, s: State, e: Event, meter: Meter, rule: RateLimitRule) {
    var d := Decode(env, e);
    meter.Counts(e, d) ==>
      var admitted := Admit(env.codec, d.call, d.methods, s.grants, e.pubkey);
      admitted.Success? ==> meter.Rule(admitted.value) == Some(rule)
  }

  /** One rule governs the meter throughout the window. */
  ghost predicate OneRule(env: Env, s: State, inputs: seq<Input>, meter: Meter, from: u64, to: u64, rule: RateLimitRule)
    decreases inputs
  {
    inputs == [] ||
    (var front, last := inputs[..|inputs| - 1], inputs[|inputs| - 1];
     OneRule(env, s, front, meter, from, to, rule) &&
     (InWindow(last, from, to) ==> HeldTo(env, Run(env, s, front), last.event, meter, rule)))
  }

  /** What a meter reads, spelled out. */
  lemma MeterReads(meter: Meter, u: UsageState, terms: Terms, o: Outcome)
    ensures match meter
            case Money(c) =>
              && meter.Bucket(u) == Get(u.quota, ToHex(c))
              && meter.Rule(terms) == terms.quota && meter.Used(o) == SpentBy(o)
            case Calls(c, name) =>
              && meter.Bucket(u) == Get(u.rate, (ToHex(c), name))
              && meter.Rule(terms) == terms.rate && meter.Used(o) == PreparedBy(o)
  {
  }

  lemma ProceedKeepsAccount(codec: Codec, call: Call, terms: Terms, u: UsageState, now: u64, oracle: Oracle,
                            meter: Meter, used: nat, moved: nat, rule: RateLimitRule, o: Outcome)
    requires rule.IsValid() && Conserved(meter.Bucket(u), used, moved, now, rule)
    requires meter.Rule(terms) == Some(rule) && (meter.Calls? ==> call.name == meter.name)
    requires o == Proceed(codec, call, terms, u, meter.controller, now, oracle)
    ensures Conserved(meter.Bucket(o.usage), used + meter.Used(o), moved, now, rule)
  {
    MeterReads(meter, u, terms, o);
    MeterReads(meter, o.usage, terms, o);
    match meter
    case Money(c) => RequestKeepsQuotaTally(codec, call, terms, u, c, now, oracle, used, moved, rule);
    case Calls(c, _) => RequestKeepsRateTally(codec, call, terms, u, c, now, oracle, used, moved, rule);
  }

  /** A counted request is refused and uses nothing, or it proceeds under the rule. */
  lemma CountedProceeds(env: Env, s: State, e: Event, now: u64, oracle: Oracle, meter: Meter, rule: RateLimitRule,
                        call: Call, o: Outcome) returns (terms: Option<Terms>)
    requires meter.Counts(e, Decode(env, e)) && HeldTo(env, s, e, meter, rule)
    requires call == Decode(env, e).call && o == Answer(env, s.grants, s.usage, e, now, oracle)
    ensures meter.Calls? ==> call.name == meter.name
    ensures terms.None? ==> meter.Used(o) == 0 && meter.Bucket(o.usage) == meter.Bucket(s.usage)
    ensures terms.Some? ==>
              && meter.Rule(terms.value) == Some(rule)
              && o == Proceed(env.codec, call, terms.value, s.usage, meter.controller, now, oracle)
  {
    match Admit(env.codec, call, Decode(env, e).methods, s.grants, e.pubkey)
    case Failure(code) => terms := None;
    case Success(t) => terms := Some(t);
  }

  lemma MeterAdvances(env: Env, s: State, e: Event, now: u64, oracle: Oracle, meter: Meter,
                      used: nat, moved: nat, rule: RateLimitRule, o: Outcome)
    requires rule.IsValid() && Conserved(meter.Bucket(s.usage), used, moved, now, rule)
    requires meter.Counts(e, Decode(env, e)) && HeldTo(env, s, e, meter, rule)
    requires o == Answer(env, s.grants, s.usage, e, now, oracle)
    ensures Conserved(meter.Bucket(o.usage), used + meter.Used(o), moved, now, rule)
  {
    var call := Decode(env, e).call;
    var terms := CountedProceeds(env, s, e, now, oracle, meter, rule, call, o);
    if terms.Some? {
      ProceedKeepsAccount(env.codec, call, terms.value, s.usage, now, oracle, meter, used, moved, rule, o);
    }
  }

  lemma MeterUntouched(env: Env, s: State, e: Event, now: u64, oracle: Oracle, meter: Meter)
    requires !meter.Counts(e, Decode(env, e))
    ensures meter.Bucket(Answer(env, s.grants, s.usage, e, now, oracle).usage) == meter.Bucket(s.usage)
  {
    var d := Decode(env, e);
    if d.Ready? {
      if e.pubkey != meter.controller {
        HandleSparesOthers(env.codec, d.call, d.methods, s.grants, s.usage, e.pubkey, now, oracle, meter.controller);
      } else {
        var admitted := Admit(env.codec, d.call, d.methods, s.grants, e.pubkey);
        if admitted.Success? {
          ProceedSparesOtherCalls(env.codec, d.call, admitted.value, s.usage, e.pubkey, now, oracle, meter.name);
        }
      }
    }
  }

  /** A request leaves the account in order, provided nothing is accounted for
      yet when it comes before the window. */
  lemma RequestKeepsAccount(env: Env, s: State, i: Input, meter: Meter, used: nat, moved: nat, from: u64, to: u64,
                            rule: RateLimitRule)
    requires rule.IsValid() && i.Arrived? && IsRequest(i.event) && i.now <= to && (i.now < from ==> used == 0)
    requires Conserved(meter.Bucket(s.usage), used, moved, i.now, rule)
    requires InWindow(i, from, to) ==> HeldTo(env, s, i.event, meter, rule)
    ensures Conserved(meter.Bucket(Answer(env, s.grants, s.usage, i.event, i.now, i.oracle).usage),
                      used + UsedBy(env, s, i, meter, from, to), moved, i.now, rule)
  {
    if !meter.Counts(i.event, Decode(env, i.event)) {
      MeterUntouched(env, s, i.event, i.now, i.oracle, meter);
    } else if from <= i.now {
      MeterAdvances(env, s, i.event, i.now, i.oracle, meter, used, moved, rule,
                    Answer(env, s.grants, s.usage, i.event, i.now, i.oracle));
    }
  }

  lemma StepKeepsAccount(env: Env, s: State, i: Input, meter: Meter, used: nat, moved: nat, at: u64,
                         from: u64, to: u64, rule: RateLimitRule)
    requires rule.IsValid() && (i.Arrived? ==> i.now == at <= to) && (at < from ==> used == 0)
    requires Conserved(meter.Bucket(s.usage), used, moved, at, rule)
    requires InWindow(i, from, to) ==> HeldTo(env, s, i.event, meter, rule)
    ensures Conserved(meter.Bucket(Step(env, s, i).0.usage), used + UsedBy(env, s, i, meter, from, to), moved, at, rule)
  {
    if i.Arrived? && IsRequest(i.event) {
      RequestKeepsAccount(env, s, i, meter, used, moved, from, to, rule);
    }
  }

  /** A run seen from its last input. */
  lemma LastInput(env: Env, s: State, inputs: seq<Input>, meter: Meter, from: u64, to: u64, rule: RateLimitRule,
                  was: State, last: Input)
    requires inputs != [] && OneRule(env, s, inputs, meter, from, to, rule)
    requires was == Run(env, s, inputs[..|inputs| - 1]) && last == inputs[|inputs| - 1]
    ensures Run(env, s, inputs) == Step(env, was, last).0
    ensures TotalUsed(env, s, inputs, meter, from, to)
         == TotalUsed(env, s, inputs[..|inputs| - 1], meter, from, to) + UsedBy(env, was, last, meter, from, to)
    ensures InWindow(last, from, to) ==> HeldTo(env, was, last.event, meter, rule)
  {
  }

  /** The last input of a run keeps the account of the inputs before it. */
  lemma LastKeepsAccount(env: Env, s: State, inputs: seq<Input>, meter: Meter, from: u64, to: u64,
                         moved: nat, at: u64, rule: RateLimitRule, was: State, used: nat)
    requires rule.IsValid() && inputs != [] && OneRule(env, s, inputs, meter, from, to, rule)
    requires inputs[|inputs| - 1].Arrived? ==> inputs[|inputs| - 1].now == at <= to
    requires was == Run(env, s, inputs[..|inputs| - 1])
    requires used == TotalUsed(env, s, inputs[..|inputs| - 1], meter, from, to)
    requires (at < from ==> used == 0) && Conserved(meter.Bucket(was.usage), used, moved, at, rule)
    ensures Conserved(meter.Bucket(Run(env, s, inputs).usage), TotalUsed(env, s, inputs, meter, from, to),
                      moved, at, rule)
  {
    var last := inputs[|inputs| - 1];
    LastInput(env, s, inputs, meter, from, to, rule, was, last);
    StepKeepsAccount(env, was, last, meter, used, moved, at, from, to, rule);
  }

  // ---------------------------------------------------------------------
  // Whatever the clock does
  // ---------------------------------------------------------------------

  /** What the clock showed at the last arrival. */
  function Clock(inputs: seq<Input>): Option<u64> {
    if inputs == [] then None
    else if inputs[|inputs| - 1].Arrived? then Some(inputs[|inputs| - 1].now)
    else Clock(inputs[..|inputs| - 1])
  }

  /** How far the clock moved at an arrival, if it moved forward. */
  function Advance(was: Option<u64>, i: Input): u64 {
    if was.Some? && i.Arrived? then Elapsed(was.value, i.now) else 0
  }

  /** How far it moved forward between arrivals, summed up over a run. */
  function Moved(inputs: seq<Input>): nat {
    if inputs == [] then 0
    else Moved(inputs[..|inputs| - 1]) + Advance(Clock(inputs[..|inputs| - 1]), inputs[|inputs| - 1])
  }

  /** Where a clock that never ran is put does not matter. */
  function ClockOr(inputs: seq<Input>, at: u64): u64 {
    Clock(inputs).GetOr(at)
  }

  lemma {:induction false} NothingUsedUnclocked(env: Env, s: State, inputs: seq<Input>, meter: Meter)
    requires Clock(inputs).None?
    ensures TotalUsed(env, s, inputs, meter, 0, U64_MAX) == 0
    decreases inputs
  {
    if inputs != [] {
      NothingUsedUnclocked(env, s, inputs[..|inputs| - 1], meter);
    }
  }

  /** The account of the inputs before, brought forward to the last one's clock. */
  lemma AccountAtLast(env: Env, s: State, inputs: seq<Input>, meter: Meter, rule: RateLimitRule, at: u64)
    requires rule.IsValid() && inputs != [] && at == ClockOr(inputs, 0)
    requires var front := inputs[..|inputs| - 1];
             Conserved(meter.Bucket(Run(env, s, front).usage), TotalUsed(env, s, front, meter, 0, U64_MAX),
                       Moved(front), ClockOr(front, 0), rule)
    ensures var front := inputs[..|inputs| - 1];
            Conserved(meter.Bucket(Run(env, s, front).usage), TotalUsed(env, s, front, meter, 0, U64_MAX),
                      Moved(inputs), at, rule)
  {
    var front, last := inputs[..|inputs| - 1], inputs[|inputs| - 1];
    if Clock(front).None? {
      NothingUsedUnclocked(env, s, front, meter);
    } else {
      ClockMoves(meter.Bucket(Run(env, s, front).usage), TotalUsed(env, s, front, meter, 0, U64_MAX),
                 Moved(front), ClockOr(front, 0), Advance(Clock(front), last), at, rule);
    }
  }

  lemma {:induction false} RunKeepsAccount(env: Env, s: State, inputs: seq<Input>, meter: Meter, rule: RateLimitRule)
    requires rule.IsValid() && OneRule(env, s, inputs, meter, 0, U64_MAX, rule)
    ensures Conserved(meter.Bucket(Run(env, s, inputs).usage), TotalUsed(env, s, inputs, meter, 0, U64_MAX),
                      Moved(inputs), ClockOr(inputs, 0), rule)
    decreases inputs
  {
    if inputs != [] {
      var front := inputs[..|inputs| - 1];
      RunKeepsAccount(env, s, front, meter, rule);
      AccountAtLast(env, s, inputs, meter, rule, ClockOr(inputs, 0));
      LastKeepsAccount(env, s, inputs, meter, 0, U64_MAX, Moved(inputs), ClockOr(inputs, 0), rule,
                       Run(env, s, front), TotalUsed(env, s, front, meter, 0, U64_MAX));
    }
  }

  /** The bound with no condition on the clock: from any state, over any run, a
      meter governed by one valid rule lets through at most one full bucket and
      the refill of all the forward movement of the clock. */
  lemma MovementBound(env: Env, s: State, inputs: seq<Input>, meter: Meter, rule: RateLimitRule)
    requires rule.IsValid() && OneRule(env, s, inputs, meter, 0, U64_MAX, rule)
    ensures TotalUsed(env, s, inputs, meter, 0, U64_MAX) <= Ceiling(rule, Moved(inputs))
  {
    RunKeepsAccount(env, s, inputs, meter, rule);
    ConservedBound(meter.Bucket(Run(env, s, inputs).usage), TotalUsed(env, s, inputs, meter, 0, U64_MAX),
                   Moved(inputs), ClockOr(inputs, 0), rule);
  }

  // ---------------------------------------------------------------------
  // Within a window, under a clock that advances
  // ---------------------------------------------------------------------

  lemma {:induction false} NothingUsedBefore(env: Env, s: State, inputs: seq<Input>, meter: Meter,
                                             from: u64, to: u64, t: u64)
    requires NoLaterThan(inputs, t) && t < from
    ensures TotalUsed(env, s, inputs, meter, from, to) == 0
    decreases inputs
  {
    if inputs != [] {
      NothingUsedBefore(env, s, inputs[..|inputs| - 1], meter, from, to, t);
    }
  }

  lemma EarlierInputs(inputs: seq<Input>, t: u64) returns (now: u64)
    requires inputs != [] && ClockAdvances(inputs) && NoLaterThan(inputs, t)
    ensures var last := inputs[|inputs| - 1]; now == (if last.Arrived? then last.now else t) <= t
    ensures var front := inputs[..|inputs| - 1]; ClockAdvances(front) && NoLaterThan(front, now)
    ensures NoLaterThan(inputs, now)
  {
    var last := inputs[|inputs| - 1];
    now := if last.Arrived? then last.now else t;
  }

  lemma {:induction false} WindowKeepsAccount(env: Env, s: State, inputs: seq<Input>, meter: Meter, from: u64, to: u64,
                                              rule: RateLimitRule, t: u64)
    requires rule.IsValid() && ClockAdvances(inputs) && NoLaterThan(inputs, t) && t <= to
    requires OneRule(env, s, inputs, meter, from, to, rule)
    ensures Conserved(meter.Bucket(Run(env, s, inputs).usage), TotalUsed(env, s, inputs, meter, from, to),
                      Elapsed(from, t), t, rule)
    decreases inputs
  {
    if inputs != [] {
      var now := EarlierInputs(inputs, t);
      var front := inputs[..|inputs| - 1];
      WindowKeepsAccount(env, s, front, meter, from, to, rule, now);
      if now < from {
        NothingUsedBefore(env, s, front, meter, from, to, now);
      }
      LastKeepsAccount(env, s, inputs, meter, from, to, Elapsed(from, now), now, rule,
                       Run(env, s, front), TotalUsed(env, s, front, meter, from, to));
      if now < from {
        NothingUsedBefore(env, s, inputs, meter, from, to, now);
      } else {
        ClockMoves(meter.Bucket(Run(env, s, inputs).usage), TotalUsed(env, s, inputs, meter, from, to),
                   Elapsed(from, now), now, Elapsed(now, t), t, rule);
      }
    }
  }

  lemma TotalUsedStep(env: Env, s: State, inputs: seq<Input>, meter: Meter, from: u64, to: u64)
    requires inputs != [] && !InWindow(inputs[|inputs| - 1], from, to)
    ensures TotalUsed(env, s, inputs, meter, from, to)
         == TotalUsed(env, s, inputs[..|inputs| - 1], meter, from, to)
  {
  }

  /** The bound: from any state, over any run with an advancing clock, a meter
      governed by one valid rule during a window lets through at most one full
      bucket and the window's refill. */
  lemma {:induction false} WindowBound(env: Env, s: State, inputs: seq<Input>, meter: Meter, from: u64, to: u64,
                                       rule: RateLimitRule)
    requires rule.IsValid() && from <= to && ClockAdvances(inputs)
    requires OneRule(env, s, inputs, meter, from, to, rule)
    ensures TotalUsed(env, s, inputs, meter, from, to) <= Ceiling(rule, to - from)
    decreases inputs
  {
    if inputs != [] {
      var last := inputs[|inputs| - 1];
      if InWindow(last, from, to) {
        WindowKeepsAccount(env, s, inputs, meter, from, to, rule, last.now);
        ConservedBound(meter.Bucket(Run(env, s, inputs).usage), TotalUsed(env, s, inputs, meter, from, to),
                       last.now - from, last.now, rule);
        RefillMonotone(rule, last.now - from, to - from);
      } else {
        TotalUsedStep(env, s, inputs, meter, from, to);
        WindowBound(env, s, inputs[..|inputs| - 1], meter, from, to, rule);
      }
    }
  }

  /** Satoshis successfully spent by a controller in the window. */
  function TotalSpent(env: Env, s: State, inputs: seq<Input>, c: PublicKey, from: u64, to: u64): nat {
    TotalUsed(env, s, inputs, Money(c), from, to)
  }

  lemma SpendingBound(env: Env, s: State, inputs: seq<Input>, c: PublicKey, from: u64, to: u64, quota: RateLimitRule)
    requires quota.IsValid() && from <= to && ClockAdvances(inputs)
    requires OneRule(env, s, inputs, Money(c), from, to, quota)
    ensures TotalSpent(env, s, inputs, c, from, to)
         <= quota.maxCapacity + quota.amount * (to - from) / quota.perSecs
  {
    WindowBound(env, s, inputs, Money(c), from, to, quota);
  }

  /** Times a controller's calls of a method made the node prepare. */
  function TotalPrepared(env: Env, s: State, inputs: seq<Input>, c: PublicKey, name: string, from: u64, to: u64): nat {
    TotalUsed(env, s, inputs, Calls(c, name), from, to)
  }

  lemma PreparingIsNeverFree(env: Env, s: State, inputs: seq<Input>, c: PublicKey, name: string, from: u64, to: u64,
                             rate: RateLimitRule)
    requires rate.IsValid() && from <= to && ClockAdvances(inputs)
    requires OneRule(env, s, inputs, Calls(c, name), from, to, rate)
    ensures TotalPrepared(env, s, inputs, c, name, from, to)
         <= rate.maxCapacity + rate.amount * (to - from) / rate.perSecs
  {
    WindowBound(env, s, inputs, Calls(c, name), from, to, rate);
  }

  // ---------------------------------------------------------------------
  // The bounds from what the owners wrote
  // ---------------------------------------------------------------------

  /** Whatever was heard for the controller, or for everybody no grant names, and
      permits a call this meter counts, carries this rule for it. */
  ghost predicate AlwaysWritten(env: Env, heard: seq<Event>, meter: Meter, rule: RateLimitRule) {
    forall e, protocol, name ::
      (&& e in heard
       && (env.authority.Accepts(e, ToHex(meter.controller)) || env.authority.Accepts(e, OTHERS))
       && Written(env, e, protocol, name).Some?
       && env.codec.profile(e.content).value.IsValid()
       && (meter.Calls? ==> name == meter.name))
      ==> meter.Rule(Written(env, e, protocol, name).value) == Some(rule)
  }

  lemma WrittenIsHeldTo(env: Env, heard: seq<Event>, s: State, e: Event, meter: Meter, rule: RateLimitRule)
    requires s.grants == ReplayGrants(env.codec.profile, env.authority.Start(), heard)
    requires AlwaysWritten(env, heard, meter, rule)
    ensures HeldTo(env, s, e, meter, rule)
  {
    var d := Decode(env, e);
    if meter.Counts(e, d) && Admit(env.codec, d.call, d.methods, s.grants, e.pubkey).Success? {
      var g := ResolvedGrantIsJustified(env, heard, e.pubkey, d.call.protocol, d.call.name);
      assert env.authority.Accepts(g, ToHex(e.pubkey)) || env.authority.Accepts(g, OTHERS);
    }
  }

  lemma {:induction false} WrittenRuleGoverns(env: Env, start: Option<seq<Event>>, inputs: seq<Input>, meter: Meter,
                                              from: u64, to: u64, rule: RateLimitRule)
    requires AlwaysWritten(env, History(start, inputs), meter, rule)
    ensures OneRule(env, Boot(env, start), inputs, meter, from, to, rule)
    decreases inputs
  {
    if inputs != [] {
      var front, last := inputs[..|inputs| - 1], inputs[|inputs| - 1];
      assert forall e :: e in History(start, front) ==> e in History(start, inputs);
      WrittenRuleGoverns(env, start, front, meter, from, to, rule);
      GrantsReplayHistory(env, start, front);
      if last.Arrived? {
        WrittenIsHeldTo(env, History(start, front), Run(env, Boot(env, start), front), last.event, meter, rule);
      }
    }
  }

  /** If every applicable event an owner published carries the same quota, or the
      same rate for a method, the bounds hold over the whole run. */
  lemma WrittenRuleBounds(env: Env, start: Option<seq<Event>>, inputs: seq<Input>, meter: Meter, from: u64, to: u64,
                          rule: RateLimitRule)
    requires rule.IsValid() && from <= to
    requires AlwaysWritten(env, History(start, inputs), meter, rule)
    ensures TotalUsed(env, Boot(env, start), inputs, meter, 0, U64_MAX) <= Ceiling(rule, Moved(inputs))
    ensures ClockAdvances(inputs) ==>
              TotalUsed(env, Boot(env, start), inputs, meter, from, to) <= Ceiling(rule, to - from)
  {
    WrittenRuleGoverns(env, start, inputs, meter, 0, U64_MAX, rule);
    MovementBound(env, Boot(env, start), inputs, meter, rule);
    if ClockAdvances(inputs) {
      WrittenRuleGoverns(env, start, inputs, meter, from, to, rule);
      WindowBound(env, Boot(env, start), inputs, meter, from, to, rule);
    }
  }
}
