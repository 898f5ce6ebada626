/** The content of a grant: three maps of names to rules, in which whatever is not
    entered is refused, and a quota. */
module Profile {
  import opened Wrappers
  import opened Limit

  /** The entry that stands for all names without one. */
  const OTHERS := "OTHERS"

  datatype Denied = Unauthorized | Restricted

  datatype MethodAccessRule = MethodAccessRule(rate: Option<RateLimitRule>)

  type AccessMap = map<string, MethodAccessRule>

  function Lookup(access: Option<AccessMap>, name: string): Result<Option<RateLimitRule>, Denied> {
    match access
    case None => Failure(Restricted)
    case Some(m) =>
      if name in m then Success(m[name].rate)
      else if OTHERS in m then Success(m[OTHERS].rate)
      else Failure(Restricted)
  }

  predicate RuleOk(rule: Option<RateLimitRule>) {
    rule.Some? ==> rule.value.IsValid()
  }

  predicate RulesOk(access: Option<AccessMap>) {
    access.Some? ==> forall k :: k in access.value ==> RuleOk(access.value[k].rate)
  }

  datatype UsageProfile = UsageProfile(
    methods: Option<AccessMap>, control: Option<AccessMap>, notifications: Option<AccessMap>,
    quota: Option<RateLimitRule>)
  {
    predicate IsValid() {
      RulesOk(methods) && RulesOk(control) && RulesOk(notifications) && RuleOk(quota)
    }

    function AllowsWallet(name: string): Result<Option<RateLimitRule>, Denied> {
      if !IsValid() then Failure(Unauthorized) else Lookup(methods, name)
    }

    function AllowsControl(name: string): Result<Option<RateLimitRule>, Denied> {
      if !IsValid() then Failure(Unauthorized) else Lookup(control, name)
    }

    predicate AllowsNotification(name: string) {
      IsValid() && Lookup(notifications, name).Success?
    }
  }

  /** The default profile, which an unparseable grant amounts to. */
  const EMPTY_PROFILE := UsageProfile(None, None, None, None)

  // ---------------------------------------------------------------------
  // What a profile says, entry by entry
  // ---------------------------------------------------------------------

  ghost predicate NoZeroPeriod(access: Option<AccessMap>) {
    forall k :: access.Some? && k in access.value && access.value[k].rate.Some? ==>
      access.value[k].rate.value.perSecs != 0
  }

  /** Nothing in the profile, on any map or as its quota, refills once every zero
      seconds. */
  ghost predicate Usable(p: UsageProfile) {
    NoZeroPeriod(p.methods) && NoZeroPeriod(p.control) && NoZeroPeriod(p.notifications) &&
    (p.quota.Some? ==> p.quota.value.perSecs != 0)
  }

  lemma ValidIffUsable(p: UsageProfile)
    ensures p.IsValid() <==> Usable(p)
  {
  }

  /** The map of notifications has an entry of that name or one for all others. */
  ghost predicate MayReceive(p: UsageProfile, name: string) {
    Usable(p) && p.notifications.Some? && (name in p.notifications.value || "OTHERS" in p.notifications.value)
  }

  lemma NotificationAllowedIff(p: UsageProfile, name: string)
    ensures p.AllowsNotification(name) <==> MayReceive(p, name)
  {
    ValidIffUsable(p);
  }
}
