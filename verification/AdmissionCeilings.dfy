/**
 * What the admission checks enforce, read off the counters they lead to: no ceiling is ever
 * exceeded, and nothing is refused that would have kept them all
 * (`crates/aequora-admission/src/controller.rs`).
 */
module AdmissionCeilings {
  import opened Base
  import opened Work
  import opened Admission
  import opened AdmissionTheorems

  predicate Within(u: Usage, b: ResourceBudget) {
    u.inFlight <= b.maxInFlight && u.bytes <= b.maxBytes && u.cost <= b.maxCost
  }

  /** The ceiling of a scope, with a tenant budget scaled by `weight`. */
  function Ceiling(policy: Policy, weight: u16, scope: Scope): ResourceBudget
    requires policy.Valid()
  {
    match scope
    case Everything => policy.global
    case OfTenant(_) => WeightedTenantBudget(policy.tenant.budget, policy.global, weight)
    case OfClass(c) => policy.classes.Of(c).budget
    case OfResource(d) => EveryDomainListed(d); policy.resources[d]
  }

  function ClampedWeight(policy: Policy, request: WorkDescriptor): u16 {
    Min(Max(request.tenantWeight, 1), policy.tenant.maximumWeight)
  }

  lemma HeavierIsLarger(tenant: ResourceBudget, global: ResourceBudget, weight: u16, heavier: u16, u: Usage)
    requires weight <= heavier && Within(u, WeightedTenantBudget(tenant, global, weight))
    ensures Within(u, WeightedTenantBudget(tenant, global, heavier))
  {
    MulMonotone(tenant.maxInFlight, weight, tenant.maxInFlight, heavier);
    MulMonotone(tenant.maxBytes, weight, tenant.maxBytes, heavier);
    MulMonotone(tenant.maxCost, weight, tenant.maxCost, heavier);
  }

  /** Fitting is being within the budget afterwards, as long as the count itself does not saturate. */
  lemma FitsIff(u: Usage, b: ResourceBudget, bytes: u64, cost: u64)
    requires u.inFlight < USIZE_MAX
    ensures Fits(u, b, bytes, cost) <==> Within(u.Plus(bytes, cost), b)
  {
  }

  /** Every scope that `p` charges stays within its ceiling. */
  ghost predicate CeilingsKept(policy: Policy, weight: u16, s: State, p: Permit)
    requires policy.Valid()
  {
    forall scope :: Charges(p, scope) ==> Within(UsageOf(Admit(s, p), scope), Ceiling(policy, weight, scope))
  }

  lemma ScopesFit(policy: Policy, s: State, request: WorkDescriptor)
    requires policy.Valid() && (forall scope :: UsageOf(s, scope).inFlight < USIZE_MAX)
    ensures var p := PermitFor(request);
            CeilingsKept(policy, ClampedWeight(policy, request), s, p)
            <==> && Fits(s.global, policy.global, p.bytes, p.cost)
                 && Fits(Get(s.tenants, p.tenantId), EffectiveTenantBudget(policy, request), p.bytes, p.cost)
                 && Fits(Get(s.classes, p.class_), policy.classes.Of(p.class_).budget, p.bytes, p.cost)
                 && (forall d :: d in p.resources ==> ResourceFits(policy, s, d, p.bytes, p.cost))
  {
    var p := PermitFor(request);
    var weight := ClampedWeight(policy, request);
    forall scope | Charges(p, scope)
      ensures Within(UsageOf(Admit(s, p), scope), Ceiling(policy, weight, scope))
              <==> Fits(UsageOf(s, scope), Ceiling(policy, weight, scope), p.bytes, p.cost)
    {
      AdmitEffect(s, p, scope);
      FitsIff(UsageOf(s, scope), Ceiling(policy, weight, scope), p.bytes, p.cost);
    }
    assert Charges(p, Everything) && Charges(p, OfTenant(p.tenantId)) && Charges(p, OfClass(p.class_));
    forall d | d in p.resources
      ensures Fits(UsageOf(s, OfResource(d)), Ceiling(policy, weight, OfResource(d)), p.bytes, p.cost)
              <==> ResourceFits(policy, s, d, p.bytes, p.cost)
    {
      EveryDomainListed(d);
      assert Charges(p, OfResource(d));
    }
    if CeilingsKept(policy, weight, s, p) {
      assert Within(UsageOf(Admit(s, p), Everything), Ceiling(policy, weight, Everything));
      assert Within(UsageOf(Admit(s, p), OfTenant(p.tenantId)), Ceiling(policy, weight, OfTenant(p.tenantId)));
      assert Within(UsageOf(Admit(s, p), OfClass(p.class_)), Ceiling(policy, weight, OfClass(p.class_)));
      forall d | d in p.resources ensures ResourceFits(policy, s, d, p.bytes, p.cost) {
        assert Charges(p, OfResource(d));
        assert Within(UsageOf(Admit(s, p), OfResource(d)), Ceiling(policy, weight, OfResource(d)));
      }
    }
  }

  /** No scope holds more work than the global one. */
  lemma CountsBelowGlobal(policy: Policy, ops: seq<Op>, scope: Scope)
    requires policy.Valid()
    ensures UsageOf(Run(policy, ops).s, scope).inFlight <= Run(policy, ops).s.global.inFlight
  {
    var w := Run(policy, ops);
    CountsAreConserved(policy, ops);
    ScopeWithinGlobal(w.permits, scope);
    assert UsageOf(w.s, scope).inFlight == Total(w.permits, scope).inFlight;
    assert UsageOf(w.s, Everything).inFlight == Total(w.permits, Everything).inFlight;
  }

  /**
   * Work-conserving admission: in every reachable state, a request of acceptable shape whose class
   * the load state allows is admitted if and only if there is room besides what others reserved
   * and every counter it charges would stay within its ceiling.
   */
  lemma AdmittedIffCeilingsKept(policy: Policy, ops: seq<Op>, request: WorkDescriptor)
    requires policy.Valid()
    ensures var s := Run(policy, ops).s;
            Refusal(policy, s, request).None?
            <==> && policy.requestLimits.Check(request.shape).None?
                 && policy.load.Allows(s.loadState, request.class_)
                 && s.global.inFlight < GlobalLimit(policy, s, request.class_)
                 && CeilingsKept(policy, ClampedWeight(policy, request), s, PermitFor(request))
  {
    var s := Run(policy, ops).s;
    if s.global.inFlight < GlobalLimit(policy, s, request.class_) {
      ScaledWithinLimit(policy.global.maxInFlight, policy.load.CapacityPercent(s.loadState));
      forall scope ensures UsageOf(s, scope).inFlight < USIZE_MAX {
        CountsBelowGlobal(policy, ops, scope);
      }
      ScopesFit(policy, s, request);
      TrackedTenantsNeverFull(policy, ops, request.tenantId);
    }
  }

  lemma AdmitKeepsCeiling(policy: Policy, ops: seq<Op>, request: WorkDescriptor, scope: Scope)
    requires policy.Valid() && Refusal(policy, Run(policy, ops).s, request).None?
    requires Within(UsageOf(Run(policy, ops).s, scope), Ceiling(policy, policy.tenant.maximumWeight, scope))
    ensures Within(UsageOf(Admit(Run(policy, ops).s, PermitFor(request)), scope),
                   Ceiling(policy, policy.tenant.maximumWeight, scope))
  {
    var s, p := Run(policy, ops).s, PermitFor(request);
    AdmittedIffCeilingsKept(policy, ops, request);
    AdmitEffect(s, p, scope);
    if Charges(p, scope) {
      assert Within(UsageOf(Admit(s, p), scope), Ceiling(policy, ClampedWeight(policy, request), scope));
      if scope.OfTenant? {
        HeavierIsLarger(policy.tenant.budget, policy.global, ClampedWeight(policy, request),
                        policy.tenant.maximumWeight, UsageOf(Admit(s, p), scope));
      }
    }
  }

  /**
   * No ceiling is ever exceeded: in every reachable state, in every scope, in-flight work, bytes
   * and cost are within the configured budget, a tenant's budget being scaled by the largest
   * weight the policy allows.
   */
  lemma {:induction false} CeilingsHold(policy: Policy, ops: seq<Op>, scope: Scope)
    requires policy.Valid()
    ensures Within(UsageOf(Run(policy, ops).s, scope), Ceiling(policy, policy.tenant.maximumWeight, scope))
  {
    if ops == [] {
    } else {
      var earlier, op := ops[..|ops| - 1], ops[|ops| - 1];
      var before := Run(policy, earlier);
      CeilingsHold(policy, earlier, scope);
      match op
      case Request(request) =>
        if Refusal(policy, before.s, request).None? {
          AdmitKeepsCeiling(policy, earlier, request, scope);
        } else {
          SameCounters(before.s, Run(policy, ops).s);
        }
      case Drop(i) =>
        if i < |before.permits| {
          ReleaseEffect(before.s, before.permits[i], scope);
        }
      case SetLoad(_) =>
        SameCounters(before.s, Run(policy, ops).s);
    }
  }

  /** So what callers actually hold is within budget in every scope. */
  lemma OutstandingWithinCeilings(policy: Policy, ops: seq<Op>, scope: Scope)
    requires policy.Valid() && policy.global.maxBytes < U64_MAX && policy.global.maxCost < U64_MAX
    ensures Within(Total(Run(policy, ops).permits, scope), Ceiling(policy, policy.tenant.maximumWeight, scope))
  {
    CeilingsHold(policy, ops, scope);
    CountersAreConserved(policy, ops);
    assert UsageOf(Run(policy, ops).s, scope) == Total(Run(policy, ops).permits, scope);
  }
}
