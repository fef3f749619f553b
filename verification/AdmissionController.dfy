/**
 * The lock-protected controller object (`HierarchicalAdmission`, `ControllerInner` and
 * `AdmissionPermit`), each method proved against the step functions of `Admission`.
 */
module AdmissionObject {
  import opened Base
  import opened Work
  import opened Admission

  class HierarchicalAdmission {
    const policy: Policy
    var global: Usage
    var tenants: map<TenantId, Usage>
    var classes: map<WorkClass, Usage>
    var resources: map<ResourceDomain, Usage>
    var loadState: LoadState
    var metrics: Metrics

    function Value(): State
      reads this
    {
      State(global, tenants, classes, resources, loadState, metrics)
    }

    constructor (policy: Policy)
      requires policy.Valid()
      ensures this.policy == policy && Value() == INITIAL && metrics.Valid()
    {
      this.policy := policy;
      global := ZERO;
      tenants := map[];
      classes := map[];
      resources := map[];
      loadState := Healthy;
      metrics := INITIAL.metrics;
    }

    /** `HierarchicalAdmission::new`: an unsafe policy is refused with its first fault. */
    static method Create(policy: Policy) returns (r: Result<HierarchicalAdmission, PolicyError>)
      ensures r.Ok? <==> policy.Valid()
      ensures r.Err? ==> PolicyFault(policy) == Some(r.error)
      ensures r.Ok? ==> fresh(r.value) && r.value.policy == policy && r.value.Value() == INITIAL
    {
      var fault := Validate(policy);
      NoFaultMeansValid(policy);
      if fault.Some? {
        return Err(fault.value);
      }
      var controller := new HierarchicalAdmission(policy);
      return Ok(controller);
    }

    method SetLoadState(next: LoadState)
      modifies this`loadState
      ensures loadState == next
    {
      loadState := next;
    }

    method UnusedReservations(c: WorkClass) returns (total: usize)
      ensures total == UnusedByOthers(policy, Value(), c)
    {
      total := 0;
      for i := 0 to |CLASSES|
        invariant total == WrappingSum(policy, Value(), c, i)
      {
        if CLASSES[i] != c {
          var used := if CLASSES[i] in classes then classes[CLASSES[i]].inFlight else 0;
          total := WrapAdd(total, SatSub(policy.Reserved(CLASSES[i]), used));
        }
      }
    }

    method ResourcesFit(ds: seq<ResourceDomain>, bytes: u64, cost: u64) returns (ok: bool)
      ensures ok <==> forall d :: d in ds ==> ResourceFits(policy, Value(), d, bytes, cost)
    {
      for i := 0 to |ds|
        invariant forall k :: 0 <= k < i ==> ResourceFits(policy, Value(), ds[k], bytes, cost)
      {
        var usage := if ds[i] in resources then resources[ds[i]] else ZERO;
        if ds[i] !in policy.resources || !Fits(usage, policy.resources[ds[i]], bytes, cost) {
          assert !ResourceFits(policy, Value(), ds[i], bytes, cost);
          return false;
        }
      }
      return true;
    }

    method TryAdmit(request: WorkDescriptor) returns (r: Result<Permit, Rejection>)
      requires metrics.Valid()
      modifies this
      ensures metrics.Valid()
      ensures match Refusal(policy, old(Value()), request)
              case Some(rejection) =>
                && r == Err(rejection)
                && Value() == old(Value()).(metrics := old(metrics).Reject(rejection, request.class_))
              case None =>
                && r == Ok(PermitFor(request))
                && Value() == Admission.Admit(old(Value()), PermitFor(request))
    {
      var p := PermitFor(request);
      PermitDomains(request);
      var tooLarge := policy.requestLimits.Check(request.shape);
      if tooLarge.Some? {
        metrics := metrics.Reject(tooLarge.value, request.class_);
        return Err(tooLarge.value);
      }
      if !policy.load.Allows(loadState, request.class_) {
        metrics := metrics.Reject(LoadShed(policy.retryAfterMs), request.class_);
        return Err(LoadShed(policy.retryAfterMs));
      }
      var unused := UnusedReservations(request.class_);
      var limit := SatSub(ScaledLimit(policy.global.maxInFlight, policy.load.CapacityPercent(loadState)), unused);
      if global.inFlight >= limit || !Fits(global, policy.global, p.bytes, p.cost) {
        metrics := metrics.Reject(ServerBusy(policy.retryAfterMs), request.class_);
        return Err(ServerBusy(policy.retryAfterMs));
      }
      var tenantBudget := EffectiveTenantBudget(policy, request);
      var tenantUsage := if request.tenantId in tenants then tenants[request.tenantId] else ZERO;
      if !Fits(tenantUsage, tenantBudget, p.bytes, p.cost) {
        metrics := metrics.Reject(TenantBusy(policy.retryAfterMs), request.class_);
        return Err(TenantBusy(policy.retryAfterMs));
      }
      if request.tenantId !in tenants && |tenants| >= policy.tenant.maxTrackedTenants {
        metrics := metrics.Reject(TenantBusy(policy.retryAfterMs), request.class_);
        return Err(TenantBusy(policy.retryAfterMs));
      }
      var classUsage := if request.class_ in classes then classes[request.class_] else ZERO;
      var fits := Fits(classUsage, policy.classes.Of(request.class_).budget, p.bytes, p.cost);
      if fits {
        fits := ResourcesFit(p.resources, p.bytes, p.cost);
      }
      if !fits {
        metrics := metrics.Reject(ResourceBudgetExceeded(policy.retryAfterMs), request.class_);
        return Err(ResourceBudgetExceeded(policy.retryAfterMs));
      }
      Charge(p);
      return Ok(p);
    }

    method Charge(p: Permit)
      requires forall i, j :: 0 <= i < j < |p.resources| ==> p.resources[i] != p.resources[j]
      modifies this
      ensures Value() == Admission.Admit(old(Value()), p)
    {
      global := global.Plus(p.bytes, p.cost);
      var tenant := if p.tenantId in tenants then tenants[p.tenantId] else ZERO;
      tenants := tenants[p.tenantId := tenant.Plus(p.bytes, p.cost)];
      var class_ := if p.class_ in classes then classes[p.class_] else ZERO;
      classes := classes[p.class_ := class_.Plus(p.bytes, p.cost)];
      ChargeResources(p);
      metrics := metrics.(allowed := SatAdd(metrics.allowed, 1, U64_MAX));
    }

    method ChargeResources(p: Permit)
      requires forall i, j :: 0 <= i < j < |p.resources| ==> p.resources[i] != p.resources[j]
      modifies this`resources
      ensures resources == ChargeAll(old(resources), p.resources, p.bytes, p.cost)
    {
      for i := 0 to |p.resources|
        invariant resources == ChargeAll(old(resources), p.resources[..i], p.bytes, p.cost)
      {
        var d := p.resources[i];
        var usage := if d in resources then resources[d] else ZERO;
        resources := resources[d := usage.Plus(p.bytes, p.cost)];
        assert p.resources[..i + 1] == p.resources[..i] + [d];
      }
      assert p.resources[..|p.resources|] == p.resources;
    }

    /** What dropping a permit does. */
    method Release(p: Permit)
      requires forall i, j :: 0 <= i < j < |p.resources| ==> p.resources[i] != p.resources[j]
      modifies this
      ensures Value() == Admission.Release(old(Value()), p)
    {
      global := global.Minus(p.bytes, p.cost);
      if p.tenantId in tenants {
        var usage := tenants[p.tenantId].Minus(p.bytes, p.cost);
        if usage.inFlight == 0 {
          tenants := tenants - {p.tenantId};
        } else {
          tenants := tenants[p.tenantId := usage];
        }
      }
      if p.class_ in classes {
        classes := classes[p.class_ := classes[p.class_].Minus(p.bytes, p.cost)];
      }
      DischargeResources(p);
    }

    method DischargeResources(p: Permit)
      requires forall i, j :: 0 <= i < j < |p.resources| ==> p.resources[i] != p.resources[j]
      modifies this`resources
      ensures resources == DischargeAll(old(resources), p.resources, p.bytes, p.cost)
    {
      for i := 0 to |p.resources|
        invariant resources == DischargeAll(old(resources), p.resources[..i], p.bytes, p.cost)
      {
        var d := p.resources[i];
        if d in resources {
          resources := resources[d := resources[d].Minus(p.bytes, p.cost)];
        }
        assert p.resources[..i + 1] == p.resources[..i] + [d];
      }
      assert p.resources[..|p.resources|] == p.resources;
    }
  }

  /** `AdmissionPolicy::validate`: one pass over the classes, adding up reservations, one over the domains. */
  method Validate(policy: Policy) returns (fault: Option<PolicyError>)
    ensures fault == PolicyFault(policy)
  {
    fault := LimitsFault(policy);
    if fault.Some? {
      return;
    }
    var reserved := 0;
    for i := 0 to |CLASSES|
      invariant FirstFault(CLASSES[..i], c => ClassFault(policy, c)).None?
      invariant reserved == SaturatingSum(policy, CLASSES[..i])
    {
      assert CLASSES[..i + 1][..i] == CLASSES[..i];
      fault := ClassFault(policy, CLASSES[i]);
      if fault.Some? {
        FaultStays(CLASSES, c => ClassFault(policy, c), i + 1);
        return;
      }
      reserved := SatAdd(reserved, policy.Reserved(CLASSES[i]), USIZE_MAX);
    }
    assert CLASSES[..|CLASSES|] == CLASSES;
    if reserved > policy.global.maxInFlight {
      return Some(InvalidClassPolicy);
    }
    for i := 0 to |RESOURCE_DOMAINS|
      invariant FirstFault(RESOURCE_DOMAINS[..i], d => DomainFault(policy, d)).None?
    {
      assert RESOURCE_DOMAINS[..i + 1][..i] == RESOURCE_DOMAINS[..i];
      fault := DomainFault(policy, RESOURCE_DOMAINS[i]);
      if fault.Some? {
        FaultStays(RESOURCE_DOMAINS, d => DomainFault(policy, d), i + 1);
        return;
      }
    }
    assert RESOURCE_DOMAINS[..|RESOURCE_DOMAINS|] == RESOURCE_DOMAINS;
    return None;
  }

  lemma {:induction false} FaultStays<T>(items: seq<T>, fault: T -> Option<PolicyError>, n: nat)
    requires n <= |items| && FirstFault(items[..n], fault).Some?
    ensures FirstFault(items, fault) == FirstFault(items[..n], fault)
    decreases |items|
  {
    if n == |items| {
      assert items[..n] == items;
    } else {
      var front := items[..|items| - 1];
      assert front[..n] == items[..n];
      FaultStays(front, fault, n);
    }
  }
}
