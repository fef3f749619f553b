/**
 * Hierarchical admission control (`crates/aequora-admission/src/controller.rs`): policies,
 * validation, and the value-level description of one admission or release.
 */
module Admission {
  import opened Base
  import opened Work
  import Fairness
  import Limiter

  // ---------------------------------------------------------------------------------------------
  // Policy
  // ---------------------------------------------------------------------------------------------

  datatype ResourceBudget = ResourceBudget(maxInFlight: usize, maxQueue: usize, maxBytes: u64, maxCost: u64) {
    predicate Valid() {
      maxInFlight != 0 && maxBytes != 0 && maxCost != 0
    }
  }

  datatype ClassBudget = ClassBudget(budget: ResourceBudget, reservedInFlight: usize)

  datatype TenantPolicy = TenantPolicy(budget: ResourceBudget, maximumWeight: u16, maxTrackedTenants: usize)

  datatype RequestLimits = RequestLimits(
    maxOperations: usize, maxEncodedBytes: u64, maxDecompressedBytes: u64,
    maxScopes: usize, maxDependencyEdges: usize, maxDependencyDepth: usize)
  {
    predicate Valid() {
      && maxOperations != 0 && maxEncodedBytes != 0 && maxDecompressedBytes >= maxEncodedBytes
      && maxScopes != 0 && maxDependencyEdges != 0 && maxDependencyDepth != 0
    }

    function Check(shape: RequestShape): Option<Rejection> {
      if shape.operations > maxOperations || shape.encodedBytes > maxEncodedBytes
         || shape.decompressedBytes > maxDecompressedBytes || shape.scopes > maxScopes then
        Some(RequestTooLarge)
      else if shape.dependencyEdges > maxDependencyEdges || shape.dependencyDepth > maxDependencyDepth then
        Some(TooManyDependencies)
      else None
    }
  }

  datatype LoadState = Healthy | Elevated | Overloaded | Severe

  /** Pressure in thousandths at which each state is entered and left. */
  datatype LoadThresholds = LoadThresholds(
    elevatedEnter: u16, elevatedExit: u16, overloadedEnter: u16, overloadedExit: u16,
    severeEnter: u16, severeExit: u16, minimumDwellMs: u64)
  {
    predicate Valid() {
      && minimumDwellMs != 0
      && elevatedExit < elevatedEnter && overloadedExit < overloadedEnter && severeExit < severeEnter
      && elevatedEnter < overloadedEnter < severeEnter <= 1_000
    }
  }

  datatype LoadPolicy = LoadPolicy(
    thresholds: LoadThresholds, healthy: byte, elevated: byte, overloaded: byte, severe: byte,
    batchOpsOverloaded: usize, batchBytesOverloaded: usize)
  {
    predicate Valid() {
      && thresholds.Valid()
      && 0 < healthy <= 100 && 0 < elevated <= healthy
      && 0 < overloaded <= elevated && 0 < severe <= overloaded
      && batchOpsOverloaded != 0 && batchBytesOverloaded != 0
    }

    function CapacityPercent(state: LoadState): byte {
      match state
      case Healthy => healthy
      case Elevated => elevated
      case Overloaded => overloaded
      case Severe => severe
    }

    predicate Allows(state: LoadState, c: WorkClass) {
      match state
      case Healthy => true
      case Elevated => !c.Maintenance?
      case Overloaded => !c.Bulk? && !c.Background? && !c.Maintenance?
      case Severe => c.Critical? || c.Interactive?
    }
  }

  datatype Rejection =
    | ServerBusy(retryAfterMs: u64)
    | TenantBusy(retryAfterMs: u64)
    | ResourceBudgetExceeded(retryAfterMs: u64)
    | RequestTooLarge
    | TooManyDependencies
    | LoadShed(retryAfterMs: u64)

  datatype PolicyError =
    | InvalidResourceBudget | InvalidRequestLimits | InvalidTenantPolicy | InvalidClassPolicy
    | MissingResourceBudget | InvalidLoadPolicy | InvalidQueuePolicy | InvalidRateLimit

  datatype Policy = Policy(
    global: ResourceBudget,
    tenant: TenantPolicy,
    classes: PerClass<ClassBudget>,
    resources: map<ResourceDomain, ResourceBudget>,
    queue: Fairness.FairQueueConfig,
    connectionRate: Limiter.RateLimit,
    tenantRequestRate: Limiter.RateLimit,
    requestLimits: RequestLimits,
    load: LoadPolicy,
    retryAfterMs: u64)
  {
    function Reserved(c: WorkClass): usize {
      classes.Of(c).reservedInFlight
    }

    /** What a policy must satisfy, with the saturating sum of the reservations. */
    predicate Valid() {
      && global.Valid() && tenant.budget.Valid() && requestLimits.Valid() && queue.Valid()
      && connectionRate.Valid() && tenantRequestRate.Valid() && load.Valid()
      && retryAfterMs != 0 && tenant.maximumWeight != 0
      && tenant.budget.maxInFlight <= global.maxInFlight
      && tenant.maxTrackedTenants >= global.maxInFlight
      && (forall c :: classes.Of(c).budget.Valid() && Reserved(c) <= classes.Of(c).budget.maxInFlight)
      && SaturatingSum(this, CLASSES) <= global.maxInFlight
      && (forall d :: d in RESOURCE_DOMAINS ==> d in resources && resources[d].Valid())
    }
  }

  function SaturatingSum(policy: Policy, classes: seq<WorkClass>): nat {
    if classes == [] then 0
    else SatAdd(SaturatingSum(policy, classes[..|classes| - 1]), policy.Reserved(classes[|classes| - 1]), USIZE_MAX)
  }

  function ClassFault(policy: Policy, c: WorkClass): Option<PolicyError> {
    if !policy.classes.Of(c).budget.Valid() then Some(InvalidResourceBudget)
    else if policy.Reserved(c) > policy.classes.Of(c).budget.maxInFlight then Some(InvalidClassPolicy)
    else None
  }

  function DomainFault(policy: Policy, d: ResourceDomain): Option<PolicyError> {
    if d !in policy.resources then Some(MissingResourceBudget)
    else if !policy.resources[d].Valid() then Some(InvalidResourceBudget)
    else None
  }

  /** The fault of the first item that has one. */
  function FirstFault<T>(items: seq<T>, fault: T -> Option<PolicyError>): Option<PolicyError> {
    if items == [] then None
    else
      var earlier := FirstFault(items[..|items| - 1], fault);
      if earlier.Some? then earlier else fault(items[|items| - 1])
  }

  lemma {:induction false} NoFirstFault<T>(items: seq<T>, fault: T -> Option<PolicyError>)
    ensures FirstFault(items, fault).None? <==> forall x :: x in items ==> fault(x).None?
  {
    if items == [] {
    } else {
      NoFirstFault(items[..|items| - 1], fault);
      assert items == items[..|items| - 1] + [items[|items| - 1]];
    }
  }

  /** The checks of `AdmissionPolicy::validate` before it looks at classes and domains. */
  function LimitsFault(policy: Policy): Option<PolicyError> {
    if !policy.global.Valid() || !policy.tenant.budget.Valid() then Some(InvalidResourceBudget)
    else if !policy.requestLimits.Valid() then Some(InvalidRequestLimits)
    else if !policy.queue.Valid() then Some(InvalidQueuePolicy)
    else if !policy.connectionRate.Valid() || !policy.tenantRequestRate.Valid() then Some(InvalidRateLimit)
    else if !policy.load.Valid() then Some(InvalidLoadPolicy)
    else if policy.retryAfterMs == 0 || policy.tenant.maximumWeight == 0
            || policy.tenant.budget.maxInFlight > policy.global.maxInFlight
            || policy.tenant.maxTrackedTenants < policy.global.maxInFlight then Some(InvalidTenantPolicy)
    else None
  }

  /** What `AdmissionPolicy::validate` reports, if anything. */
  function PolicyFault(policy: Policy): Option<PolicyError> {
    var classes := FirstFault(CLASSES, c => ClassFault(policy, c));
    if LimitsFault(policy).Some? then LimitsFault(policy)
    else if classes.Some? then classes
    else if SaturatingSum(policy, CLASSES) > policy.global.maxInFlight then Some(InvalidClassPolicy)
    else FirstFault(RESOURCE_DOMAINS, d => DomainFault(policy, d))
  }

  lemma ClassesPass(policy: Policy)
    ensures FirstFault(CLASSES, c => ClassFault(policy, c)).None?
            <==> forall c :: policy.classes.Of(c).budget.Valid()
                             && policy.Reserved(c) <= policy.classes.Of(c).budget.maxInFlight
  {
    var fault := c => ClassFault(policy, c);
    NoFirstFault(CLASSES, fault);
    forall c ensures c in CLASSES {
      EveryClassListed(c);
    }
    if FirstFault(CLASSES, fault).None? {
      forall c
        ensures policy.classes.Of(c).budget.Valid() && policy.Reserved(c) <= policy.classes.Of(c).budget.maxInFlight
      {
        assert c in CLASSES && fault(c).None?;
      }
    }
  }

  lemma DomainsPass(policy: Policy)
    ensures FirstFault(RESOURCE_DOMAINS, d => DomainFault(policy, d)).None?
            <==> forall d :: d in RESOURCE_DOMAINS ==> d in policy.resources && policy.resources[d].Valid()
  {
    var fault := d => DomainFault(policy, d);
    NoFirstFault(RESOURCE_DOMAINS, fault);
    assert forall d :: fault(d) == DomainFault(policy, d);
  }

  /** A policy passes validation exactly when it satisfies every requirement. */
  lemma NoFaultMeansValid(policy: Policy)
    ensures PolicyFault(policy).None? <==> policy.Valid()
  {
    ClassesPass(policy);
    DomainsPass(policy);
  }

  function WeightedTenantBudget(tenant: ResourceBudget, global: ResourceBudget, weight: u16): ResourceBudget {
    ResourceBudget(
      Min(SatMul(tenant.maxInFlight, weight, USIZE_MAX), global.maxInFlight),
      Min(SatMul(tenant.maxQueue, weight, USIZE_MAX), global.maxQueue),
      Min(SatMul(tenant.maxBytes, weight, U64_MAX), global.maxBytes),
      Min(SatMul(tenant.maxCost, weight, U64_MAX), global.maxCost))
  }

  function ScaledLimit(limit: usize, percent: byte): nat {
    Max(DivCeil(SatMul(limit, percent, USIZE_MAX), 100), 1)
  }

  // ---------------------------------------------------------------------------------------------
  // Counters
  // ---------------------------------------------------------------------------------------------

  datatype Usage = Usage(inFlight: nat, bytes: nat, cost: nat) {
    function Plus(b: nat, c: nat): Usage {
      Usage(SatAdd(inFlight, 1, USIZE_MAX), SatAdd(bytes, b, U64_MAX), SatAdd(cost, c, U64_MAX))
    }

    function Minus(b: nat, c: nat): Usage {
      Usage(SatSub(inFlight, 1), SatSub(bytes, b), SatSub(cost, c))
    }
  }

  const ZERO := Usage(0, 0, 0)

  /** The byte and cost half of `fits`. */
  predicate AmountsFit(current: Usage, budget: ResourceBudget, bytes: u64, cost: u64) {
    SatAdd(current.bytes, bytes, U64_MAX) <= budget.maxBytes && SatAdd(current.cost, cost, U64_MAX) <= budget.maxCost
  }

  predicate Fits(current: Usage, budget: ResourceBudget, bytes: u64, cost: u64) {
    current.inFlight < budget.maxInFlight && AmountsFit(current, budget, bytes, cost)
  }

  function Get<K>(m: map<K, Usage>, k: K): Usage {
    if k in m then m[k] else ZERO
  }

  /** Charges every domain of `ds` in `m`, creating missing entries. */
  function ChargeAll<K(==)>(m: map<K, Usage>, ds: seq<K>, bytes: nat, cost: nat): map<K, Usage> {
    map d | d in m.Keys + (set x | x in ds) :: if d in ds then Get(m, d).Plus(bytes, cost) else m[d]
  }

  /** Discharges every domain of `ds` that has an entry in `m`. */
  function DischargeAll<K(==)>(m: map<K, Usage>, ds: seq<K>, bytes: nat, cost: nat): map<K, Usage> {
    map d | d in m :: if d in ds then m[d].Minus(bytes, cost) else m[d]
  }

  datatype Metrics = Metrics(allowed: nat, rejected: seq<nat>, rejectedByClass: seq<nat>) {
    predicate Valid() {
      |rejected| == 8 && |rejectedByClass| == 6
    }

    function Reject(r: Rejection, c: WorkClass): (m: Metrics)
      requires Valid()
      ensures m.Valid()
    {
      var i := match r
        case ServerBusy(_) => 0
        case TenantBusy(_) => 1
        case ResourceBudgetExceeded(_) => 4
        case RequestTooLarge => 5
        case TooManyDependencies => 6
        case LoadShed(_) => 7;
      var k := 5 - c.Rank();
      Metrics(allowed, rejected[i := SatAdd(rejected[i], 1, U64_MAX)],
              rejectedByClass[k := SatAdd(rejectedByClass[k], 1, U64_MAX)])
    }
  }

  datatype State = State(
    global: Usage,
    tenants: map<TenantId, Usage>,
    classes: map<WorkClass, Usage>,
    resources: map<ResourceDomain, Usage>,
    loadState: LoadState,
    metrics: Metrics)

  const INITIAL := State(ZERO, map[], map[], map[], Healthy, Metrics(0, [0, 0, 0, 0, 0, 0, 0, 0], [0, 0, 0, 0, 0, 0]))

  /** What one admitted work item holds until it is dropped. */
  datatype Permit = Permit(tenantId: TenantId, class_: WorkClass, bytes: u64, cost: u64, resources: seq<ResourceDomain>)

  /** The distinct domains of a request in declaration order. */
  function Distinct(wanted: seq<ResourceDomain>, domains: seq<ResourceDomain>): seq<ResourceDomain> {
    if domains == [] then []
    else
      var n := |domains| - 1;
      Distinct(wanted, domains[..n]) + if domains[n] in wanted then [domains[n]] else []
  }

  function PermitFor(request: WorkDescriptor): Permit {
    Permit(request.tenantId, request.class_, request.EstimatedBytes(), request.cost,
           Distinct(request.resources, RESOURCE_DOMAINS))
  }

  // ---------------------------------------------------------------------------------------------
  // One admission
  // ---------------------------------------------------------------------------------------------

  function Unused(policy: Policy, s: State, c: WorkClass): usize {
    SatSub(policy.Reserved(c), Get(s.classes, c).inFlight)
  }

  /** Capacity that classes other than `c` have reserved and not taken up. */
  function UnusedElsewhere(policy: Policy, s: State, c: WorkClass): nat {
    Across(d => if d == c then 0 else Unused(policy, s, d))
  }

  function UnusedAt(policy: Policy, s: State, c: WorkClass, i: nat): usize
    requires i < |CLASSES|
  {
    if CLASSES[i] == c then 0 else Unused(policy, s, CLASSES[i])
  }

  function WrappingSum(policy: Policy, s: State, c: WorkClass, n: nat): usize
    requires n <= |CLASSES|
  {
    if n == 0 then 0 else WrapAdd(WrappingSum(policy, s, c, n - 1), UnusedAt(policy, s, c, n - 1))
  }

  /** The same as the controller adds it up, in a `usize`. */
  function UnusedByOthers(policy: Policy, s: State, c: WorkClass): usize {
    WrappingSum(policy, s, c, |CLASSES|)
  }

  function GlobalLimit(policy: Policy, s: State, c: WorkClass): nat {
    SatSub(ScaledLimit(policy.global.maxInFlight, policy.load.CapacityPercent(s.loadState)),
           UnusedByOthers(policy, s, c))
  }

  function EffectiveTenantBudget(policy: Policy, request: WorkDescriptor): ResourceBudget {
    WeightedTenantBudget(policy.tenant.budget, policy.global,
                         Min(Max(request.tenantWeight, 1), policy.tenant.maximumWeight))
  }

  predicate ResourceFits(policy: Policy, s: State, d: ResourceDomain, bytes: u64, cost: u64) {
    d in policy.resources && Fits(Get(s.resources, d), policy.resources[d], bytes, cost)
  }

  /** The first check that refuses the request, in the order of the source. */
  function Refusal(policy: Policy, s: State, request: WorkDescriptor): Option<Rejection> {
    var p := PermitFor(request);
    if policy.requestLimits.Check(request.shape).Some? then
      policy.requestLimits.Check(request.shape)
    else if !policy.load.Allows(s.loadState, p.class_) then
      Some(LoadShed(policy.retryAfterMs))
    else if s.global.inFlight >= GlobalLimit(policy, s, p.class_)
            || !Fits(s.global, policy.global, p.bytes, p.cost) then
      Some(ServerBusy(policy.retryAfterMs))
    else if !Fits(Get(s.tenants, p.tenantId), EffectiveTenantBudget(policy, request), p.bytes, p.cost)
            || TenantUntrackable(policy, s, p.tenantId) then
      Some(TenantBusy(policy.retryAfterMs))
    else if !Fits(Get(s.classes, p.class_), policy.classes.Of(p.class_).budget, p.bytes, p.cost)
            || exists d :: d in p.resources && !ResourceFits(policy, s, d, p.bytes, p.cost) then
      Some(ResourceBudgetExceeded(policy.retryAfterMs))
    else None
  }

  /** The check that a new tenant finds no room in the table of tracked tenants. */
  predicate TenantUntrackable(policy: Policy, s: State, t: TenantId) {
    t !in s.tenants && |s.tenants| >= policy.tenant.maxTrackedTenants
  }

  function Admit(s: State, p: Permit): State {
    State(s.global.Plus(p.bytes, p.cost),
          s.tenants[p.tenantId := Get(s.tenants, p.tenantId).Plus(p.bytes, p.cost)],
          s.classes[p.class_ := Get(s.classes, p.class_).Plus(p.bytes, p.cost)],
          ChargeAll(s.resources, p.resources, p.bytes, p.cost),
          s.loadState,
          s.metrics.(allowed := SatAdd(s.metrics.allowed, 1, U64_MAX)))
  }

  function Release(s: State, p: Permit): State {
    var tenant := Get(s.tenants, p.tenantId).Minus(p.bytes, p.cost);
    State(s.global.Minus(p.bytes, p.cost),
          if p.tenantId !in s.tenants then s.tenants
          else if tenant.inFlight == 0 then s.tenants - {p.tenantId}
          else s.tenants[p.tenantId := tenant],
          if p.class_ !in s.classes then s.classes
          else s.classes[p.class_ := s.classes[p.class_].Minus(p.bytes, p.cost)],
          DischargeAll(s.resources, p.resources, p.bytes, p.cost),
          s.loadState,
          s.metrics)
  }

  lemma {:induction false} DistinctMembers(wanted: seq<ResourceDomain>, domains: seq<ResourceDomain>)
    requires forall i, j :: 0 <= i < j < |domains| ==> domains[i] != domains[j]
    ensures forall d :: d in Distinct(wanted, domains) <==> d in wanted && d in domains
    ensures forall i, j :: 0 <= i < j < |Distinct(wanted, domains)| ==>
                             Distinct(wanted, domains)[i] != Distinct(wanted, domains)[j]
  {
    if domains == [] {
    } else {
      var n := |domains| - 1;
      DistinctMembers(wanted, domains[..n]);
      assert domains == domains[..n] + [domains[n]];
    }
  }

  /** A permit names each requested domain exactly once. */
  lemma PermitDomains(request: WorkDescriptor)
    ensures var ds := PermitFor(request).resources;
            && (forall d :: d in ds <==> d in request.resources)
            && (forall i, j :: 0 <= i < j < |ds| ==> ds[i] != ds[j])
  {
    DistinctMembers(request.resources, RESOURCE_DOMAINS);
    forall d: ResourceDomain ensures d in RESOURCE_DOMAINS {
      EveryDomainListed(d);
    }
  }

  lemma EveryDomainListed(d: ResourceDomain)
    ensures d in RESOURCE_DOMAINS
  {
    var i := match d
      case HttpRequest => 0
      case SyncExchange => 1
      case DatabaseTransaction => 2
      case InteractiveCpu => 3
      case BulkCpu => 4
      case MaintenanceCpu => 5
      case SnapshotBuild => 6
      case SnapshotDownload => 7
      case BlobTransfer => 8
      case LiveConnection => 9
      case BackgroundJob => 10;
    assert RESOURCE_DOMAINS[i] == d;
  }
}
