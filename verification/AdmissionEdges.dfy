/**
 * Validated policies at the edge of the integer range, where the conditions of the admission
 * theorems fail (`crates/aequora-admission/src/controller.rs`).
 */
module AdmissionEdges {
  import opened Base
  import opened Work
  import opened Admission
  import opened AdmissionTheorems
  import Fairness
  import Limiter

  const UNLIMITED := ResourceBudget(USIZE_MAX, USIZE_MAX, U64_MAX, U64_MAX)

  const QUEUE := Fairness.FairQueueConfig(1, 1, 1, PerClass(1, 1, 1, 1, 1, 1), PerClass(1, 1, 1, 1, 1, 1), 1)

  const LOAD := LoadPolicy(LoadThresholds(2, 1, 3, 2, 4, 3, 1), 100, 100, 100, 100, 1, 1)

  /** All ceilings at the integer maximum; two classes reserve, the others do not. */
  function Unlimited(critical: usize, interactive: usize): Policy {
    var plain := ClassBudget(UNLIMITED, 0);
    Policy(UNLIMITED, TenantPolicy(UNLIMITED, 1, USIZE_MAX),
           PerClass(ClassBudget(UNLIMITED, critical), ClassBudget(UNLIMITED, interactive), plain, plain, plain, plain),
           map d | d in RESOURCE_DOMAINS :: UNLIMITED,
           QUEUE, Limiter.RateLimit(1, 1), Limiter.RateLimit(1, 1),
           RequestLimits(USIZE_MAX, U64_MAX, U64_MAX, USIZE_MAX, USIZE_MAX, USIZE_MAX), LOAD, 1)
  }

  lemma UnlimitedIsValid(critical: usize, interactive: usize)
    ensures Unlimited(critical, interactive).Valid()
  {
    SaturatingSumIs(Unlimited(critical, interactive));
  }

  /** A request of `bytes` bytes that names no resource domain. */
  function Plain(class_: WorkClass, bytes: u64): WorkDescriptor {
    WorkDescriptor(0, 1, class_, 1, RequestShape(1, 0, bytes, 1, 0, 0), 0, [])
  }

  /**
   * Reserved capacity can be out of reach: when Critical reserves all that scaling leaves, an
   * Interactive request below its reservation is turned away from an idle server.
   */
  lemma ReservedCapacityOutOfReach()
    ensures var policy := Unlimited(CUT, 1);
            && policy.Valid() && TotalReserved(policy) <= USIZE_MAX
            && policy.load.CapacityPercent(INITIAL.loadState) == 100
            && Get(INITIAL.classes, Interactive).inFlight < policy.Reserved(Interactive)
            && Refusal(policy, Run(policy, []).s, Plain(Interactive, 1)) == Some(ServerBusy(policy.retryAfterMs))
  {
    var policy := Unlimited(CUT, 1);
    UnlimitedIsValid(CUT, 1);
    UnusedDoesNotWrap(policy, INITIAL, Interactive);
    FullCapacityLimit(policy.global.maxInFlight);
    assert UnusedElsewhere(policy, INITIAL, Interactive) == CUT;
  }

  /** A validated policy can reserve more than exists, and then does not hold it from the start. */
  lemma ReservationsNotHeld()
    ensures var policy := Unlimited(USIZE_MAX, 1);
            && policy.Valid() && TotalReserved(policy) > USIZE_MAX
            && !ReservationsHeld(policy, Run(policy, []).s)
  {
    UnlimitedIsValid(USIZE_MAX, 1);
    assert TotalUnused(Unlimited(USIZE_MAX, 1), INITIAL) == USIZE_MAX + 1;
  }

  lemma HugeIsAdmitted(s: State)
    requires s.loadState == Healthy && s.global.inFlight <= 1
    requires Get(s.tenants, 0).inFlight <= 1 && Get(s.classes, Normal).inFlight <= 1
    requires s.global.cost <= 1 && Get(s.tenants, 0).cost <= 1 && Get(s.classes, Normal).cost <= 1
    requires 0 in s.tenants || s.tenants == map[]
    ensures Refusal(Unlimited(0, 0), s, Plain(Normal, U64_MAX)).None?
  {
    var policy := Unlimited(0, 0);
    UnusedDoesNotWrap(policy, s, Normal);
    FullCapacityLimit(policy.global.maxInFlight);
    PermitDomains(Plain(Normal, U64_MAX));
  }

  lemma AfterOneHuge()
    ensures var policy, huge := Unlimited(0, 0), Plain(Normal, U64_MAX);
            && Run(policy, [Request(huge)]) == World(Admit(INITIAL, PermitFor(huge)), [PermitFor(huge)])
            && Conserved(Run(policy, [Request(huge)]))
  {
    var policy, huge := Unlimited(0, 0), Plain(Normal, U64_MAX);
    var p := PermitFor(huge);
    HugeIsAdmitted(INITIAL);
    assert [Request(huge)][..0] == [] && [] + [p] == [p];
    AdmitConservesIff(policy, World(INITIAL, []), p);
  }

  lemma SecondIsNotCounted(policy: Policy, w: World, request: WorkDescriptor)
    requires Conserved(w) && w.s.metrics.Valid() && Refusal(policy, w.s, request).None?
    requires w.s.global.bytes + request.EstimatedBytes() > U64_MAX
    ensures |Step(policy, w, Request(request)).permits| == |w.permits| + 1
    ensures !Conserved(Step(policy, w, Request(request)))
  {
    AdmitConservesIff(policy, w, PermitFor(request));
  }

  lemma SecondHugeIsAdmitted()
    ensures var policy, huge := Unlimited(0, 0), Plain(Normal, U64_MAX);
            var after := Admit(INITIAL, PermitFor(huge));
            Refusal(policy, after, huge).None? && after.global.bytes == U64_MAX
  {
    HugeIsAdmitted(Admit(INITIAL, PermitFor(Plain(Normal, U64_MAX))));
  }

  lemma RunTwo(policy: Policy, a: Op, b: Op)
    ensures Run(policy, [a, b]) == Step(policy, Run(policy, [a]), b)
  {
    assert [a, b][..1] == [a];
  }

  /** Under a byte ceiling of 2^64 - 1 two requests of that size are both admitted and counted as one. */
  lemma ByteCounterLosesARequest()
    ensures var policy, huge := Unlimited(0, 0), Request(Plain(Normal, U64_MAX));
            && policy.Valid()
            && |Run(policy, [huge, huge]).permits| == 2
            && !Conserved(Run(policy, [huge, huge]))
  {
    UnlimitedIsValid(0, 0);
    TwoHuge(Unlimited(0, 0), Plain(Normal, U64_MAX));
  }

  lemma TwoHuge(policy: Policy, huge: WorkDescriptor)
    requires policy == Unlimited(0, 0) && huge == Plain(Normal, U64_MAX)
    ensures |Run(policy, [Request(huge), Request(huge)]).permits| == 2
    ensures !Conserved(Run(policy, [Request(huge), Request(huge)]))
  {
    AfterOneHuge();
    SecondHugeIsAdmitted();
    RunTwo(policy, Request(huge), Request(huge));
    SecondIsNotCounted(policy, Run(policy, [Request(huge)]), huge);
  }
}
