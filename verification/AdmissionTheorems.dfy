/**
 * Conservation of the admission counters and the reservation guarantee, over every interleaving
 * of requests, permit drops and load-state changes (`crates/aequora-admission/src/controller.rs`,
 * `crates/aequora-admission/src/permit.rs`).
 */
module AdmissionTheorems {
  import opened Base
  import opened Work
  import opened Admission

  // ---------------------------------------------------------------------------------------------
  // Counters against outstanding permits
  // ---------------------------------------------------------------------------------------------

  /** Everything that has a counter. */
  datatype Scope = Everything | OfTenant(t: TenantId) | OfClass(c: WorkClass) | OfResource(d: ResourceDomain)

  function UsageOf(s: State, scope: Scope): Usage {
    match scope
    case Everything => s.global
    case OfTenant(t) => Get(s.tenants, t)
    case OfClass(c) => Get(s.classes, c)
    case OfResource(d) => Get(s.resources, d)
  }

  predicate Charges(p: Permit, scope: Scope) {
    match scope
    case Everything => true
    case OfTenant(t) => p.tenantId == t
    case OfClass(c) => p.class_ == c
    case OfResource(d) => d in p.resources
  }

  /** What `p` adds to a scope, without any ceiling. */
  function Exactly(u: Usage, p: Permit, scope: Scope): Usage {
    if Charges(p, scope) then Usage(u.inFlight + 1, u.bytes + p.bytes, u.cost + p.cost) else u
  }

  /** The exact sum over outstanding permits. */
  function Total(permits: seq<Permit>, scope: Scope): Usage {
    if permits == [] then ZERO
    else Exactly(Total(permits[..|permits| - 1], scope), permits[|permits| - 1], scope)
  }

  lemma {:induction false} TotalWithout(permits: seq<Permit>, i: nat, scope: Scope)
    requires i < |permits|
    ensures Total(permits, scope) == Exactly(Total(Without(permits, i), scope), permits[i], scope)
    decreases |permits|
  {
    var n := |permits| - 1;
    if i == n {
      assert Without(permits, i) == permits[..n];
    } else {
      WithoutSplits(permits, i);
      TotalWithout(permits[..n], i, scope);
      assert Total(Without(permits, i), scope) == Exactly(Total(Without(permits[..n], i), scope), permits[n], scope);
    }
  }

  /** No scope exceeds the global scope, and a scope without permits holds nothing. */
  lemma {:induction false} ScopeWithinGlobal(permits: seq<Permit>, scope: Scope)
    ensures var t, g := Total(permits, scope), Total(permits, Everything);
            && t.inFlight <= g.inFlight == |permits|
            && t.bytes <= g.bytes && t.cost <= g.cost
            && (t.inFlight == 0 ==> t == ZERO)
  {
    if permits == [] {
    } else {
      ScopeWithinGlobal(permits[..|permits| - 1], scope);
    }
  }

  lemma AdmitEffect(s: State, p: Permit, scope: Scope)
    ensures UsageOf(Admit(s, p), scope)
            == if Charges(p, scope) then UsageOf(s, scope).Plus(p.bytes, p.cost) else UsageOf(s, scope)
  {
  }

  lemma ReleaseEffect(s: State, p: Permit, scope: Scope)
    ensures var after := UsageOf(Release(s, p), scope);
            var minus := UsageOf(s, scope).Minus(p.bytes, p.cost);
            if Charges(p, scope) then after == minus || (minus.inFlight == 0 && after == ZERO)
            else after == UsageOf(s, scope)
  {
  }

  // ---------------------------------------------------------------------------------------------
  // Runs
  // ---------------------------------------------------------------------------------------------

  datatype Op = Request(request: WorkDescriptor) | Drop(index: nat) | SetLoad(loadState: LoadState)

  /** A controller together with the permits that callers still hold. */
  datatype World = World(s: State, permits: seq<Permit>)

  function Step(policy: Policy, w: World, op: Op): World
    requires w.s.metrics.Valid()
  {
    match op
    case Request(request) =>
      (match Refusal(policy, w.s, request)
       case None => World(Admit(w.s, PermitFor(request)), w.permits + [PermitFor(request)])
       case Some(r) => World(w.s.(metrics := w.s.metrics.Reject(r, request.class_)), w.permits))
    case Drop(i) =>
      if i < |w.permits| then World(Release(w.s, w.permits[i]), Without(w.permits, i)) else w
    case SetLoad(loadState) => World(w.s.(loadState := loadState), w.permits)
  }

  function Run(policy: Policy, ops: seq<Op>): (w: World)
    ensures w.s.metrics.Valid()
  {
    if ops == [] then World(INITIAL, [])
    else Step(policy, Run(policy, ops[..|ops| - 1]), ops[|ops| - 1])
  }

  // ---------------------------------------------------------------------------------------------
  // In-flight counts are always exact
  // ---------------------------------------------------------------------------------------------

  ghost predicate CountsExact(policy: Policy, w: World) {
    && (forall scope :: UsageOf(w.s, scope).inFlight == Total(w.permits, scope).inFlight)
    && (forall t :: t in w.s.tenants ==> w.s.tenants[t].inFlight > 0)
    && w.s.global.inFlight <= policy.global.maxInFlight
  }

  lemma AdmitKeepsCounts(policy: Policy, w: World, p: Permit)
    requires CountsExact(policy, w) && w.s.global.inFlight < policy.global.maxInFlight
    ensures CountsExact(policy, World(Admit(w.s, p), w.permits + [p]))
  {
    var permits := w.permits + [p];
    assert permits[..|permits| - 1] == w.permits;
    forall scope ensures UsageOf(Admit(w.s, p), scope).inFlight == Total(permits, scope).inFlight {
      AdmitEffect(w.s, p, scope);
      ScopeWithinGlobal(w.permits, scope);
      assert UsageOf(w.s, Everything).inFlight == Total(w.permits, Everything).inFlight;
    }
    AdmitEffect(w.s, p, Everything);
  }

  lemma ReleaseKeepsCounts(policy: Policy, w: World, i: nat)
    requires CountsExact(policy, w) && i < |w.permits|
    ensures CountsExact(policy, World(Release(w.s, w.permits[i]), Without(w.permits, i)))
  {
    var next := Release(w.s, w.permits[i]);
    forall scope ensures UsageOf(next, scope).inFlight == Total(Without(w.permits, i), scope).inFlight {
      ReleaseEffect(w.s, w.permits[i], scope);
      TotalWithout(w.permits, i, scope);
    }
    ReleaseEffect(w.s, w.permits[i], Everything);
  }

  lemma {:induction false} CountsAreConserved(policy: Policy, ops: seq<Op>)
    requires policy.Valid()
    ensures CountsExact(policy, Run(policy, ops))
  {
    if ops == [] {
    } else {
      var before, op := Run(policy, ops[..|ops| - 1]), ops[|ops| - 1];
      CountsAreConserved(policy, ops[..|ops| - 1]);
      match op
      case Request(request) =>
        if Refusal(policy, before.s, request).None? {
          AdmitKeepsCounts(policy, before, PermitFor(request));
        } else {
          SameCounters(before.s, Run(policy, ops).s);
        }
      case Drop(i) =>
        if i < |before.permits| {
          ReleaseKeepsCounts(policy, before, i);
        }
      case SetLoad(_) =>
        SameCounters(before.s, Run(policy, ops).s);
    }
  }

  lemma SameCounters(a: State, b: State)
    requires b == a.(metrics := b.metrics, loadState := b.loadState)
    ensures forall scope :: UsageOf(a, scope) == UsageOf(b, scope)
  {
  }

  // ---------------------------------------------------------------------------------------------
  // Byte and cost counters
  // ---------------------------------------------------------------------------------------------

  /** Every counter of every scope is the sum over outstanding permits. */
  ghost predicate Conserved(w: World) {
    forall scope :: UsageOf(w.s, scope) == Total(w.permits, scope)
  }

  /** An admission keeps all counters exact if and only if the two global sums do not overflow. */
  lemma AdmitConservesIff(policy: Policy, w: World, p: Permit)
    requires Conserved(w) && w.s.global.inFlight < policy.global.maxInFlight
    ensures Conserved(World(Admit(w.s, p), w.permits + [p]))
            <==> w.s.global.bytes + p.bytes <= U64_MAX && w.s.global.cost + p.cost <= U64_MAX
  {
    var permits := w.permits + [p];
    assert permits[..|permits| - 1] == w.permits;
    assert UsageOf(w.s, Everything) == Total(w.permits, Everything);
    forall scope
      ensures w.s.global.bytes + p.bytes <= U64_MAX && w.s.global.cost + p.cost <= U64_MAX
              ==> UsageOf(Admit(w.s, p), scope) == Total(permits, scope)
    {
      AdmitEffect(w.s, p, scope);
      ScopeWithinGlobal(w.permits, scope);
    }
    AdmitEffect(w.s, p, Everything);
    if Conserved(World(Admit(w.s, p), permits)) {
      assert UsageOf(Admit(w.s, p), Everything) == Total(permits, Everything);
    }
  }

  lemma ReleaseConserves(w: World, i: nat)
    requires Conserved(w) && i < |w.permits|
    ensures Conserved(World(Release(w.s, w.permits[i]), Without(w.permits, i)))
  {
    forall scope ensures UsageOf(Release(w.s, w.permits[i]), scope) == Total(Without(w.permits, i), scope) {
      ReleaseEffect(w.s, w.permits[i], scope);
      TotalWithout(w.permits, i, scope);
      ScopeWithinGlobal(Without(w.permits, i), scope);
    }
  }

  /**
   * Conservation: with global byte and cost ceilings below the integer maximum, in every reachable
   * state every global, tenant, class and resource counter equals its sum over outstanding permits.
   */
  lemma {:induction false} CountersAreConserved(policy: Policy, ops: seq<Op>)
    requires policy.Valid() && policy.global.maxBytes < U64_MAX && policy.global.maxCost < U64_MAX
    ensures Conserved(Run(policy, ops))
  {
    if ops == [] {
    } else {
      var before, op := Run(policy, ops[..|ops| - 1]), ops[|ops| - 1];
      CountersAreConserved(policy, ops[..|ops| - 1]);
      match op
      case Request(request) =>
        if Refusal(policy, before.s, request).None? {
          AdmitConservesIff(policy, before, PermitFor(request));
        } else {
          SameCounters(before.s, Run(policy, ops).s);
        }
      case Drop(i) =>
        if i < |before.permits| {
          ReleaseConserves(before, i);
        }
      case SetLoad(_) =>
        SameCounters(before.s, Run(policy, ops).s);
    }
  }

  /** Once every permit is dropped every counter is back at zero and no tenant is tracked. */
  lemma AllDroppedIsZero(policy: Policy, ops: seq<Op>)
    requires policy.Valid() && policy.global.maxBytes < U64_MAX && policy.global.maxCost < U64_MAX
    requires Run(policy, ops).permits == []
    ensures forall scope :: UsageOf(Run(policy, ops).s, scope) == ZERO
    ensures Run(policy, ops).s.tenants == map[]
  {
    var w := Run(policy, ops);
    CountersAreConserved(policy, ops);
    CountsAreConserved(policy, ops);
    forall scope ensures UsageOf(w.s, scope) == ZERO {
      assert UsageOf(w.s, scope) == Total(w.permits, scope);
    }
    forall t ensures t !in w.s.tenants {
      assert UsageOf(w.s, OfTenant(t)) == ZERO;
    }
  }

  /** A refused request leaves every counter as it was. */
  lemma RejectionChangesNoCounter(policy: Policy, w: World, request: WorkDescriptor, scope: Scope)
    requires w.s.metrics.Valid() && Refusal(policy, w.s, request).Some?
    ensures UsageOf(Step(policy, w, Request(request)).s, scope) == UsageOf(w.s, scope)
    ensures Step(policy, w, Request(request)).permits == w.permits
  {
  }

  // ---------------------------------------------------------------------------------------------
  // The table of tracked tenants never fills up
  // ---------------------------------------------------------------------------------------------

  function TenantsOf(permits: seq<Permit>): set<TenantId> {
    set i | 0 <= i < |permits| :: permits[i].tenantId
  }

  lemma {:induction false} FewTenants(permits: seq<Permit>)
    ensures |TenantsOf(permits)| <= |permits|
  {
    if permits == [] {
    } else {
      var n := |permits| - 1;
      FewTenants(permits[..n]);
      assert TenantsOf(permits) == TenantsOf(permits[..n]) + {permits[n].tenantId};
    }
  }

  lemma {:induction false} TenantHasPermit(permits: seq<Permit>, t: TenantId)
    requires Total(permits, OfTenant(t)).inFlight > 0
    ensures t in TenantsOf(permits)
  {
    var n := |permits| - 1;
    if permits[n].tenantId != t {
      TenantHasPermit(permits[..n], t);
      var i :| 0 <= i < n && permits[..n][i].tenantId == t;
      assert permits[i].tenantId == t;
    }
  }

  lemma {:induction false} SubsetSize<T>(a: set<T>, b: set<T>)
    requires a <= b
    ensures |a| <= |b|
  {
    if a != {} {
      var x :| x in a;
      SubsetSize(a - {x}, b - {x});
    }
  }

  /** A request that passes the global check never meets a full tenant table. */
  lemma TrackedTenantsNeverFull(policy: Policy, ops: seq<Op>, t: TenantId)
    requires policy.Valid()
    requires Run(policy, ops).s.global.inFlight < policy.global.maxInFlight
    ensures !TenantUntrackable(policy, Run(policy, ops).s, t)
  {
    var w := Run(policy, ops);
    CountsAreConserved(policy, ops);
    forall u | u in w.s.tenants ensures u in TenantsOf(w.permits) {
      assert UsageOf(w.s, OfTenant(u)).inFlight == Total(w.permits, OfTenant(u)).inFlight;
      TenantHasPermit(w.permits, u);
    }
    SubsetSize(w.s.tenants.Keys, TenantsOf(w.permits));
    FewTenants(w.permits);
    ScopeWithinGlobal(w.permits, Everything);
    assert UsageOf(w.s, Everything).inFlight == Total(w.permits, Everything).inFlight;
  }

  // ---------------------------------------------------------------------------------------------
  // Reservations
  // ---------------------------------------------------------------------------------------------

  function TotalReserved(policy: Policy): nat {
    Across(c => policy.Reserved(c))
  }

  lemma SaturatingSumIs(policy: Policy)
    ensures SaturatingSum(policy, CLASSES) == Min(TotalReserved(policy), USIZE_MAX)
  {
    var r := c => policy.Reserved(c);
    assert CLASSES[..5] == [Critical, Interactive, Normal, Bulk, Background];
    assert CLASSES[..5][..4] == [Critical, Interactive, Normal, Bulk];
    var four := [Critical, Interactive, Normal, Bulk];
    assert four[..3] == [Critical, Interactive, Normal];
    var three := [Critical, Interactive, Normal];
    assert three[..2] == [Critical, Interactive];
    var two := [Critical, Interactive];
    assert two[..1] == [Critical];
    var one := [Critical];
    assert one[..0] == [];
    assert SaturatingSum(policy, one) == Min(r(Critical), USIZE_MAX);
    assert SaturatingSum(policy, two) == Min(r(Critical) + r(Interactive), USIZE_MAX);
    assert SaturatingSum(policy, three) == Min(r(Critical) + r(Interactive) + r(Normal), USIZE_MAX);
    assert SaturatingSum(policy, four) == Min(r(Critical) + r(Interactive) + r(Normal) + r(Bulk), USIZE_MAX);
  }

  /** A validated policy reserves no more than exists if and only if its sum did not saturate. */
  lemma ValidatedReservations(policy: Policy)
    requires policy.Valid()
    ensures TotalReserved(policy) <= policy.global.maxInFlight <==> TotalReserved(policy) <= USIZE_MAX
  {
    SaturatingSumIs(policy);
  }

  function TotalUnused(policy: Policy, s: State): nat {
    Across(c => Unused(policy, s, c))
  }

  /** Work in flight plus every reservation not taken up fits in the global ceiling. */
  ghost predicate ReservationsHeld(policy: Policy, s: State) {
    s.global.inFlight + TotalUnused(policy, s) <= policy.global.maxInFlight
  }

  lemma UnusedSplit(policy: Policy, s: State, c: WorkClass)
    ensures TotalUnused(policy, s) == UnusedElsewhere(policy, s, c) + Unused(policy, s, c)
  {
    AcrossUpdate(d => Unused(policy, s, d), d => if d == c then 0 else Unused(policy, s, d), c);
  }

  function SumOthers(policy: Policy, s: State, c: WorkClass, n: nat): nat
    requires n <= |CLASSES|
  {
    if n == 0 then 0 else SumOthers(policy, s, c, n - 1) + UnusedAt(policy, s, c, n - 1)
  }

  lemma SumOthersIsAcross(policy: Policy, s: State, c: WorkClass)
    ensures SumOthers(policy, s, c, 6) == UnusedElsewhere(policy, s, c)
  {
    var f := d => if d == c then 0 else Unused(policy, s, d);
    assert SumOthers(policy, s, c, 1) == f(Critical);
    assert SumOthers(policy, s, c, 2) == f(Critical) + f(Interactive);
    assert SumOthers(policy, s, c, 3) == f(Critical) + f(Interactive) + f(Normal);
    assert SumOthers(policy, s, c, 4) == f(Critical) + f(Interactive) + f(Normal) + f(Bulk);
    assert SumOthers(policy, s, c, 5) == f(Critical) + f(Interactive) + f(Normal) + f(Bulk) + f(Background);
  }

  lemma {:induction false} SumDoesNotWrap(policy: Policy, s: State, c: WorkClass, n: nat)
    requires n <= |CLASSES| && SumOthers(policy, s, c, n) <= USIZE_MAX
    ensures WrappingSum(policy, s, c, n) == SumOthers(policy, s, c, n)
  {
    if n == 0 {
    } else {
      SumDoesNotWrap(policy, s, c, n - 1);
    }
  }

  lemma UnusedWithinReserved(policy: Policy, s: State, c: WorkClass)
    ensures UnusedElsewhere(policy, s, c) <= TotalReserved(policy)
  {
  }

  /** The sum that the controller computes is exact when the reservations sum to a `usize`. */
  lemma UnusedDoesNotWrap(policy: Policy, s: State, c: WorkClass)
    requires TotalReserved(policy) <= USIZE_MAX
    ensures UnusedByOthers(policy, s, c) == UnusedElsewhere(policy, s, c)
  {
    SumOthersIsAcross(policy, s, c);
    UnusedWithinReserved(policy, s, c);
    SumDoesNotWrap(policy, s, c, 6);
  }

  lemma OthersUnaffected(policy: Policy, s: State, s': State, c: WorkClass)
    requires forall d :: d != c ==> Get(s.classes, d) == Get(s'.classes, d)
    ensures UnusedElsewhere(policy, s, c) == UnusedElsewhere(policy, s', c)
  {
  }

  lemma ScaledWithinLimit(limit: usize, percent: byte)
    requires 0 < limit && 0 < percent <= 100
    ensures ScaledLimit(limit, percent) <= limit
  {
    assert limit * percent <= limit * 100;
  }

  /** Below saturation, the scaled limit is the least positive count that covers the percentage. */
  lemma ScaledIsLeast(limit: usize, percent: byte, n: nat)
    requires limit * percent <= USIZE_MAX
    ensures n >= ScaledLimit(limit, percent) <==> n >= 1 && n * 100 >= limit * percent
  {
    LeastPositive(limit * percent, n);
  }

  lemma LeastPositive(product: nat, n: nat)
    ensures n >= Max(DivCeil(product, 100), 1) <==> n >= 1 && n * 100 >= product
  {
    DivCeilIsLeast(product, 100, n);
  }

  /** The largest global limit that scaling can produce. */
  const CUT := DivCeil(USIZE_MAX, 100)

  /** At full capacity the scaled limit is the limit, cut where scaling it saturates. */
  lemma FullCapacityLimit(limit: usize)
    requires 0 < limit
    ensures ScaledLimit(limit, 100) == Min(limit, CUT)
  {
  }

  /** The global check leaves room for what other classes reserved. */
  lemma GlobalCheckLeavesRoom(policy: Policy, s: State, request: WorkDescriptor)
    requires policy.Valid() && TotalReserved(policy) <= USIZE_MAX && Refusal(policy, s, request).None?
    ensures s.global.inFlight + UnusedElsewhere(policy, s, request.class_) < policy.global.maxInFlight
  {
    UnusedDoesNotWrap(policy, s, request.class_);
    ScaledWithinLimit(policy.global.maxInFlight, policy.load.CapacityPercent(s.loadState));
  }

  lemma AdmitKeepsReservations(policy: Policy, w: World, p: Permit)
    requires CountsExact(policy, w) && ReservationsHeld(policy, w.s)
    requires w.s.global.inFlight + UnusedElsewhere(policy, w.s, p.class_) < policy.global.maxInFlight
    ensures ReservationsHeld(policy, Admit(w.s, p))
  {
    var c := p.class_;
    ScopeWithinGlobal(w.permits, OfClass(c));
    assert UsageOf(w.s, OfClass(c)).inFlight == Total(w.permits, OfClass(c)).inFlight;
    assert UsageOf(w.s, Everything).inFlight == Total(w.permits, Everything).inFlight;
    AdmitUsesRoom(policy, w.s, p);
  }

  /** An admission takes one place, its own reserved one as long as there is one left. */
  lemma AdmitUsesRoom(policy: Policy, s: State, p: Permit)
    requires Get(s.classes, p.class_).inFlight <= s.global.inFlight < policy.global.maxInFlight
    ensures var next, c := Admit(s, p), p.class_;
            && next.global.inFlight == s.global.inFlight + 1
            && TotalUnused(policy, next) == UnusedElsewhere(policy, s, c) + SatSub(Unused(policy, s, c), 1)
            && TotalUnused(policy, s) == UnusedElsewhere(policy, s, c) + Unused(policy, s, c)
  {
    var next := Admit(s, p);
    UnusedSplit(policy, s, p.class_);
    UnusedSplit(policy, next, p.class_);
    OthersUnaffected(policy, s, next, p.class_);
  }

  lemma ReleaseKeepsReservations(policy: Policy, w: World, i: nat)
    requires CountsExact(policy, w) && ReservationsHeld(policy, w.s) && i < |w.permits|
    ensures ReservationsHeld(policy, Release(w.s, w.permits[i]))
  {
    var p := w.permits[i];
    var next := Release(w.s, p);
    UnusedSplit(policy, w.s, p.class_);
    UnusedSplit(policy, next, p.class_);
    OthersUnaffected(policy, w.s, next, p.class_);
    TotalWithout(w.permits, i, OfClass(p.class_));
    TotalWithout(w.permits, i, Everything);
    ReleaseEffect(w.s, p, OfClass(p.class_));
    ReleaseEffect(w.s, p, Everything);
    assert UsageOf(w.s, OfClass(p.class_)).inFlight == Total(w.permits, OfClass(p.class_)).inFlight;
    assert UsageOf(w.s, Everything).inFlight == Total(w.permits, Everything).inFlight;
  }

  /**
   * In every reachable state, across every load-state change, in-flight work plus unused
   * reservations never exceeds the global ceiling.
   */
  lemma {:induction false} ReservationsAreHeld(policy: Policy, ops: seq<Op>)
    requires policy.Valid() && TotalReserved(policy) <= USIZE_MAX
    ensures ReservationsHeld(policy, Run(policy, ops).s)
  {
    if ops == [] {
      ValidatedReservations(policy);
    } else {
      var before, op := Run(policy, ops[..|ops| - 1]), ops[|ops| - 1];
      ReservationsAreHeld(policy, ops[..|ops| - 1]);
      CountsAreConserved(policy, ops[..|ops| - 1]);
      match op
      case Request(request) =>
        if Refusal(policy, before.s, request).None? {
          GlobalCheckLeavesRoom(policy, before.s, request);
          AdmitKeepsReservations(policy, before, PermitFor(request));
        }
      case Drop(i) =>
        if i < |before.permits| {
          ReleaseKeepsReservations(policy, before, i);
        }
      case SetLoad(_) =>
    }
  }

  /** A policy that reserves more than exists does not hold it even before the first request. */
  lemma OverReservedFails(policy: Policy) returns (none: seq<Op>)
    requires TotalReserved(policy) > policy.global.maxInFlight
    ensures !ReservationsHeld(policy, Run(policy, none).s)
  {
    none := [];
    assert TotalUnused(policy, INITIAL) == TotalReserved(policy);
  }

  /** So reservations are held for good exactly under policies whose reservations really fit. */
  lemma ReservationsHeldIff(policy: Policy)
    requires policy.Valid()
    ensures (forall ops: seq<Op> :: ReservationsHeld(policy, Run(policy, ops).s))
            <==> TotalReserved(policy) <= USIZE_MAX
  {
    ValidatedReservations(policy);
    if TotalReserved(policy) <= USIZE_MAX {
      forall ops: seq<Op> ensures ReservationsHeld(policy, Run(policy, ops).s) {
        ReservationsAreHeld(policy, ops);
      }
    } else {
      var none := OverReservedFails(policy);
    }
  }

  /** Nothing stands in the way of work below its reservation: the ceiling is not cut, or not yet felt. */
  predicate CutNotFelt(policy: Policy, s: State, c: WorkClass) {
    policy.global.maxInFlight <= CUT || s.global.inFlight + UnusedByOthers(policy, s, c) < CUT
  }

  /** A state at full capacity in which `c` is below its reservation. */
  predicate BelowReservation(policy: Policy, s: State, c: WorkClass) {
    policy.load.CapacityPercent(s.loadState) == 100 && Get(s.classes, c).inFlight < policy.Reserved(c)
  }

  lemma ReservedPassesCounts(policy: Policy, s: State, c: WorkClass)
    requires policy.Valid() && TotalReserved(policy) <= USIZE_MAX
    requires ReservationsHeld(policy, s) && BelowReservation(policy, s, c)
    ensures Get(s.classes, c).inFlight < policy.classes.Of(c).budget.maxInFlight
    ensures s.global.inFlight < GlobalLimit(policy, s, c) <==> CutNotFelt(policy, s, c)
    ensures s.global.inFlight < policy.global.maxInFlight
  {
    UnusedSplit(policy, s, c);
    UnusedDoesNotWrap(policy, s, c);
    FullCapacityLimit(policy.global.maxInFlight);
  }

  /**
   * Reservation guarantee: at full capacity a class below its reservation passes the class in-flight
   * check, and the global one if and only if the ceiling is not cut by saturation. Then it can only
   * be refused for bytes, cost, tenant or resource limits.
   */
  lemma ReservedCapacityIsAvailable(policy: Policy, ops: seq<Op>, request: WorkDescriptor)
    requires policy.Valid() && TotalReserved(policy) <= USIZE_MAX
    requires BelowReservation(policy, Run(policy, ops).s, request.class_)
    ensures var s, p := Run(policy, ops).s, PermitFor(request);
            && Get(s.classes, p.class_).inFlight < policy.classes.Of(p.class_).budget.maxInFlight
            && (s.global.inFlight < GlobalLimit(policy, s, p.class_) <==> CutNotFelt(policy, s, p.class_))
            && (CutNotFelt(policy, s, p.class_) ==>
                  Refusal(policy, s, request) == Some(ServerBusy(policy.retryAfterMs)) ==>
                    !AmountsFit(s.global, policy.global, p.bytes, p.cost))
            && (Refusal(policy, s, request) == Some(ResourceBudgetExceeded(policy.retryAfterMs)) ==>
                  || !AmountsFit(Get(s.classes, p.class_), policy.classes.Of(p.class_).budget, p.bytes, p.cost)
                  || exists d :: d in request.resources && !ResourceFits(policy, s, d, p.bytes, p.cost))
  {
    ReservationsAreHeld(policy, ops);
    ReservedPassesCounts(policy, Run(policy, ops).s, request.class_);
    PermitDomains(request);
  }

  /** A global ceiling too large to scale is cut: beyond that point everything is refused. */
  lemma OversizedCeilingIsCut(policy: Policy, s: State, request: WorkDescriptor)
    requires policy.Valid() && s.global.inFlight >= CUT
    ensures Refusal(policy, s, request).Some?
  {
    var percent := policy.load.CapacityPercent(s.loadState);
    assert SatMul(policy.global.maxInFlight, percent, USIZE_MAX) <= USIZE_MAX;
  }
}
