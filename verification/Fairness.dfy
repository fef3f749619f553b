/**
 * The fair queue of the admission layer (`crates/aequora-admission/src/fairness.rs`) as a value:
 * how one enqueue and one dequeue choose a class and a tenant and change the state.
 */
module Fairness {
  import opened Base
  import opened Work

  datatype FairQueueConfig = FairQueueConfig(
    maxQueued: usize, maxQueuedPerTenant: usize, maxQueuedBytes: u64,
    capacity: PerClass<usize>, weight: PerClass<byte>, agingQuantumMs: u64)
  {
    predicate Valid() {
      var total :=
        SatAdd(SatAdd(SatAdd(SatAdd(SatAdd(capacity.critical, capacity.interactive, USIZE_MAX),
                                    capacity.normal, USIZE_MAX),
                             capacity.bulk, USIZE_MAX),
                      capacity.background, USIZE_MAX),
               capacity.maintenance, USIZE_MAX);
      && maxQueued != 0
      && maxQueuedPerTenant != 0
      && maxQueuedPerTenant <= maxQueued
      && maxQueuedBytes != 0
      && total >= maxQueued
      && (forall c :: capacity.Of(c) != 0)
      && (forall c :: weight.Of(c) != 0)
      && agingQuantumMs != 0
    }
  }

  datatype QueuedWork<T> = QueuedWork(
    descriptor: WorkDescriptor, value: T, enqueuedAtMs: u64, tenantWeight: u16)
  {
    function Tenant(): TenantId {
      descriptor.tenantId
    }
  }

  datatype QueueRejection = GlobalFull | ClassFull | TenantFull

  /** The fields of the queue, as a value. */
  datatype State<T> = State(
    config: FairQueueConfig,
    queues: map<WorkClass, seq<QueuedWork<T>>>,
    tenantDepths: map<TenantId, nat>,
    schedule: seq<WorkClass>,
    cursor: nat,
    tenantRun: map<WorkClass, (TenantId, u16)>,
    len: nat,
    bytes: nat)
  {
    function Queue(c: WorkClass): seq<QueuedWork<T>> {
      if c in queues then queues[c] else []
    }
  }

  function Repeat(c: WorkClass, n: nat): (r: seq<WorkClass>) {
    seq(n, _ => c)
  }

  function BuildSchedule(config: FairQueueConfig, classes: seq<WorkClass>): seq<WorkClass> {
    if classes == [] then []
    else BuildSchedule(config, classes[..|classes| - 1])
         + Repeat(classes[|classes| - 1], config.weight.Of(classes[|classes| - 1]))
  }

  function Empty<T>(config: FairQueueConfig): State<T> {
    State(config, map c: WorkClass | c in CLASSES :: [], map[], BuildSchedule(config, CLASSES), 0, map[], 0, 0)
  }

  function RunLength(runs: map<WorkClass, (TenantId, u16)>, c: WorkClass, t: TenantId): u16 {
    if c in runs && runs[c].0 == t then runs[c].1 else 0
  }

  // ---------------------------------------------------------------------------------------------
  // Enqueue
  // ---------------------------------------------------------------------------------------------

  function Refusal<T>(q: State<T>, d: WorkDescriptor): Option<QueueRejection> {
    if q.len >= q.config.maxQueued
       || SatAdd(q.bytes, d.EstimatedBytes(), U64_MAX) > q.config.maxQueuedBytes then Some(GlobalFull)
    else if |q.Queue(d.class_)| >= q.config.capacity.Of(d.class_) then Some(ClassFull)
    else if (if d.tenantId in q.tenantDepths then q.tenantDepths[d.tenantId] else 0)
            >= q.config.maxQueuedPerTenant then Some(TenantFull)
    else None
  }

  function Accept<T>(q: State<T>, item: QueuedWork<T>): State<T> {
    var d := item.descriptor;
    var depth := if d.tenantId in q.tenantDepths then q.tenantDepths[d.tenantId] else 0;
    q.(queues := if d.class_ in q.queues then q.queues[d.class_ := q.queues[d.class_] + [item]] else q.queues,
       tenantDepths := q.tenantDepths[d.tenantId := depth + 1],
       len := q.len + 1,
       bytes := SatAdd(q.bytes, d.EstimatedBytes(), U64_MAX))
  }

  // ---------------------------------------------------------------------------------------------
  // Dequeue
  // ---------------------------------------------------------------------------------------------

  function Age<T>(q: State<T>, c: WorkClass, nowMs: u64): nat
    requires |q.Queue(c)| > 0
  {
    SatSub(nowMs, q.Queue(c)[0].enqueuedAtMs)
  }

  function StarvationAge(config: FairQueueConfig): nat {
    SatMul(config.agingQuantumMs, 6, U64_MAX)
  }

  /** The head of `c` has waited long enough to bypass the schedule. */
  predicate Starving<T>(q: State<T>, c: WorkClass, nowMs: u64) {
    |q.Queue(c)| > 0 && Age(q, c, nowMs) >= StarvationAge(q.config)
  }

  /** `a` wins over `b`: an older head, then the lower rank. */
  predicate Older<T>(q: State<T>, a: WorkClass, b: WorkClass, nowMs: u64)
    requires |q.Queue(a)| > 0 && |q.Queue(b)| > 0
  {
    || Age(q, a, nowMs) > Age(q, b, nowMs)
    || (Age(q, a, nowMs) == Age(q, b, nowMs) && a.Rank() <= b.Rank())
  }

  function OldestOf<T>(q: State<T>, classes: seq<WorkClass>, nowMs: u64): (r: Option<WorkClass>)
    ensures r.Some? ==> Starving(q, r.value, nowMs)
  {
    if classes == [] then None
    else
      var c := classes[|classes| - 1];
      var best := OldestOf(q, classes[..|classes| - 1], nowMs);
      if !Starving(q, c, nowMs) then best
      else if best.None? || Older(q, c, best.value, nowMs) then Some(c)
      else best
  }

  function AgedClass<T>(q: State<T>, nowMs: u64): (r: Option<WorkClass>)
    ensures r.Some? ==> Starving(q, r.value, nowMs)
  {
    OldestOf(q, CLASSES, nowMs)
  }

  lemma {:induction false} OldestOfIsBest<T>(q: State<T>, classes: seq<WorkClass>, nowMs: u64, c: WorkClass)
    requires c in classes && Starving(q, c, nowMs)
    ensures var r := OldestOf(q, classes, nowMs);
            r.Some? && Older(q, r.value, c, nowMs)
  {
    var n := |classes| - 1;
    if c in classes[..n] {
      OldestOfIsBest(q, classes[..n], nowMs, c);
    } else {
      assert classes[n] == c;
    }
  }

  /** Aging picks a starving class whenever there is one, and none is older or as old with a lower rank. */
  lemma AgedClassIsBest<T>(q: State<T>, nowMs: u64, c: WorkClass)
    requires Starving(q, c, nowMs)
    ensures AgedClass(q, nowMs).Some? && Older(q, AgedClass(q, nowMs).value, c, nowMs)
  {
    EveryClassListed(c);
    OldestOfIsBest(q, CLASSES, nowMs, c);
  }

  /** The slot after `cursor`, going round. */
  function Following(cursor: nat, n: nat): nat
    requires cursor < n
  {
    if cursor + 1 == n then 0 else cursor + 1
  }

  lemma FollowingIsModulo(cursor: nat, n: nat)
    requires cursor < n
    ensures (cursor + 1) % n == Following(cursor, n)
  {
    if cursor + 1 < n {
      assert cursor + 1 == 0 * n + (cursor + 1);
    }
  }

  /** At most `n` steps of the schedule from `cursor`: where it stops and the class it finds. */
  function Scan<T>(q: State<T>, cursor: nat, n: nat): (r: (nat, Option<WorkClass>))
    requires cursor < |q.schedule|
    ensures r.0 < |q.schedule|
    ensures r.1.Some? ==> |q.Queue(r.1.value)| > 0
    decreases n
  {
    if n == 0 then (cursor, None)
    else
      var next := Following(cursor, |q.schedule|);
      if |q.Queue(q.schedule[cursor])| > 0 then (next, Some(q.schedule[cursor]))
      else Scan(q, next, n - 1)
  }

  function Select<T>(q: State<T>, nowMs: u64): (r: (nat, Option<WorkClass>))
    requires q.cursor < |q.schedule|
    ensures r.0 < |q.schedule|
    ensures r.1.Some? ==> |q.Queue(r.1.value)| > 0
  {
    match AgedClass(q, nowMs)
    case Some(c) => (q.cursor, Some(c))
    case None => Scan(q, q.cursor, |q.schedule|)
  }

  /** Position of the first item of another tenant. */
  function FirstOther<T>(items: seq<QueuedWork<T>>, tenant: TenantId): (r: Option<nat>)
    ensures r.Some? ==> r.value < |items| && items[r.value].Tenant() != tenant
  {
    if items == [] then None
    else if items[0].Tenant() != tenant then Some(0)
    else match FirstOther(items[1..], tenant)
      case None => None
      case Some(k) => Some(k + 1)
  }

  lemma {:induction false} FirstOtherIsFirst<T>(items: seq<QueuedWork<T>>, tenant: TenantId, j: nat)
    requires j < |items| && items[j].Tenant() != tenant
    ensures FirstOther(items, tenant).Some? && FirstOther(items, tenant).value <= j
  {
    if items[0].Tenant() == tenant {
      FirstOtherIsFirst(items[1..], tenant, j - 1);
    }
  }

  /** The tenant at the front of `c` may be served: it has not used up its run. */
  predicate FrontFree<T>(q: State<T>, c: WorkClass)
    requires |q.Queue(c)| > 0
  {
    var front := q.Queue(c)[0];
    c !in q.tenantRun || front.Tenant() != q.tenantRun[c].0 || q.tenantRun[c].1 < front.tenantWeight
  }

  function TenantFairIndex<T>(q: State<T>, c: WorkClass): (k: nat)
    ensures |q.Queue(c)| > 0 ==> k < |q.Queue(c)|
  {
    if |q.Queue(c)| == 0 || FrontFree(q, c) then 0
    else match FirstOther(q.Queue(c), q.tenantRun[c].0)
      case None => 0
      case Some(k) => k
  }

  /** Skipping happens only past the tenant that used up its run, to the first item of another. */
  lemma SkipsOneTenant<T>(q: State<T>, c: WorkClass, j: nat)
    requires |q.Queue(c)| > 0 && j < TenantFairIndex(q, c)
    ensures !FrontFree(q, c)
    ensures var k := TenantFairIndex(q, c);
            && q.Queue(c)[j].Tenant() == q.Queue(c)[0].Tenant()
            && q.Queue(c)[j].Tenant() != q.Queue(c)[k].Tenant()
  {
    var tenant := q.tenantRun[c].0;
    if q.Queue(c)[j].Tenant() != tenant {
      FirstOtherIsFirst(q.Queue(c), tenant, j);
    }
  }

  function Removed<T>(q: State<T>, c: WorkClass, k: nat): State<T>
    requires c in q.queues && k < |q.queues[c]|
  {
    q.(queues := q.queues[c := Without(q.queues[c], k)])
  }

  function Record<T>(q: State<T>, c: WorkClass, item: QueuedWork<T>): State<T> {
    var t := item.Tenant();
    var depth := if t in q.tenantDepths then SatSub(q.tenantDepths[t], 1) else 0;
    q.(tenantRun := q.tenantRun[c := (t, SatAdd(RunLength(q.tenantRun, c, t), 1, U16_MAX))],
       tenantDepths := if depth == 0 then q.tenantDepths - {t} else q.tenantDepths[t := depth],
       len := SatSub(q.len, 1),
       bytes := SatSub(q.bytes, item.descriptor.EstimatedBytes()))
  }

  function Dequeue<T>(q: State<T>, nowMs: u64): (State<T>, Option<QueuedWork<T>>)
    requires q.cursor < |q.schedule|
  {
    var (cursor, class_) := Select(q, nowMs);
    match class_
    case None => (q.(cursor := cursor), None)
    case Some(c) =>
      var k := TenantFairIndex(q, c);
      var item := q.Queue(c)[k];
      (Record(Removed(q.(cursor := cursor), c, k), c, item), Some(item))
  }
}
