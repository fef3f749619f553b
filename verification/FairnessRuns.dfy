/**
 * What the fair queue guarantees over every interleaving of enqueues and dequeues
 * (`crates/aequora-admission/src/fairness.rs`).
 */
module FairnessRuns {
  import opened Base
  import opened Work
  import opened Fairness

  datatype Op<T> =
    | Enq(descriptor: WorkDescriptor, value: T, atMs: u64, weight: u16)
    | Deq(nowMs: u64)
  {
    function Item(): QueuedWork<T>
      requires Enq?
    {
      QueuedWork(descriptor, value, atMs, Max(weight, 1))
    }
  }

  predicate Ready<T>(q: State<T>) {
    q.cursor < |q.schedule|
  }

  function Step<T>(q: State<T>, op: Op<T>): (r: State<T>)
    requires Ready(q)
    ensures Ready(r) && r.schedule == q.schedule && r.config == q.config
  {
    match op
    case Enq(d, _, _, _) => if Refusal(q, d).Some? then q else Accept(q, op.Item())
    case Deq(nowMs) => Dequeue(q, nowMs).0
  }

  function After<T>(q: State<T>, ops: seq<Op<T>>): (r: State<T>)
    requires Ready(q)
    ensures Ready(r)
    decreases |ops|
  {
    if ops == [] then q else After(Step(q, ops[0]), ops[1..])
  }

  /** What one operation returns, admits and selects: nothing or one thing each. */
  function Returned<T>(q: State<T>, op: Op<T>): seq<QueuedWork<T>>
    requires Ready(q)
  {
    if op.Deq? && Dequeue(q, op.nowMs).1.Some? then [Dequeue(q, op.nowMs).1.value] else []
  }

  function Admitted<T>(q: State<T>, op: Op<T>): seq<QueuedWork<T>> {
    if op.Enq? && Refusal(q, op.descriptor).None? then [op.Item()] else []
  }

  function Selected<T>(q: State<T>, op: Op<T>): seq<WorkClass>
    requires Ready(q)
  {
    if op.Deq? && Select(q, op.nowMs).1.Some? then [Select(q, op.nowMs).1.value] else []
  }

  /** The items that the dequeues of a run return, in order. */
  function Outputs<T>(q: State<T>, ops: seq<Op<T>>): seq<QueuedWork<T>>
    requires Ready(q)
    decreases |ops|
  {
    if ops == [] then [] else Returned(q, ops[0]) + Outputs(Step(q, ops[0]), ops[1..])
  }

  /** The items that the enqueues of a run admit, in order. */
  function Accepted<T>(q: State<T>, ops: seq<Op<T>>): seq<QueuedWork<T>>
    requires Ready(q)
    decreases |ops|
  {
    if ops == [] then [] else Admitted(q, ops[0]) + Accepted(Step(q, ops[0]), ops[1..])
  }

  /** The classes that the dequeues of a run select, in order. */
  function Served<T>(q: State<T>, ops: seq<Op<T>>): seq<WorkClass>
    requires Ready(q)
    decreases |ops|
  {
    if ops == [] then [] else Selected(q, ops[0]) + Served(Step(q, ops[0]), ops[1..])
  }

  // ---------------------------------------------------------------------------------------------
  // Bookkeeping invariant
  // ---------------------------------------------------------------------------------------------

  function CountTenant<T>(items: seq<QueuedWork<T>>, t: TenantId): nat {
    if items == [] then 0 else (if items[0].Tenant() == t then 1 else 0) + CountTenant(items[1..], t)
  }

  function BytesOf<T>(items: seq<QueuedWork<T>>): nat {
    if items == [] then 0 else items[0].descriptor.EstimatedBytes() + BytesOf(items[1..])
  }

  function Depth<T>(q: State<T>, t: TenantId): nat {
    if t in q.tenantDepths then q.tenantDepths[t] else 0
  }

  function TotalLen<T>(q: State<T>): nat {
    Across(c => |q.Queue(c)|)
  }

  function TotalDepth<T>(q: State<T>, t: TenantId): nat {
    Across(c => CountTenant(q.Queue(c), t))
  }

  function TotalBytes<T>(q: State<T>): nat {
    Across(c => BytesOf(q.Queue(c)))
  }

  ghost predicate WellFormed<T>(q: State<T>) {
    && Ready(q)
    && (forall c :: c in q.queues)
    && (forall c, i :: 0 <= i < |q.Queue(c)| ==>
                         q.Queue(c)[i].descriptor.class_ == c && q.Queue(c)[i].tenantWeight >= 1)
    && (forall c :: |q.Queue(c)| <= q.config.capacity.Of(c))
  }

  /** The configuration passed validation and the schedule is the one built from it. */
  ghost predicate Scheduled<T>(q: State<T>) {
    q.config.Valid() && q.schedule == BuildSchedule(q.config, CLASSES) && Ready(q)
  }

  ghost predicate DepthsExact<T>(q: State<T>) {
    && (forall t :: t in q.tenantDepths ==> q.tenantDepths[t] > 0)
    && (forall t :: Depth(q, t) == TotalDepth(q, t) <= q.config.maxQueuedPerTenant)
  }

  /** Every counter agrees with the queues it summarises, and every configured bound holds. */
  ghost predicate Consistent<T>(q: State<T>) {
    WellFormed(q) && q.len == TotalLen(q) <= q.config.maxQueued && DepthsExact(q)
  }

  /** The byte counter is the exact total of what is queued. */
  ghost predicate BytesExact<T>(q: State<T>) {
    q.bytes == TotalBytes(q) <= q.config.maxQueuedBytes
  }

  /** A change to one class changes each total by the change in that class. */
  lemma TotalsUpdate<T>(q: State<T>, next: State<T>, c: WorkClass, t: TenantId)
    requires forall d :: d != c ==> next.Queue(d) == q.Queue(d)
    ensures TotalLen(next) + |q.Queue(c)| == TotalLen(q) + |next.Queue(c)|
    ensures TotalDepth(next, t) + CountTenant(q.Queue(c), t) == TotalDepth(q, t) + CountTenant(next.Queue(c), t)
    ensures TotalBytes(next) + BytesOf(q.Queue(c)) == TotalBytes(q) + BytesOf(next.Queue(c))
  {
    AcrossUpdate(c => CountTenant(q.Queue(c), t), c => CountTenant(next.Queue(c), t), c);
    AcrossUpdate(c => BytesOf(q.Queue(c)), c => BytesOf(next.Queue(c)), c);
    AcrossUpdate(c => |q.Queue(c)|, c => |next.Queue(c)|, c);
  }

  lemma {:induction false} CountSplit<T>(a: seq<QueuedWork<T>>, b: seq<QueuedWork<T>>, t: TenantId)
    ensures CountTenant(a + b, t) == CountTenant(a, t) + CountTenant(b, t)
    ensures BytesOf(a + b) == BytesOf(a) + BytesOf(b)
  {
    if a == [] {
      assert a + b == b;
    } else {
      assert (a + b)[1..] == a[1..] + b;
      CountSplit(a[1..], b, t);
    }
  }

  lemma CountWithout<T>(items: seq<QueuedWork<T>>, k: nat, t: TenantId)
    requires k < |items|
    ensures CountTenant(items, t) == CountTenant(Without(items, k), t) + (if items[k].Tenant() == t then 1 else 0)
    ensures BytesOf(items) == BytesOf(Without(items, k)) + items[k].descriptor.EstimatedBytes()
  {
    assert items == items[..k] + ([items[k]] + items[k + 1..]);
    assert ([items[k]] + items[k + 1..])[1..] == items[k + 1..];
    CountSplit(items[..k], [items[k]] + items[k + 1..], t);
    CountSplit(items[..k], items[k + 1..], t);
  }

  /** What one dequeue does to the queue of `c`. */
  lemma DequeueEffect<T>(q: State<T>, nowMs: u64, c: WorkClass)
    requires Ready(q)
    ensures var next := Dequeue(q, nowMs).0;
            if Select(q, nowMs).1 == Some(c) then
              && var k := TenantFairIndex(q, c);
              && next.Queue(c) == Without(q.Queue(c), k)
              && Dequeue(q, nowMs).1 == Some(q.Queue(c)[k])
              && c in next.tenantRun && next.tenantRun[c].0 == q.Queue(c)[k].Tenant()
            else
              && next.Queue(c) == q.Queue(c)
              && (c in next.tenantRun <==> c in q.tenantRun)
              && (c in q.tenantRun ==> next.tenantRun[c] == q.tenantRun[c])
  {
  }

  lemma AcceptTotals<T>(q: State<T>, op: Op<T>, t: TenantId)
    requires WellFormed(q) && op.Enq?
    ensures var next := Accept(q, op.Item());
            && TotalLen(next) == TotalLen(q) + 1
            && TotalDepth(next, t) == TotalDepth(q, t) + (if t == op.descriptor.tenantId then 1 else 0)
            && TotalBytes(next) == TotalBytes(q) + op.descriptor.EstimatedBytes()
  {
    var next := Accept(q, op.Item());
    var c := op.descriptor.class_;
    CountSplit(q.Queue(c), [op.Item()], t);
    TotalsUpdate(q, next, c, t);
  }

  lemma AcceptKeepsWellFormed<T>(q: State<T>, op: Op<T>)
    requires WellFormed(q) && op.Enq? && Refusal(q, op.descriptor).None?
    ensures WellFormed(Accept(q, op.Item()))
  {
    var next := Accept(q, op.Item());
    forall c, i | 0 <= i < |next.Queue(c)|
      ensures next.Queue(c)[i].descriptor.class_ == c && next.Queue(c)[i].tenantWeight >= 1
    {
      if i < |q.Queue(c)| {
        assert next.Queue(c)[i] == q.Queue(c)[i];
      }
    }
  }

  lemma AcceptKeepsDepths<T>(q: State<T>, op: Op<T>)
    requires WellFormed(q) && DepthsExact(q) && op.Enq? && Refusal(q, op.descriptor).None?
    ensures DepthsExact(Accept(q, op.Item()))
  {
    var next := Accept(q, op.Item());
    forall t ensures Depth(next, t) == TotalDepth(next, t) <= next.config.maxQueuedPerTenant {
      AcceptTotals(q, op, t);
    }
  }

  lemma AcceptKeepsConsistent<T>(q: State<T>, op: Op<T>)
    requires Consistent(q) && op.Enq? && Refusal(q, op.descriptor).None?
    ensures Consistent(Accept(q, op.Item()))
  {
    AcceptKeepsWellFormed(q, op);
    AcceptKeepsDepths(q, op);
    AcceptTotals(q, op, 0);
  }

  lemma AcceptKeepsBytes<T>(q: State<T>, op: Op<T>)
    requires WellFormed(q) && BytesExact(q) && op.Enq? && Refusal(q, op.descriptor).None?
    ensures BytesExact(Accept(q, op.Item())) <==> q.bytes + op.descriptor.EstimatedBytes() <= U64_MAX
  {
    AcceptTotals(q, op, 0);
  }

  /** An item is refused exactly when admitting it would break a configured bound. */
  lemma RefusedOnlyWhenFull<T>(q: State<T>, op: Op<T>)
    requires Consistent(q) && BytesExact(q) && op.Enq? && q.config.maxQueuedBytes < U64_MAX
    ensures Refusal(q, op.descriptor).None?
            <==> Consistent(Accept(q, op.Item())) && TotalBytes(Accept(q, op.Item())) <= q.config.maxQueuedBytes
  {
    var next := Accept(q, op.Item());
    AcceptTotals(q, op, op.descriptor.tenantId);
    if Refusal(q, op.descriptor).None? {
      AcceptKeepsConsistent(q, op);
    } else if Consistent(next) {
      assert Depth(next, op.descriptor.tenantId) <= q.config.maxQueuedPerTenant;
      assert |next.Queue(op.descriptor.class_)| <= q.config.capacity.Of(op.descriptor.class_);
    }
  }

  lemma DequeueTotals<T>(q: State<T>, nowMs: u64, t: TenantId)
    requires WellFormed(q) && Select(q, nowMs).1.Some?
    ensures var (next, out) := Dequeue(q, nowMs);
            && TotalLen(q) == TotalLen(next) + 1
            && TotalDepth(q, t) == TotalDepth(next, t) + (if t == out.value.Tenant() then 1 else 0)
            && TotalBytes(q) == TotalBytes(next) + out.value.descriptor.EstimatedBytes()
  {
    var next := Dequeue(q, nowMs).0;
    var c := Select(q, nowMs).1.value;
    forall d ensures d != c ==> next.Queue(d) == q.Queue(d) {
      DequeueEffect(q, nowMs, d);
    }
    DequeueEffect(q, nowMs, c);
    CountWithout(q.Queue(c), TenantFairIndex(q, c), t);
    TotalsUpdate(q, next, c, t);
  }

  lemma DequeueKeepsWellFormed<T>(q: State<T>, nowMs: u64)
    requires WellFormed(q)
    ensures WellFormed(Dequeue(q, nowMs).0)
  {
    var next := Dequeue(q, nowMs).0;
    forall c
      ensures |next.Queue(c)| <= |q.Queue(c)|
      ensures forall i :: 0 <= i < |next.Queue(c)| ==> next.Queue(c)[i] in q.Queue(c)
    {
      DequeueEffect(q, nowMs, c);
    }
  }

  lemma RecordedDepth<T>(q: State<T>, nowMs: u64, t: TenantId)
    requires Ready(q) && Select(q, nowMs).1.Some?
    ensures var (next, out) := Dequeue(q, nowMs);
            && Depth(next, t) == (if t == out.value.Tenant() then SatSub(Depth(q, t), 1) else Depth(q, t))
            && (t in next.tenantDepths ==> t in q.tenantDepths)
            && (t in next.tenantDepths && q.tenantDepths[t] > 0 ==> next.tenantDepths[t] > 0)
  {
  }

  lemma DequeueDepth<T>(q: State<T>, nowMs: u64, t: TenantId)
    requires WellFormed(q) && Select(q, nowMs).1.Some?
    requires Depth(q, t) == TotalDepth(q, t)
    ensures var next := Dequeue(q, nowMs).0;
            && Depth(next, t) == TotalDepth(next, t) <= Depth(q, t)
            && (t in next.tenantDepths ==> t in q.tenantDepths)
            && (t in next.tenantDepths && q.tenantDepths[t] > 0 ==> next.tenantDepths[t] > 0)
  {
    RecordedDepth(q, nowMs, t);
    DequeueTotals(q, nowMs, t);
  }

  lemma DequeueKeepsDepths<T>(q: State<T>, nowMs: u64)
    requires WellFormed(q) && DepthsExact(q) && Select(q, nowMs).1.Some?
    ensures DepthsExact(Dequeue(q, nowMs).0)
  {
    forall t
      ensures var next := Dequeue(q, nowMs).0;
              && Depth(next, t) == TotalDepth(next, t) <= next.config.maxQueuedPerTenant
              && (t in next.tenantDepths ==> next.tenantDepths[t] > 0)
    {
      DequeueDepth(q, nowMs, t);
    }
  }

  /** An unsuccessful dequeue moves at most the cursor. */
  lemma IdleDequeue<T>(q: State<T>, nowMs: u64)
    requires Consistent(q) && Select(q, nowMs).1.None?
    ensures Consistent(Dequeue(q, nowMs).0)
    ensures TotalBytes(Dequeue(q, nowMs).0) == TotalBytes(q)
  {
    var next := Dequeue(q, nowMs).0;
    forall t ensures TotalDepth(next, t) == TotalDepth(q, t) && Depth(next, t) == Depth(q, t) {
      TotalsUpdate(q, next, Critical, t);
    }
    TotalsUpdate(q, next, Critical, 0);
  }

  lemma DequeueKeepsConsistent<T>(q: State<T>, nowMs: u64)
    requires Consistent(q)
    ensures Consistent(Dequeue(q, nowMs).0)
    ensures BytesExact(q) ==> BytesExact(Dequeue(q, nowMs).0)
  {
    if Select(q, nowMs).1.Some? {
      DequeueKeepsWellFormed(q, nowMs);
      DequeueKeepsDepths(q, nowMs);
      DequeueTotals(q, nowMs, 0);
    } else {
      IdleDequeue(q, nowMs);
    }
  }
}
