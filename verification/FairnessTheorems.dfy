/**
 * The guarantees of the fair queue, for every run from the empty queue or from any consistent
 * state (`crates/aequora-admission/src/fairness.rs`).
 */
module FairnessTheorems {
  import opened Base
  import opened Work
  import opened Fairness
  import opened FairnessRuns

  // ---------------------------------------------------------------------------------------------
  // Exact bookkeeping in every reachable state
  // ---------------------------------------------------------------------------------------------

  lemma StepKeepsConsistent<T>(q: State<T>, op: Op<T>)
    requires Consistent(q)
    ensures Consistent(Step(q, op))
  {
    if op.Deq? {
      DequeueKeepsConsistent(q, op.nowMs);
    } else if Refusal(q, op.descriptor).None? {
      AcceptKeepsConsistent(q, op);
    }
  }

  lemma StepKeepsBytes<T>(q: State<T>, op: Op<T>)
    requires Consistent(q) && BytesExact(q) && q.config.maxQueuedBytes < U64_MAX
    ensures BytesExact(Step(q, op))
  {
    if op.Deq? {
      DequeueKeepsConsistent(q, op.nowMs);
    } else if Refusal(q, op.descriptor).None? {
      AcceptKeepsBytes(q, op);
    }
  }

  lemma {:induction false} RunKeepsConsistent<T>(q: State<T>, ops: seq<Op<T>>)
    requires Consistent(q)
    ensures Consistent(After(q, ops)) && After(q, ops).config == q.config && After(q, ops).schedule == q.schedule
    ensures BytesExact(q) && q.config.maxQueuedBytes < U64_MAX ==> BytesExact(After(q, ops))
    decreases |ops|
  {
    if ops == [] {
    } else {
      StepKeepsConsistent(q, ops[0]);
      if BytesExact(q) && q.config.maxQueuedBytes < U64_MAX {
        StepKeepsBytes(q, ops[0]);
      }
      RunKeepsConsistent(Step(q, ops[0]), ops[1..]);
    }
  }

  lemma {:induction false} RepeatCount(c: WorkClass, n: nat, d: WorkClass)
    ensures multiset(Repeat(c, n))[d] == if c == d then n else 0
  {
    if n == 0 {
    } else {
      RepeatCount(c, n - 1, d);
      assert Repeat(c, n) == Repeat(c, n - 1) + [c];
    }
  }

  /** Each class owns exactly its weight in slots of the schedule. */
  lemma {:induction false} ScheduleCounts(config: FairQueueConfig, classes: seq<WorkClass>, c: WorkClass)
    requires forall i, j :: 0 <= i < j < |classes| ==> classes[i] != classes[j]
    ensures multiset(BuildSchedule(config, classes))[c] == if c in classes then config.weight.Of(c) else 0
  {
    if classes == [] {
    } else {
      var n := |classes| - 1;
      ScheduleCounts(config, classes[..n], c);
      RepeatCount(classes[n], config.weight.Of(classes[n]), c);
      assert classes == classes[..n] + [classes[n]];
    }
  }

  lemma ScheduleWeights(config: FairQueueConfig, c: WorkClass)
    ensures multiset(BuildSchedule(config, CLASSES))[c] == config.weight.Of(c)
  {
    ScheduleCounts(config, CLASSES, c);
    EveryClassListed(c);
  }

  lemma ScheduleIsNonEmpty(config: FairQueueConfig)
    requires config.Valid()
    ensures BuildSchedule(config, CLASSES) != []
  {
    ScheduleWeights(config, Critical);
    assert config.weight.Of(Critical) != 0;
  }

  lemma EmptyQueue<T>(config: FairQueueConfig, c: WorkClass)
    ensures c in Empty<T>(config).queues && Empty<T>(config).Queue(c) == []
  {
    EveryClassListed(c);
  }

  lemma EmptyIsConsistent<T>(config: FairQueueConfig)
    requires config.Valid()
    ensures Consistent(Empty<T>(config)) && BytesExact(Empty<T>(config))
  {
    var start := Empty<T>(config);
    ScheduleIsNonEmpty(config);
    forall c ensures c in start.queues && start.Queue(c) == [] {
      EmptyQueue<T>(config, c);
    }
    assert WellFormed(start);
  }

  /** In every state reachable from the empty queue all counters are exact and all bounds hold. */
  lemma ReachableStatesAreConsistent<T>(config: FairQueueConfig, ops: seq<Op<T>>)
    requires config.Valid()
    ensures Ready(Empty<T>(config))
    ensures var q := After(Empty<T>(config), ops);
            && Consistent(q)
            && Scheduled(q)
            && (config.maxQueuedBytes < U64_MAX ==> BytesExact(q))
  {
    EmptyIsConsistent<T>(config);
    RunKeepsConsistent(Empty<T>(config), ops);
  }

  lemma FirstIsAccepted<T>(config: FairQueueConfig, op: Op<T>)
    requires config.Valid() && op.Enq? && op.descriptor.EstimatedBytes() <= config.maxQueuedBytes
    ensures Refusal(Empty<T>(config), op.descriptor).None?
    ensures Ready(Empty<T>(config))
    ensures var q := Step(Empty<T>(config), op);
            && Consistent(q) && q.config == config
            && q.bytes == op.descriptor.EstimatedBytes() && BytesExact(q)
            && q.len == 1 && |q.Queue(op.descriptor.class_)| == 1 && Depth(q, op.descriptor.tenantId) == 1
  {
    EmptyIsConsistent<T>(config);
    EmptyQueue<T>(config, op.descriptor.class_);
    assert config.capacity.Of(op.descriptor.class_) != 0;
    AcceptKeepsConsistent(Empty<T>(config), op);
    AcceptKeepsBytes(Empty<T>(config), op);
  }

  lemma SecondOverflows<T>(q: State<T>, op: Op<T>)
    requires Consistent(q) && BytesExact(q) && op.Enq?
    requires q.config.maxQueuedBytes == U64_MAX && q.config.maxQueuedPerTenant >= 2 && q.config.maxQueued >= 2
    requires q.config.capacity.Of(op.descriptor.class_) >= 2
    requires q.len == 1 && |q.Queue(op.descriptor.class_)| == 1 && Depth(q, op.descriptor.tenantId) == 1
    requires q.bytes + op.descriptor.EstimatedBytes() > U64_MAX
    ensures !BytesExact(Step(q, op))
  {
    assert Refusal(q, op.descriptor).None?;
    AcceptKeepsBytes(q, op);
  }

  /**
   * The byte ceiling must be below the integer maximum: under a ceiling of 2^64 - 1, two items
   * that together exceed it are both admitted and the counter no longer tells what is queued.
   */
  lemma ByteCounterSaturates<T>(config: FairQueueConfig, op: Op<T>)
    requires config.Valid() && config.maxQueuedBytes == U64_MAX && config.maxQueuedPerTenant >= 2
    requires op.Enq? && config.capacity.Of(op.descriptor.class_) >= 2
    requires 2 * op.descriptor.EstimatedBytes() > U64_MAX
    ensures Ready(Empty<T>(config))
    ensures !BytesExact(Step(Step(Empty<T>(config), op), op))
  {
    FirstIsAccepted(config, op);
    SecondOverflows(Step(Empty<T>(config), op), op);
  }

  // ---------------------------------------------------------------------------------------------
  // Work conservation: a dequeue succeeds exactly when something is queued
  // ---------------------------------------------------------------------------------------------

  /** How many steps of the schedule lead from `cursor` to slot `i`. */
  function Offset(i: nat, cursor: nat, n: nat): nat
    requires i < n && cursor < n
  {
    if i >= cursor then i - cursor else i + n - cursor
  }

  lemma {:induction false} ScanMisses<T>(q: State<T>, cursor: nat, n: nat, i: nat)
    requires cursor < |q.schedule| && i < |q.schedule|
    requires Scan(q, cursor, n).1.None? && Offset(i, cursor, |q.schedule|) < n
    ensures q.Queue(q.schedule[i]) == []
    decreases n
  {
    if i != cursor {
      ScanMisses(q, Following(cursor, |q.schedule|), n - 1, i);
    }
  }

  lemma IdleMeansEmpty<T>(q: State<T>, nowMs: u64, c: WorkClass)
    requires Scheduled(q) && Select(q, nowMs).1.None?
    ensures q.Queue(c) == []
  {
    ScheduleWeights(q.config, c);
    assert q.config.weight.Of(c) != 0;
    assert c in multiset(q.schedule);
    var i :| 0 <= i < |q.schedule| && q.schedule[i] == c;
    ScanMisses(q, q.cursor, |q.schedule|, i);
  }

  lemma DequeueServesWhenNonEmpty<T>(q: State<T>, nowMs: u64)
    requires Consistent(q) && Scheduled(q)
    ensures Dequeue(q, nowMs).1.Some? <==> q.len > 0
  {
    var chosen := Select(q, nowMs).1;
    if chosen.None? {
      forall c: WorkClass ensures q.Queue(c) == [] {
        IdleMeansEmpty(q, nowMs, c);
      }
    }
  }

  // ---------------------------------------------------------------------------------------------
  // Bounded wait inside a class
  // ---------------------------------------------------------------------------------------------

  lemma EnqueueEffect<T>(q: State<T>, op: Op<T>, c: WorkClass)
    requires Ready(q) && op.Enq?
    ensures q.Queue(c) <= Step(q, op).Queue(c)
    ensures Step(q, op).tenantRun == q.tenantRun
  {
  }

  /** Where one operation moves the item at position `p` of class `c`; `None` if it takes it. */
  function Moved<T>(q: State<T>, c: WorkClass, p: nat, op: Op<T>): (r: Option<nat>)
    requires Ready(q) && p < |q.Queue(c)|
  {
    if op.Enq? || Select(q, op.nowMs).1 != Some(c) then Some(p)
    else
      var k := TenantFairIndex(q, c);
      if k == p then None else if k < p then Some(p - 1) else Some(p)
  }

  lemma MovedFollowsItem<T>(q: State<T>, c: WorkClass, p: nat, op: Op<T>)
    requires Ready(q) && p < |q.Queue(c)|
    ensures var next := Step(q, op);
            match Moved(q, c, p, op)
            case None => Returned(q, op) == [q.Queue(c)[p]]
            case Some(at) => at < |next.Queue(c)| && next.Queue(c)[at] == q.Queue(c)[p]
  {
    if op.Enq? {
      EnqueueEffect(q, op, c);
    } else {
      DequeueEffect(q, op.nowMs, c);
    }
  }

  /** Where the item at position `p` of class `c` is after a run; `None` once it has left. */
  function Track<T>(q: State<T>, c: WorkClass, p: nat, ops: seq<Op<T>>): Option<nat>
    requires Ready(q) && p < |q.Queue(c)|
    decreases |ops|
  {
    if ops == [] then Some(p)
    else
      MovedFollowsItem(q, c, p, ops[0]);
      match Moved(q, c, p, ops[0])
      case None => None
      case Some(at) => Track(Step(q, ops[0]), c, at, ops[1..])
  }

  /** `Track` follows the item itself: it is still queued there, or it was returned. */
  lemma {:induction false} TrackFollowsItem<T>(q: State<T>, c: WorkClass, p: nat, ops: seq<Op<T>>)
    requires Ready(q) && p < |q.Queue(c)|
    ensures match Track(q, c, p, ops)
            case None => q.Queue(c)[p] in Outputs(q, ops)
            case Some(at) => at < |After(q, ops).Queue(c)| && After(q, ops).Queue(c)[at] == q.Queue(c)[p]
    decreases |ops|
  {
    if ops == [] {
    } else {
      MovedFollowsItem(q, c, p, ops[0]);
      var moved := Moved(q, c, p, ops[0]);
      if moved.Some? {
        TrackFollowsItem(Step(q, ops[0]), c, moved.value, ops[1..]);
      }
    }
  }

  /** Dequeues of class `c` that the item at position `p` can still be passed over, plus one. */
  function Budget<T>(q: State<T>, c: WorkClass, p: nat): nat
    requires p < |q.Queue(c)|
  {
    2 * p + if FrontFree(q, c) then 1 else 2
  }

  /**
   * Serving class `c` without taking the item at `p` uses up its budget: removing from the middle
   * leaves a front whose tenant is not the one just served, so the next removal is the front.
   */
  lemma PassedOverSpendsBudget<T>(q: State<T>, c: WorkClass, p: nat, op: Op<T>)
    requires Ready(q) && p < |q.Queue(c)| && Moved(q, c, p, op).Some?
    ensures var next := Step(q, op);
            var at := Moved(q, c, p, op).value;
            && at < |next.Queue(c)|
            && Budget(next, c, at) + (if Selected(q, op) == [c] then 1 else 0) <= Budget(q, c, p)
  {
    if op.Enq? {
      EnqueueEffect(q, op, c);
    } else {
      DequeueEffect(q, op.nowMs, c);
      if Select(q, op.nowMs).1 == Some(c) && TenantFairIndex(q, c) > 0 {
        SkipsOneTenant(q, c, 0);
      }
    }
  }

  lemma {:induction false} WaitWithinBudget<T>(q: State<T>, c: WorkClass, p: nat, ops: seq<Op<T>>)
    requires Ready(q) && p < |q.Queue(c)|
    requires Track(q, c, p, ops).Some?
    ensures multiset(Served(q, ops))[c] < Budget(q, c, p)
    decreases |ops|
  {
    if ops == [] {
    } else {
      PassedOverSpendsBudget(q, c, p, ops[0]);
      WaitWithinBudget(Step(q, ops[0]), c, Moved(q, c, p, ops[0]).value, ops[1..]);
    }
  }

  /**
   * Bounded wait: in any interleaving, an item at position `p` of its class queue has been
   * returned once 2(p + 1) dequeues have selected that class.
   */
  lemma BoundedWait<T>(q: State<T>, c: WorkClass, p: nat, ops: seq<Op<T>>)
    requires Ready(q) && p < |q.Queue(c)|
    requires multiset(Served(q, ops))[c] >= 2 * (p + 1)
    ensures Track(q, c, p, ops).None? && q.Queue(c)[p] in Outputs(q, ops)
  {
    if Track(q, c, p, ops).Some? {
      WaitWithinBudget(q, c, p, ops);
    }
    TrackFollowsItem(q, c, p, ops);
  }

  // ---------------------------------------------------------------------------------------------
  // Nothing is lost, and a tenant's work leaves each class in the order it arrived
  // ---------------------------------------------------------------------------------------------

  function Of<T>(items: seq<QueuedWork<T>>, c: WorkClass, t: TenantId): seq<QueuedWork<T>> {
    if items == [] then []
    else (if items[0].descriptor.class_ == c && items[0].Tenant() == t then [items[0]] else [])
         + Of(items[1..], c, t)
  }

  lemma {:induction false} OfSplit<T>(a: seq<QueuedWork<T>>, b: seq<QueuedWork<T>>, c: WorkClass, t: TenantId)
    ensures Of(a + b, c, t) == Of(a, c, t) + Of(b, c, t)
  {
    if a == [] {
      assert a + b == b;
    } else {
      assert (a + b)[1..] == a[1..] + b;
      OfSplit(a[1..], b, c, t);
    }
  }

  lemma {:induction false} OfNone<T>(items: seq<QueuedWork<T>>, c: WorkClass, t: TenantId)
    requires forall j :: 0 <= j < |items| ==> items[j].Tenant() != t
    ensures Of(items, c, t) == []
  {
    if items == [] {
    } else {
      OfNone(items[1..], c, t);
    }
  }

  /** The item removed is the first of its tenant, so it leads the tenant's subsequence. */
  lemma RemovalTakesFirst<T>(items: seq<QueuedWork<T>>, k: nat, c: WorkClass, t: TenantId)
    requires k < |items|
    requires forall j :: 0 <= j < k ==> items[j].Tenant() != items[k].Tenant()
    ensures Of(items, c, t) == Of([items[k]], c, t) + Of(Without(items, k), c, t)
  {
    assert items == items[..k] + ([items[k]] + items[k + 1..]);
    OfSplit(items[..k], [items[k]] + items[k + 1..], c, t);
    OfSplit([items[k]], items[k + 1..], c, t);
    OfSplit(items[..k], items[k + 1..], c, t);
    if items[k].Tenant() == t {
      OfNone(items[..k], c, t);
    } else {
      assert Of([items[k]], c, t) == [];
    }
  }

  lemma EnqueueFifo<T>(q: State<T>, op: Op<T>, c: WorkClass, t: TenantId)
    requires WellFormed(q) && op.Enq?
    ensures Of(Step(q, op).Queue(c), c, t) == Of(q.Queue(c), c, t) + Of(Admitted(q, op), c, t)
  {
    if Refusal(q, op.descriptor).None? && op.descriptor.class_ == c {
      OfSplit(q.Queue(c), [op.Item()], c, t);
    }
  }

  lemma DequeueFifo<T>(q: State<T>, op: Op<T>, c: WorkClass, t: TenantId)
    requires WellFormed(q) && op.Deq?
    ensures Of(Returned(q, op), c, t) + Of(Step(q, op).Queue(c), c, t) == Of(q.Queue(c), c, t)
  {
    var chosen := Select(q, op.nowMs).1;
    DequeueEffect(q, op.nowMs, c);
    if chosen == Some(c) {
      var k := TenantFairIndex(q, c);
      forall j | 0 <= j < k ensures q.Queue(c)[j].Tenant() != q.Queue(c)[k].Tenant() {
        SkipsOneTenant(q, c, j);
      }
      RemovalTakesFirst(q.Queue(c), k, c, t);
    } else if chosen.Some? {
      DequeueEffect(q, op.nowMs, chosen.value);
    }
  }

  lemma StepKeepsWellFormed<T>(q: State<T>, op: Op<T>)
    requires WellFormed(q)
    ensures WellFormed(Step(q, op))
  {
    if op.Deq? {
      DequeueKeepsWellFormed(q, op.nowMs);
    } else if Refusal(q, op.descriptor).None? {
      AcceptKeepsWellFormed(q, op);
    }
  }

  lemma StepFifo<T>(q: State<T>, op: Op<T>, c: WorkClass, t: TenantId)
    requires WellFormed(q)
    ensures WellFormed(Step(q, op))
    ensures Of(Returned(q, op), c, t) + Of(Step(q, op).Queue(c), c, t)
            == Of(q.Queue(c), c, t) + Of(Admitted(q, op), c, t)
  {
    StepKeepsWellFormed(q, op);
    if op.Enq? {
      EnqueueFifo(q, op, c, t);
    } else {
      DequeueFifo(q, op, c, t);
    }
  }

  lemma Regroup<T>(out: seq<T>, outs: seq<T>, left: seq<T>, here: seq<T>, next: seq<T>, adm: seq<T>, adms: seq<T>)
    requires outs + left == next + adms
    requires out + next == here + adm
    ensures (out + outs) + left == here + (adm + adms)
  {
    calc {
      (out + outs) + left;
      out + (outs + left);
      (out + next) + adms;
      here + (adm + adms);
    }
  }

  /**
   * Conservation and order: over every run, what a tenant's class returned, followed by what is
   * still queued, is exactly what was queued before followed by what was admitted, in order.
   */
  lemma {:induction false} FifoPerTenantAndClass<T>(q: State<T>, ops: seq<Op<T>>, c: WorkClass, t: TenantId)
    requires WellFormed(q)
    ensures Of(Outputs(q, ops), c, t) + Of(After(q, ops).Queue(c), c, t)
            == Of(q.Queue(c), c, t) + Of(Accepted(q, ops), c, t)
    decreases |ops|
  {
    if ops == [] {
    } else {
      var op, rest := ops[0], ops[1..];
      var next := Step(q, op);
      StepFifo(q, op, c, t);
      FifoPerTenantAndClass(next, rest, c, t);
      OfSplit(Returned(q, op), Outputs(next, rest), c, t);
      OfSplit(Admitted(q, op), Accepted(next, rest), c, t);
      Regroup(Of(Returned(q, op), c, t), Of(Outputs(next, rest), c, t), Of(After(next, rest).Queue(c), c, t),
              Of(q.Queue(c), c, t), Of(next.Queue(c), c, t),
              Of(Admitted(q, op), c, t), Of(Accepted(next, rest), c, t));
    }
  }

  // ---------------------------------------------------------------------------------------------
  // Exact weighted shares
  // ---------------------------------------------------------------------------------------------

  /** Every class has work and no head is old enough to bypass the schedule. */
  ghost predicate Saturated<T>(q: State<T>, nowMs: u64) {
    (forall c :: |q.Queue(c)| > 0) && AgedClass(q, nowMs).None?
  }

  /** Each dequeue of the run finds the queue saturated. */
  ghost predicate KeptSaturated<T>(q: State<T>, ops: seq<Op<T>>)
    requires Ready(q)
    decreases |ops|
  {
    ops == [] ||
    ((ops[0].Deq? ==> Saturated(q, ops[0].nowMs)) && KeptSaturated(Step(q, ops[0]), ops[1..]))
  }

  function Dequeues<T>(ops: seq<Op<T>>): nat {
    if ops == [] then 0 else (if ops[0].Deq? then 1 else 0) + Dequeues(ops[1..])
  }

  /** The next `k` slots of the schedule, going round. */
  function Window(schedule: seq<WorkClass>, cursor: nat, k: nat): seq<WorkClass>
    requires cursor < |schedule|
    decreases k
  {
    if k == 0 then [] else [schedule[cursor]] + Window(schedule, Following(cursor, |schedule|), k - 1)
  }

  lemma SaturatedStep<T>(q: State<T>, nowMs: u64)
    requires Ready(q) && Saturated(q, nowMs)
    ensures Selected(q, Deq(nowMs)) == [q.schedule[q.cursor]]
    ensures Step(q, Deq(nowMs)).cursor == Following(q.cursor, |q.schedule|)
  {
  }

  lemma {:induction false} ServedIsWindow<T>(q: State<T>, ops: seq<Op<T>>)
    requires Ready(q) && KeptSaturated(q, ops)
    ensures Served(q, ops) == Window(q.schedule, q.cursor, Dequeues(ops))
    decreases |ops|
  {
    if ops == [] {
    } else {
      if ops[0].Deq? {
        SaturatedStep(q, ops[0].nowMs);
      }
      ServedIsWindow(Step(q, ops[0]), ops[1..]);
    }
  }

  /** A window that does not go round is a slice of the schedule. */
  lemma {:induction false} WindowIsSlice(schedule: seq<WorkClass>, cursor: nat, k: nat)
    requires cursor < |schedule| && cursor + k <= |schedule|
    ensures Window(schedule, cursor, k) == schedule[cursor..cursor + k]
    decreases k
  {
    if k > 1 {
      WindowIsSlice(schedule, cursor + 1, k - 1);
    }
    if k > 0 {
      assert schedule[cursor..cursor + k] == [schedule[cursor]] + schedule[cursor + 1..cursor + k];
    }
  }

  lemma {:induction false} WindowGoesRound(schedule: seq<WorkClass>, cursor: nat, k: nat)
    requires cursor < |schedule|
    ensures Window(schedule, cursor, |schedule| - cursor + k)
            == Window(schedule, cursor, |schedule| - cursor) + Window(schedule, 0, k)
    decreases |schedule| - cursor
  {
    if cursor + 1 < |schedule| {
      WindowGoesRound(schedule, cursor + 1, k);
    }
  }

  lemma WindowIsRotation(schedule: seq<WorkClass>, cursor: nat)
    requires cursor < |schedule|
    ensures Window(schedule, cursor, |schedule|) == schedule[cursor..] + schedule[..cursor]
  {
    WindowGoesRound(schedule, cursor, cursor);
    WindowIsSlice(schedule, cursor, |schedule| - cursor);
    WindowIsSlice(schedule, 0, cursor);
  }

  lemma RotationKeepsCounts<T>(s: seq<T>, k: nat)
    requires k <= |s|
    ensures multiset(s[k..] + s[..k]) == multiset(s)
  {
    assert s == s[..k] + s[k..];
  }

  /**
   * Exact shares: while every class keeps work and no head ages out, any run with as many dequeues
   * as the schedule has slots serves each class exactly its weight, from any cursor position.
   */
  lemma ExactWeightedShares<T>(q: State<T>, ops: seq<Op<T>>, c: WorkClass)
    requires Scheduled(q) && KeptSaturated(q, ops)
    requires Dequeues(ops) == |q.schedule|
    ensures multiset(Served(q, ops))[c] == q.config.weight.Of(c)
  {
    ServedIsWindow(q, ops);
    WindowIsRotation(q.schedule, q.cursor);
    RotationKeepsCounts(q.schedule, q.cursor);
    ScheduleWeights(q.config, c);
  }

  // ---------------------------------------------------------------------------------------------
  // Aging
  // ---------------------------------------------------------------------------------------------

  ghost predicate EnqueuesFrom<T>(ops: seq<Op<T>>, sinceMs: u64) {
    forall i :: 0 <= i < |ops| ==> ops[i].Enq? && ops[i].atMs >= sinceMs
  }

  /** Enqueues only append, and what they append is no older than `sinceMs`. */
  lemma {:induction false} EnqueuesAppend<T>(q: State<T>, ops: seq<Op<T>>, sinceMs: u64, c: WorkClass)
    requires Ready(q) && EnqueuesFrom(ops, sinceMs)
    ensures var after := After(q, ops);
            && q.Queue(c) <= after.Queue(c)
            && (forall i :: |q.Queue(c)| <= i < |after.Queue(c)| ==> after.Queue(c)[i].enqueuedAtMs >= sinceMs)
            && after.tenantRun == q.tenantRun
            && after.config == q.config
    decreases |ops|
  {
    if ops == [] {
    } else {
      EnqueueEffect(q, ops[0], c);
      EnqueuesAppend(Step(q, ops[0]), ops[1..], sinceMs, c);
    }
  }

  /** A class chosen for its age stays the choice while its head stays and time moves on. */
  lemma AgedClassPersists<T>(q: State<T>, q': State<T>, c: WorkClass, t1: u64, t2: u64)
    requires q.config.Valid() && q'.config == q.config && t1 <= t2
    requires AgedClass(q, t1) == Some(c)
    requires |q'.Queue(c)| > 0 && q'.Queue(c)[0] == q.Queue(c)[0]
    requires forall d :: d != c && |q'.Queue(d)| > 0 ==>
               || (|q.Queue(d)| > 0 && q'.Queue(d)[0] == q.Queue(d)[0])
               || q'.Queue(d)[0].enqueuedAtMs >= t1
    ensures AgedClass(q', t2) == Some(c)
  {
    AgedClassIsBest(q', t2, c);
    var d := AgedClass(q', t2).value;
    if Starving(q, d, t1) {
      AgedClassIsBest(q, t1, d);
    }
  }

  /**
   * Aging: when the clock does not run backwards, the head of the class picked for its age is
   * returned by that dequeue or by the next one, whatever is enqueued in between.
   */
  lemma AgedHeadLeavesWithinTwo<T>(q: State<T>, t1: u64, between: seq<Op<T>>, t2: u64, c: WorkClass)
    requires Consistent(q) && Scheduled(q) && t1 <= t2 && EnqueuesFrom(between, t1)
    requires AgedClass(q, t1) == Some(c)
    ensures var head := q.Queue(c)[0];
            || Dequeue(q, t1).1 == Some(head)
            || Dequeue(After(Step(q, Deq(t1)), between), t2).1 == Some(head)
  {
    DequeueEffect(q, t1, c);
    if TenantFairIndex(q, c) != 0 {
      var q1 := Step(q, Deq(t1));
      var q2 := After(q1, between);
      forall d
        ensures d != c && |q2.Queue(d)| > 0 ==>
                  || (|q.Queue(d)| > 0 && q2.Queue(d)[0] == q.Queue(d)[0])
                  || q2.Queue(d)[0].enqueuedAtMs >= t1
      {
        DequeueEffect(q, t1, d);
        EnqueuesAppend(q1, between, t1, d);
      }
      EnqueuesAppend(q1, between, t1, c);
      AgedClassPersists(q, q2, c, t1, t2);
      assert FrontFree(q2, c);
    }
  }
}
