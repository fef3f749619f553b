/**
 * Freedom from starvation across classes (`aged_class` and `tenant_fair_index` in
 * `crates/aequora-admission/src/fairness.rs`): with a clock that does not run backwards, an item that
 * has waited long enough leaves after a number of dequeues that depends only on what is older.
 */
module Starvation {
  import opened Base
  import opened Work
  import opened Fairness
  import opened FairnessRuns
  import opened FairnessTheorems

  // ---------------------------------------------------------------------------------------------
  // A clock that does not run backwards
  // ---------------------------------------------------------------------------------------------

  function TimeOf<T>(op: Op<T>): u64 {
    if op.Enq? then op.atMs else op.nowMs
  }

  /** The times of the operations do not decrease, from `now` on. */
  predicate Clocked<T>(ops: seq<Op<T>>, now: u64) {
    ops == [] || (now <= TimeOf(ops[0]) && Clocked(ops[1..], TimeOf(ops[0])))
  }

  /** The time of the last operation, or `now` if there is none. */
  function Latest<T>(ops: seq<Op<T>>, now: u64): u64 {
    if ops == [] then now else Latest(ops[1..], TimeOf(ops[0]))
  }

  /** Items of a class queue are in the order of their times, none of them in the future. */
  ghost predicate Timed<T>(items: seq<QueuedWork<T>>, now: u64) {
    && (forall i :: 0 <= i < |items| ==> items[i].enqueuedAtMs <= now)
    && (forall i, j :: 0 <= i < j < |items| ==> items[i].enqueuedAtMs <= items[j].enqueuedAtMs)
  }

  ghost predicate InTime<T>(q: State<T>, now: u64) {
    forall c :: Timed(q.Queue(c), now)
  }

  lemma TimedAppend<T>(items: seq<QueuedWork<T>>, item: QueuedWork<T>, now: u64)
    requires Timed(items, now) && now <= item.enqueuedAtMs
    ensures Timed(items, item.enqueuedAtMs) && Timed(items + [item], item.enqueuedAtMs)
  {
  }

  lemma TimedWithout<T>(items: seq<QueuedWork<T>>, k: nat, now: u64, later: u64)
    requires k < |items| && Timed(items, now) && now <= later
    ensures Timed(Without(items, k), later)
  {
  }

  /** What an enqueue appends to a class queue, if anything, is its own item. */
  lemma AppendedOne<T>(q: State<T>, op: Op<T>, c: WorkClass)
    requires Ready(q) && op.Enq?
    ensures Step(q, op).Queue(c) == q.Queue(c)
            || (c == op.descriptor.class_ && Step(q, op).Queue(c) == q.Queue(c) + [op.Item()])
  {
  }

  lemma ClassInTime<T>(q: State<T>, op: Op<T>, now: u64, c: WorkClass)
    requires Ready(q) && Timed(q.Queue(c), now) && now <= TimeOf(op)
    ensures Timed(Step(q, op).Queue(c), TimeOf(op))
  {
    if op.Enq? {
      TimedAppend(q.Queue(c), op.Item(), now);
      AppendedOne(q, op, c);
    } else {
      DequeueEffect(q, op.nowMs, c);
      if Select(q, op.nowMs).1 == Some(c) {
        TimedWithout(q.Queue(c), TenantFairIndex(q, c), now, op.nowMs);
      }
    }
  }

  lemma StepInTime<T>(q: State<T>, op: Op<T>, now: u64)
    requires Ready(q) && InTime(q, now) && now <= TimeOf(op)
    ensures InTime(Step(q, op), TimeOf(op))
  {
    forall c ensures Timed(Step(q, op).Queue(c), TimeOf(op)) {
      ClassInTime(q, op, now, c);
    }
  }

  lemma {:induction false} RunInTime<T>(q: State<T>, ops: seq<Op<T>>, now: u64)
    requires Ready(q) && InTime(q, now) && Clocked(ops, now)
    ensures InTime(After(q, ops), Latest(ops, now))
    decreases |ops|
  {
    if ops == [] {
    } else {
      StepInTime(q, ops[0], now);
      RunInTime(Step(q, ops[0]), ops[1..], TimeOf(ops[0]));
    }
  }

  // ---------------------------------------------------------------------------------------------
  // Elders
  // ---------------------------------------------------------------------------------------------

  /** Items enqueued no later than `e`. */
  function CountElders<T>(items: seq<QueuedWork<T>>, e: u64): nat {
    if items == [] then 0 else (if items[0].enqueuedAtMs <= e then 1 else 0) + CountElders(items[1..], e)
  }

  function Elders<T>(q: State<T>, e: u64): nat {
    Across(c => CountElders(q.Queue(c), e))
  }

  lemma {:induction false} EldersSplit<T>(a: seq<QueuedWork<T>>, b: seq<QueuedWork<T>>, e: u64)
    ensures CountElders(a + b, e) == CountElders(a, e) + CountElders(b, e)
  {
    if a == [] {
      assert a + b == b;
    } else {
      assert (a + b)[1..] == a[1..] + b;
      EldersSplit(a[1..], b, e);
    }
  }

  lemma EldersWithout<T>(items: seq<QueuedWork<T>>, k: nat, e: u64)
    requires k < |items|
    ensures CountElders(items, e)
            == CountElders(Without(items, k), e) + if items[k].enqueuedAtMs <= e then 1 else 0
  {
    assert items == items[..k] + ([items[k]] + items[k + 1..]);
    assert ([items[k]] + items[k + 1..])[1..] == items[k + 1..];
    EldersSplit(items[..k], [items[k]] + items[k + 1..], e);
    EldersSplit(items[..k], items[k + 1..], e);
  }

  lemma EldersUpdate<T>(q: State<T>, next: State<T>, c: WorkClass, e: u64)
    requires forall d :: d != c ==> next.Queue(d) == q.Queue(d)
    ensures Elders(next, e) + CountElders(q.Queue(c), e) == Elders(q, e) + CountElders(next.Queue(c), e)
  {
    AcrossUpdate(d => CountElders(next.Queue(d), e), d => CountElders(q.Queue(d), e), c);
  }

  /** What is enqueued later than `e` is no elder. */
  lemma EnqueueKeepsElders<T>(q: State<T>, op: Op<T>, e: u64)
    requires Ready(q) && op.Enq? && op.atMs > e
    ensures Elders(Step(q, op), e) == Elders(q, e)
  {
    var c := op.descriptor.class_;
    forall d ensures d != c ==> Step(q, op).Queue(d) == q.Queue(d) {
      AppendedOne(q, op, d);
    }
    AppendedOne(q, op, c);
    EldersSplit(q.Queue(c), [op.Item()], e);
    EldersUpdate(q, Step(q, op), c, e);
  }

  /** A dequeue takes one elder away if what it returns is one. */
  lemma DequeueTakesElder<T>(q: State<T>, nowMs: u64, d: WorkClass, e: u64)
    requires Ready(q) && Select(q, nowMs).1 == Some(d)
    ensures var k := TenantFairIndex(q, d);
            Elders(q, e) == Elders(Dequeue(q, nowMs).0, e) + if q.Queue(d)[k].enqueuedAtMs <= e then 1 else 0
  {
    var next := Dequeue(q, nowMs).0;
    forall c ensures c != d ==> next.Queue(c) == q.Queue(c) {
      DequeueEffect(q, nowMs, c);
    }
    DequeueEffect(q, nowMs, d);
    EldersWithout(q.Queue(d), TenantFairIndex(q, d), e);
    EldersUpdate(q, next, d, e);
  }

  lemma {:induction false} ElderCounted<T>(items: seq<QueuedWork<T>>, p: nat, e: u64)
    requires p < |items| && items[p].enqueuedAtMs <= e
    ensures CountElders(items, e) >= 1
  {
    if p == 0 {
    } else {
      ElderCounted(items[1..], p - 1, e);
    }
  }

  lemma SomeElder<T>(q: State<T>, c: WorkClass, p: nat, e: u64)
    requires p < |q.Queue(c)| && q.Queue(c)[p].enqueuedAtMs <= e
    ensures Elders(q, e) >= 1
  {
    ElderCounted(q.Queue(c), p, e);
  }

  // ---------------------------------------------------------------------------------------------
  // The aged class
  // ---------------------------------------------------------------------------------------------

  /** An item of `q` that was enqueued at `e` has waited long enough at `now`. */
  ghost predicate Overdue<T>(q: State<T>, now: u64, e: u64) {
    q.config.Valid() && InTime(q, now) && e + StarvationAge(q.config) <= now
  }

  /** While an overdue item waits, aging picks a class, and its head is no younger than the item. */
  lemma AgedHeadIsElder<T>(q: State<T>, now: u64, c: WorkClass, p: nat)
    requires p < |q.Queue(c)| && Overdue(q, now, q.Queue(c)[p].enqueuedAtMs)
    ensures AgedClass(q, now).Some?
    ensures var d := AgedClass(q, now).value;
            |q.Queue(d)| > 0 && q.Queue(d)[0].enqueuedAtMs <= q.Queue(c)[p].enqueuedAtMs
  {
    assert Timed(q.Queue(c), now);
    assert Starving(q, c, now);
    AgedClassIsBest(q, now, c);
    assert Timed(q.Queue(AgedClass(q, now).value), now);
  }

  /** Dequeues that an overdue item of age `e` may still have to wait, plus one. */
  function Patience<T>(q: State<T>, now: u64, e: u64): int {
    2 * Elders(q, e) - if AgedClass(q, now).Some? && FrontFree(q, AgedClass(q, now).value) then 1 else 0
  }

  /** The choice of the aged class does not change as time goes by. */
  lemma AgedStays<T>(q: State<T>, t1: u64, t2: u64)
    requires q.config.Valid() && t1 <= t2 && AgedClass(q, t1).Some?
    ensures AgedClass(q, t2) == AgedClass(q, t1)
  {
    AgedClassPersists(q, q, AgedClass(q, t1).value, t1, t2);
  }

  /** An enqueue changes neither the aged class nor its head, so the head's tenant stays free or not. */
  lemma EnqueueKeepsAged<T>(q: State<T>, op: Op<T>, now: u64)
    requires Ready(q) && q.config.Valid() && op.Enq? && now <= op.atMs && AgedClass(q, now).Some?
    ensures AgedClass(Step(q, op), op.atMs) == AgedClass(q, now)
    ensures var d := AgedClass(q, now).value;
            FrontFree(Step(q, op), d) <==> FrontFree(q, d)
  {
    var next, d := Step(q, op), AgedClass(q, now).value;
    forall c
      ensures |next.Queue(c)| > 0 ==>
                || (|q.Queue(c)| > 0 && next.Queue(c)[0] == q.Queue(c)[0])
                || next.Queue(c)[0].enqueuedAtMs >= now
    {
      AppendedOne(q, op, c);
    }
    EnqueueEffect(q, op, d);
    AgedClassPersists(q, next, d, now, op.atMs);
  }

  lemma EnqueueKeepsPatience<T>(q: State<T>, op: Op<T>, now: u64, e: u64)
    requires Ready(q) && op.Enq? && Overdue(q, now, e) && now <= op.atMs && AgedClass(q, now).Some?
    ensures Patience(Step(q, op), op.atMs, e) == Patience(q, now, e)
  {
    EnqueueKeepsAged(q, op, now);
    EnqueueKeepsElders(q, op, e);
  }

  /** Taking the head takes an elder. */
  lemma HeadSpendsPatience<T>(q: State<T>, nowMs: u64, e: u64)
    requires Ready(q) && AgedClass(q, nowMs).Some?
    requires var d := AgedClass(q, nowMs).value;
             TenantFairIndex(q, d) == 0 && q.Queue(d)[0].enqueuedAtMs <= e
    ensures Patience(Dequeue(q, nowMs).0, nowMs, e) < Patience(q, nowMs, e)
  {
    DequeueTakesElder(q, nowMs, AgedClass(q, nowMs).value, e);
  }

  /** Passing the head over frees it for the next dequeue. */
  lemma SkipSpendsPatience<T>(q: State<T>, nowMs: u64, e: u64)
    requires Ready(q) && q.config.Valid() && AgedClass(q, nowMs).Some?
    requires TenantFairIndex(q, AgedClass(q, nowMs).value) > 0
    ensures Patience(Dequeue(q, nowMs).0, nowMs, e) < Patience(q, nowMs, e)
  {
    var next, d := Dequeue(q, nowMs).0, AgedClass(q, nowMs).value;
    DequeueTakesElder(q, nowMs, d, e);
    SkipsOneTenant(q, d, 0);
    forall c ensures c != d ==> next.Queue(c) == q.Queue(c) {
      DequeueEffect(q, nowMs, c);
    }
    DequeueEffect(q, nowMs, d);
    AgedClassPersists(q, next, d, nowMs, nowMs);
    assert FrontFree(next, d);
  }

  lemma DequeueSpendsPatience<T>(q: State<T>, op: Op<T>, now: u64, c: WorkClass, p: nat)
    requires Ready(q) && op.Deq? && p < |q.Queue(c)| && now <= op.nowMs
    requires Overdue(q, now, q.Queue(c)[p].enqueuedAtMs)
    ensures var e := q.Queue(c)[p].enqueuedAtMs;
            Patience(Step(q, op), op.nowMs, e) < Patience(q, now, e)
  {
    var e := q.Queue(c)[p].enqueuedAtMs;
    AgedHeadIsElder(q, now, c, p);
    AgedStays(q, now, op.nowMs);
    if TenantFairIndex(q, AgedClass(q, now).value) == 0 {
      HeadSpendsPatience(q, op.nowMs, e);
    } else {
      SkipSpendsPatience(q, op.nowMs, e);
    }
  }

  // ---------------------------------------------------------------------------------------------
  // Runs
  // ---------------------------------------------------------------------------------------------

  /** An overdue item that is still queued has seen fewer dequeues than its patience. */
  lemma {:induction false} WaitWithinPatience<T>(q: State<T>, ops: seq<Op<T>>, now: u64, c: WorkClass, p: nat)
    requires Ready(q) && p < |q.Queue(c)| && Overdue(q, now, q.Queue(c)[p].enqueuedAtMs)
    requires Clocked(ops, now) && Track(q, c, p, ops).Some?
    ensures Dequeues(ops) < Patience(q, now, q.Queue(c)[p].enqueuedAtMs)
    decreases |ops|
  {
    var e := q.Queue(c)[p].enqueuedAtMs;
    AgedHeadIsElder(q, now, c, p);
    SomeElder(q, c, p, e);
    if ops == [] {
    } else {
      var op := ops[0];
      MovedFollowsItem(q, c, p, op);
      StepInTime(q, op, now);
      WaitWithinPatience(Step(q, op), ops[1..], TimeOf(op), c, Moved(q, c, p, op).value);
      if op.Enq? {
        EnqueueKeepsPatience(q, op, now, e);
      } else {
        DequeueSpendsPatience(q, op, now, c, p);
      }
    }
  }

  /**
   * No starvation: with a clock that does not run backwards, in any interleaving, an item that has
   * waited the starvation age is returned within 2m dequeues of whatever classes, m being the
   * number of queued items enqueued no later than it, itself included.
   */
  lemma OverdueItemLeaves<T>(q: State<T>, ops: seq<Op<T>>, now: u64, c: WorkClass, p: nat)
    requires Ready(q) && p < |q.Queue(c)| && Overdue(q, now, q.Queue(c)[p].enqueuedAtMs)
    requires Clocked(ops, now) && Dequeues(ops) >= 2 * Elders(q, q.Queue(c)[p].enqueuedAtMs)
    ensures Track(q, c, p, ops).None? && q.Queue(c)[p] in Outputs(q, ops)
  {
    if Track(q, c, p, ops).Some? {
      WaitWithinPatience(q, ops, now, c, p);
    }
    TrackFollowsItem(q, c, p, ops);
  }

  /**
   * The same for every state that a run from the empty queue reaches under such a clock. A validated
   * configuration always makes a non-empty schedule (`ReachableStatesAreConsistent`).
   */
  lemma NoStarvation<T>(
    config: FairQueueConfig, before: seq<Op<T>>, ops: seq<Op<T>>, now: u64, c: WorkClass, p: nat)
    requires config.Valid() && Clocked(before, 0) && Latest(before, 0) <= now && Clocked(ops, now)
    requires Ready(Empty<T>(config)) && p < |After(Empty<T>(config), before).Queue(c)|
    requires var e := After(Empty<T>(config), before).Queue(c)[p].enqueuedAtMs;
             && e + StarvationAge(config) <= now
             && Dequeues(ops) >= 2 * Elders(After(Empty<T>(config), before), e)
    ensures var q := After(Empty<T>(config), before);
            Track(q, c, p, ops).None? && q.Queue(c)[p] in Outputs(q, ops)
  {
    var q := After(Empty<T>(config), before);
    assert InTime(Empty<T>(config), 0) by {
      forall d ensures Timed(Empty<T>(config).Queue(d), 0) {
        EmptyQueue<T>(config, d);
      }
    }
    RunInTime(Empty<T>(config), before, 0);
    EmptyIsConsistent<T>(config);
    RunKeepsConsistent(Empty<T>(config), before);
    assert InTime(q, now) by {
      forall d ensures Timed(q.Queue(d), now) {
        assert Timed(q.Queue(d), Latest(before, 0));
      }
    }
    OverdueItemLeaves(q, ops, now, c, p);
  }
}
