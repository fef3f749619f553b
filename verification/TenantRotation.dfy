/**
 * Tenant rotation inside a class (`tenant_fair_index` and `record_dequeue` in
 * `crates/aequora-admission/src/fairness.rs`), read off the history of what was returned.
 */
module TenantRotation {
  import opened Base
  import opened Work
  import opened Fairness
  import opened FairnessRuns
  import opened FairnessTheorems

  /** The items of class `c`, in order. */
  function OfClass<T>(items: seq<QueuedWork<T>>, c: WorkClass): seq<QueuedWork<T>> {
    if items == [] then []
    else
      var n := |items| - 1;
      OfClass(items[..n], c) + if items[n].descriptor.class_ == c then [items[n]] else []
  }

  /** How many of the last items, counting back from the end, belong to `t`. */
  function TrailingRun<T>(items: seq<QueuedWork<T>>, t: TenantId): nat {
    if items == [] || items[|items| - 1].Tenant() != t then 0
    else 1 + TrailingRun(items[..|items| - 1], t)
  }

  /** What the queue remembers about class `c` is the last tenant served and the length of its run. */
  ghost predicate RunRecorded<T>(q: State<T>, history: seq<QueuedWork<T>>, c: WorkClass) {
    forall t :: RunLength(q.tenantRun, c, t) == Min(TrailingRun(OfClass(history, c), t), U16_MAX)
  }

  lemma ExtendedRun<T>(history: seq<QueuedWork<T>>, item: QueuedWork<T>, c: WorkClass, t: TenantId)
    ensures TrailingRun(OfClass(history + [item], c), t)
            == if item.descriptor.class_ != c then TrailingRun(OfClass(history, c), t)
               else if item.Tenant() == t then TrailingRun(OfClass(history, c), t) + 1
               else 0
  {
    assert (history + [item])[..|history|] == history;
    var before := OfClass(history, c);
    if item.descriptor.class_ == c {
      assert OfClass(history + [item], c) == before + [item];
      assert (before + [item])[..|before|] == before;
    } else {
      assert OfClass(history + [item], c) == before;
    }
  }

  lemma RecordedRun<T>(q: State<T>, nowMs: u64, c: WorkClass, t: TenantId)
    requires WellFormed(q) && Dequeue(q, nowMs).1.Some?
    ensures var (next, out) := Dequeue(q, nowMs);
            RunLength(next.tenantRun, c, t)
            == if out.value.descriptor.class_ != c then RunLength(q.tenantRun, c, t)
               else if out.value.Tenant() == t then SatAdd(RunLength(q.tenantRun, c, t), 1, U16_MAX)
               else 0
  {
    var served := Select(q, nowMs).1.value;
    assert q.Queue(served)[TenantFairIndex(q, served)].descriptor.class_ == served;
  }

  lemma IdleKeepsRuns<T>(q: State<T>, op: Op<T>)
    requires Ready(q) && Returned(q, op) == []
    ensures Step(q, op).tenantRun == q.tenantRun
  {
  }

  lemma ReturnedRecordsRun<T>(q: State<T>, history: seq<QueuedWork<T>>, nowMs: u64, c: WorkClass, t: TenantId)
    requires WellFormed(q) && RunRecorded(q, history, c) && Dequeue(q, nowMs).1.Some?
    ensures var (next, out) := Dequeue(q, nowMs);
            RunLength(next.tenantRun, c, t) == Min(TrailingRun(OfClass(history + [out.value], c), t), U16_MAX)
  {
    ExtendedRun(history, Dequeue(q, nowMs).1.value, c, t);
    RecordedRun(q, nowMs, c, t);
  }

  lemma StepRecordsRun<T>(q: State<T>, history: seq<QueuedWork<T>>, op: Op<T>, c: WorkClass)
    requires WellFormed(q) && RunRecorded(q, history, c)
    ensures RunRecorded(Step(q, op), history + Returned(q, op), c)
  {
    if Returned(q, op) == [] {
      assert history + Returned(q, op) == history;
      IdleKeepsRuns(q, op);
    } else {
      forall t
        ensures RunLength(Step(q, op).tenantRun, c, t)
             == Min(TrailingRun(OfClass(history + Returned(q, op), c), t), U16_MAX)
      {
        ReturnedRecordsRun(q, history, op.nowMs, c, t);
      }
    }
  }

  lemma {:induction false} RunsAreRecorded<T>(
    q: State<T>, history: seq<QueuedWork<T>>, ops: seq<Op<T>>, c: WorkClass)
    requires WellFormed(q) && RunRecorded(q, history, c)
    ensures RunRecorded(After(q, ops), history + Outputs(q, ops), c)
    decreases |ops|
  {
    if ops == [] {
      assert history + Outputs(q, ops) == history;
    } else {
      var next, seen := Step(q, ops[0]), history + Returned(q, ops[0]);
      assert history + Outputs(q, ops) == seen + Outputs(next, ops[1..]);
      StepRecordsRun(q, history, ops[0], c);
      StepKeepsWellFormed(q, ops[0]);
      RunsAreRecorded(next, seen, ops[1..], c);
    }
  }

  /** Every item queued in `c` belongs to the tenant at its front. */
  ghost predicate OneTenant<T>(q: State<T>, c: WorkClass) {
    forall i :: 0 <= i < |q.Queue(c)| ==> q.Queue(c)[i].Tenant() == q.Queue(c)[0].Tenant()
  }

  lemma FrontIsServedIff<T>(q: State<T>, history: seq<QueuedWork<T>>, c: WorkClass)
    requires WellFormed(q) && RunRecorded(q, history, c) && |q.Queue(c)| > 0
    ensures var front := q.Queue(c)[0];
            TenantFairIndex(q, c) == 0
            <==> TrailingRun(OfClass(history, c), front.Tenant()) < front.tenantWeight || OneTenant(q, c)
  {
    var front := q.Queue(c)[0];
    var run := RunLength(q.tenantRun, c, front.Tenant());
    assert run == Min(TrailingRun(OfClass(history, c), front.Tenant()), U16_MAX);
    assert FrontFree(q, c) <==> run < front.tenantWeight;
    if !FrontFree(q, c) && !OneTenant(q, c) {
      var i :| 0 <= i < |q.Queue(c)| && q.Queue(c)[i].Tenant() != front.Tenant();
      FirstOtherIsFirst(q.Queue(c), front.Tenant(), i);
    }
  }

  /**
   * Tenant rotation: after any run from the empty queue, a dequeue that selects class `c` returns
   * the front item exactly when its tenant has been served fewer times in a row from that class
   * than the item's weight, or nobody else waits there; otherwise it returns the first item of
   * another tenant.
   */
  lemma RotationFollowsWeights<T>(config: FairQueueConfig, ops: seq<Op<T>>, nowMs: u64, c: WorkClass)
    requires config.Valid()
    ensures Ready(Empty<T>(config))
    ensures var q, history := After(Empty<T>(config), ops), Outputs(Empty<T>(config), ops);
            Select(q, nowMs).1 == Some(c) ==>
              var k, front := TenantFairIndex(q, c), q.Queue(c)[0];
              && Dequeue(q, nowMs).1 == Some(q.Queue(c)[k])
              && (k == 0 <==> TrailingRun(OfClass(history, c), front.Tenant()) < front.tenantWeight
                              || OneTenant(q, c))
              && (k > 0 ==> q.Queue(c)[k].Tenant() != front.Tenant())
              && (forall j :: 0 <= j < k ==> q.Queue(c)[j].Tenant() == front.Tenant())
  {
    ReachableStatesAreConsistent(config, ops);
    EmptyIsConsistent<T>(config);
    var q := After(Empty<T>(config), ops);
    if Select(q, nowMs).1 == Some(c) {
      RunsAreRecorded(Empty<T>(config), [], ops, c);
      assert [] + Outputs(Empty<T>(config), ops) == Outputs(Empty<T>(config), ops);
      FrontIsServedIff(q, Outputs(Empty<T>(config), ops), c);
      DequeueEffect(q, nowMs, c);
      forall j | 0 <= j < TenantFairIndex(q, c) ensures q.Queue(c)[j].Tenant() == q.Queue(c)[0].Tenant() {
        SkipsOneTenant(q, c, j);
      }
      if TenantFairIndex(q, c) > 0 {
        SkipsOneTenant(q, c, 0);
      }
    }
  }
}
