/**
 * The mutable queue object (`FairQueue` in `crates/aequora-admission/src/fairness.rs`), each method
 * proved against the step functions of `Fairness`.
 */
module FairQueueObject {
  import opened Base
  import opened Work
  import opened Fairness

  class FairQueue<T> {
    const config: FairQueueConfig
    var queues: map<WorkClass, seq<QueuedWork<T>>>
    var tenantDepths: map<TenantId, nat>
    var schedule: seq<WorkClass>
    var cursor: nat
    var tenantRun: map<WorkClass, (TenantId, u16)>
    var len: nat
    var bytes: nat

    function Value(): State<T>
      reads this
    {
      State(config, queues, tenantDepths, schedule, cursor, tenantRun, len, bytes)
    }

    ghost predicate Valid()
      reads this
    {
      cursor < |schedule|
    }

    constructor (config: FairQueueConfig)
      requires config.Valid()
      ensures Valid() && Value() == Empty(config)
    {
      this.config := config;
      tenantDepths := map[];
      cursor := 0;
      tenantRun := map[];
      len := 0;
      bytes := 0;
      var allQueues: map<WorkClass, seq<QueuedWork<T>>> := map[];
      var slots: seq<WorkClass> := [];
      for i := 0 to |CLASSES|
        invariant allQueues == map c: WorkClass | c in CLASSES[..i] :: []
        invariant slots == BuildSchedule(config, CLASSES[..i])
        invariant i > 0 ==> |slots| > 0
      {
        assert CLASSES[..i + 1] == CLASSES[..i] + [CLASSES[i]];
        allQueues := allQueues[CLASSES[i] := []];
        slots := slots + Repeat(CLASSES[i], config.weight.Of(CLASSES[i]));
      }
      assert CLASSES[..|CLASSES|] == CLASSES;
      queues := allQueues;
      schedule := slots;
    }

    /** `FairQueue::new`: an unsafe configuration is refused. */
    static method Create(config: FairQueueConfig) returns (r: Option<FairQueue<T>>)
      ensures r.Some? <==> config.Valid()
      ensures r.Some? ==> fresh(r.value) && r.value.Valid() && r.value.Value() == Empty(config)
    {
      if !config.Valid() {
        return None;
      }
      var q := new FairQueue(config);
      return Some(q);
    }

    method Enqueue(d: WorkDescriptor, value: T, enqueuedAtMs: u64, tenantWeight: u16)
      returns (r: Result<(), QueueRejection>)
      requires Valid()
      modifies this
      ensures Valid()
      ensures match Refusal(old(Value()), d)
              case Some(rejection) => r == Err(rejection) && Value() == old(Value())
              case None =>
                && r == Ok(())
                && Value() == Accept(old(Value()), QueuedWork(d, value, enqueuedAtMs, Max(tenantWeight, 1)))
    {
      var itemBytes := d.EstimatedBytes();
      if len >= config.maxQueued || SatAdd(bytes, itemBytes, U64_MAX) > config.maxQueuedBytes {
        return Err(GlobalFull);
      }
      var classDepth := if d.class_ in queues then |queues[d.class_]| else 0;
      if classDepth >= config.capacity.Of(d.class_) {
        return Err(ClassFull);
      }
      var tenantDepth := if d.tenantId in tenantDepths then tenantDepths[d.tenantId] else 0;
      if tenantDepth >= config.maxQueuedPerTenant {
        return Err(TenantFull);
      }
      if d.class_ in queues {
        var item := QueuedWork(d, value, enqueuedAtMs, Max(tenantWeight, 1));
        queues := queues[d.class_ := queues[d.class_] + [item]];
      }
      tenantDepths := tenantDepths[d.tenantId := tenantDepth + 1];
      len := len + 1;
      bytes := SatAdd(bytes, itemBytes, U64_MAX);
      return Ok(());
    }

    /** Walks the schedule from the cursor to the next class with work, at most once around. */
    method ScheduledClass() returns (found: Option<WorkClass>)
      requires Valid()
      modifies this`cursor
      ensures Valid()
      ensures (cursor, found) == Scan(old(Value()), old(cursor), |schedule|)
    {
      ghost var q := Value();
      var i := 0;
      while i < |schedule|
        invariant Valid() && 0 <= i <= |schedule|
        invariant Scan(q, old(cursor), |schedule|) == Scan(q, cursor, |schedule| - i)
      {
        var c := schedule[cursor];
        FollowingIsModulo(cursor, |schedule|);
        cursor := (cursor + 1) % |schedule|;
        if c in queues && |queues[c]| > 0 {
          return Some(c);
        }
        i := i + 1;
      }
      return None;
    }

    method RecordDequeue(c: WorkClass, item: QueuedWork<T>)
      requires Valid()
      modifies this
      ensures Valid() && Value() == Record(old(Value()), c, item)
    {
      var t := item.Tenant();
      var nextRun := if c in tenantRun && tenantRun[c].0 == t then SatAdd(tenantRun[c].1, 1, U16_MAX) else 1;
      tenantRun := tenantRun[c := (t, nextRun)];
      if t in tenantDepths {
        var depth := SatSub(tenantDepths[t], 1);
        if depth == 0 {
          tenantDepths := tenantDepths - {t};
        } else {
          tenantDepths := tenantDepths[t := depth];
        }
      }
      len := SatSub(len, 1);
      bytes := SatSub(bytes, item.descriptor.EstimatedBytes());
      assert t !in old(tenantDepths) ==> tenantDepths == old(tenantDepths) - {t};
    }

    method Dequeue(nowMs: u64) returns (r: Option<QueuedWork<T>>)
      requires Valid()
      modifies this
      ensures Valid()
      ensures (Value(), r) == Fairness.Dequeue(old(Value()), nowMs)
    {
      var class_ := AgedClass(Value(), nowMs);
      if class_.None? {
        class_ := ScheduledClass();
      }
      if class_.None? {
        return None;
      }
      var c := class_.value;
      var index := TenantFairIndex(Value(), c);
      assert TenantFairIndex(Value(), c) == TenantFairIndex(old(Value()), c);
      var item := queues[c][index];
      queues := queues[c := Without(queues[c], index)];
      RecordDequeue(c, item);
      return Some(item);
    }
  }
}
