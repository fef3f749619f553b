/**
 * What any number of exchanges does to the local replica between two bootstraps
 * (`crates/aequora-client/src/lib.rs`).
 */
module ClientTheorems {
  import opened Base
  import opened Client

  /** One exchange: the cursor the client had loaded, and what came back. */
  datatype Exchange = Exchange(loaded: Option<Cursor>, response: Response, submitted: seq<OpId>, fenceHeld: bool)

  ghost predicate Accepted(cfg: Config, s: Local, e: Exchange) {
    Acceptable(cfg, e.loaded, e.response, e.submitted) && e.fenceHeld && StoreAccepts(s, e.response)
  }

  ghost function Step(cfg: Config, s: Local, e: Exchange): Local {
    if Accepted(cfg, s, e) then StoreReconcile(s, e.response) else s
  }

  ghost function Run(cfg: Config, s: Local, exchanges: seq<Exchange>): Local {
    if exchanges == [] then s
    else Step(cfg, Run(cfg, s, exchanges[..|exchanges| - 1]), exchanges[|exchanges| - 1])
  }

  /** All changes that accepted responses applied, in order. */
  ghost function Applied(cfg: Config, s: Local, exchanges: seq<Exchange>): seq<Change> {
    if exchanges == [] then []
    else
      var n := |exchanges| - 1;
      Applied(cfg, s, exchanges[..n])
      + if Accepted(cfg, Run(cfg, s, exchanges[..n]), exchanges[n]) then exchanges[n].response.changes else []
  }

  /** Every exchange starts from the cursor that is stored when it is reconciled. */
  ghost predicate Serial(cfg: Config, s: Local, exchanges: seq<Exchange>) {
    forall n :: 0 <= n < |exchanges| ==> exchanges[n].loaded == Run(cfg, s, exchanges[..n]).cursor
  }

  lemma SerialFront(cfg: Config, s: Local, exchanges: seq<Exchange>)
    requires exchanges != [] && Serial(cfg, s, exchanges)
    ensures Serial(cfg, s, exchanges[..|exchanges| - 1])
  {
    var front := exchanges[..|exchanges| - 1];
    forall n | 0 <= n < |front| ensures front[n].loaded == Run(cfg, s, front[..n]).cursor {
      assert front[..n] == exchanges[..n] && front[n] == exchanges[n];
    }
  }

  /** Every exchange starts from a cursor that was stored at that time or earlier. */
  ghost predicate LoadedBefore(cfg: Config, s: Local, exchanges: seq<Exchange>) {
    forall n :: 0 <= n < |exchanges| ==> LoadedAt(cfg, s, exchanges, n)
  }

  ghost predicate LoadedAt(cfg: Config, s: Local, exchanges: seq<Exchange>, n: nat)
    requires n < |exchanges|
  {
    exists m :: 0 <= m <= n && exchanges[n].loaded == Run(cfg, s, exchanges[..m]).cursor
  }

  lemma LoadedFront(cfg: Config, s: Local, exchanges: seq<Exchange>, k: nat)
    requires LoadedBefore(cfg, s, exchanges) && k <= |exchanges|
    ensures LoadedBefore(cfg, s, exchanges[..k])
  {
    var front := exchanges[..k];
    forall n | 0 <= n < k ensures LoadedAt(cfg, s, front, n) {
      assert LoadedAt(cfg, s, exchanges, n);
      var m :| 0 <= m <= n && exchanges[n].loaded == Run(cfg, s, exchanges[..m]).cursor;
      assert front[..m] == exchanges[..m];
    }
  }

  // ---------------------------------------------------------------------------------------------
  // Sequences
  // ---------------------------------------------------------------------------------------------

  lemma IncreasingJoin(start: u64, a: seq<Change>, mid: u64, b: seq<Change>, end: u64)
    requires Increasing(start, a, mid) && Increasing(mid, b, end)
    ensures Increasing(start, a + b, end)
  {
    assert start <= mid <= end;
  }

  lemma {:induction false} ApplyKeepsCursor(s: Local, changes: seq<Change>)
    ensures ApplyAll(s, changes).cursor == s.cursor
    ensures ApplyAll(s, changes).outbox == s.outbox && ApplyAll(s, changes).pending == s.pending
    ensures ApplyAll(s, changes).rejections == s.rejections && ApplyAll(s, changes).conflicts == s.conflicts
  {
    if changes == [] {
    } else {
      ApplyKeepsCursor(s, changes[..|changes| - 1]);
    }
  }

  lemma StepCursor(cfg: Config, s: Local, e: Exchange)
    requires Accepted(cfg, s, e)
    ensures Step(cfg, s, e).cursor == Some(e.response.nextCursor)
    ensures Increasing(StartSequence(e.loaded), e.response.changes, e.response.nextCursor.sequence)
  {
  }

  /**
   * Over every serial run the applied sequences strictly increase from the starting cursor across
   * all exchanges, and the stored cursor is the last applied sequence, or the starting one if none.
   */
  lemma {:induction false} SequencesIncrease(cfg: Config, s: Local, exchanges: seq<Exchange>)
    requires Serial(cfg, s, exchanges)
    ensures Increasing(StartSequence(s.cursor), Applied(cfg, s, exchanges),
                       StartSequence(Run(cfg, s, exchanges).cursor))
  {
    if exchanges == [] {
    } else {
      var n := |exchanges| - 1;
      SerialFront(cfg, s, exchanges);
      var before := Run(cfg, s, exchanges[..n]);
      SequencesIncrease(cfg, s, exchanges[..n]);
      if Accepted(cfg, before, exchanges[n]) {
        StepCursor(cfg, before, exchanges[n]);
        IncreasingJoin(StartSequence(s.cursor), Applied(cfg, s, exchanges[..n]), StartSequence(before.cursor),
                       exchanges[n].response.changes, exchanges[n].response.nextCursor.sequence);
      }
    }
  }

  /** No sequence number is applied twice, and none at or below the starting cursor. */
  lemma NothingAppliedTwice(cfg: Config, s: Local, exchanges: seq<Exchange>, i: nat, j: nat)
    requires Serial(cfg, s, exchanges) && i < j < |Applied(cfg, s, exchanges)|
    ensures StartSequence(s.cursor) < Applied(cfg, s, exchanges)[i].sequence < Applied(cfg, s, exchanges)[j].sequence
  {
    SequencesIncrease(cfg, s, exchanges);
  }

  // ---------------------------------------------------------------------------------------------
  // Timeline
  // ---------------------------------------------------------------------------------------------

  ghost predicate SameTimeline(a: Cursor, b: Cursor) {
    a.epoch == b.epoch && (a.authorityId != LEGACY_UNBOUND ==> b.authorityId == a.authorityId)
  }

  /** Once there is a cursor, no exchange changes its epoch or a bound authority, however stale the exchange. */
  lemma {:induction false} TimelineIsFixed(cfg: Config, s: Local, exchanges: seq<Exchange>)
    requires s.cursor.Some? && LoadedBefore(cfg, s, exchanges)
    ensures Run(cfg, s, exchanges).cursor.Some?
    ensures SameTimeline(s.cursor.value, Run(cfg, s, exchanges).cursor.value)
    decreases |exchanges|
  {
    if exchanges == [] {
    } else {
      var n := |exchanges| - 1;
      LoadedFront(cfg, s, exchanges, n);
      TimelineIsFixed(cfg, s, exchanges[..n]);
      var before := Run(cfg, s, exchanges[..n]);
      if Accepted(cfg, before, exchanges[n]) {
        StepCursor(cfg, before, exchanges[n]);
        assert LoadedAt(cfg, s, exchanges, n);
        var m :| 0 <= m <= n && exchanges[n].loaded == Run(cfg, s, exchanges[..m]).cursor;
        LoadedFront(cfg, s, exchanges, m);
        TimelineIsFixed(cfg, s, exchanges[..m]);
      }
    }
  }

  // ---------------------------------------------------------------------------------------------
  // The replica is a replay of the journal
  // ---------------------------------------------------------------------------------------------

  /** Entity state after the changes, applying every one of them. */
  function Replay(entities: map<nat, Entity>, changes: seq<Change>): map<nat, Entity> {
    if changes == [] then entities
    else
      var last := changes[|changes| - 1];
      Replay(entities, changes[..|changes| - 1])[last.entity := Entity(last.version, last.payload, last.tombstone)]
  }

  /** No sequence beyond the cursor has been processed. */
  ghost predicate Behind(processed: set<u64>, sequence: u64) {
    forall x :: x in processed ==> x <= sequence
  }

  lemma {:induction false} ApplyIsReplay(s: Local, start: u64, changes: seq<Change>, n: nat, end: u64)
    requires Increasing(start, changes, end) && Behind(s.processed, start) && n <= |changes|
    ensures var after := ApplyAll(s, changes[..n]);
            && after.entities == Replay(s.entities, changes[..n])
            && Behind(after.processed, Reached(start, changes, n))
    decreases n
  {
    if n == 0 {
    } else {
      ApplyIsReplay(s, start, changes, n - 1, end);
      assert changes[..n][..n - 1] == changes[..n - 1];
    }
  }

  lemma {:induction false} ReplayJoin(entities: map<nat, Entity>, a: seq<Change>, b: seq<Change>)
    ensures Replay(entities, a + b) == Replay(Replay(entities, a), b)
  {
    if b == [] {
      assert a + b == a;
    } else {
      ReplayJoin(entities, a, b[..|b| - 1]);
      assert (a + b)[..|a + b| - 1] == a + b[..|b| - 1];
    }
  }

  lemma {:induction false} ApplyIgnoresRest(s: Local, t: Local, changes: seq<Change>)
    requires s.processed == t.processed && s.entities == t.entities
    ensures ApplyAll(s, changes).processed == ApplyAll(t, changes).processed
    ensures ApplyAll(s, changes).entities == ApplyAll(t, changes).entities
  {
    if changes == [] {
    } else {
      ApplyIgnoresRest(s, t, changes[..|changes| - 1]);
    }
  }

  lemma StepIsReplay(cfg: Config, s: Local, e: Exchange)
    requires Accepted(cfg, s, e) && e.loaded == s.cursor && Behind(s.processed, StartSequence(s.cursor))
    ensures var after := Step(cfg, s, e);
            && after.entities == Replay(s.entities, e.response.changes)
            && Behind(after.processed, StartSequence(after.cursor))
  {
    var changes := e.response.changes;
    StepCursor(cfg, s, e);
    ApplyIsReplay(s, StartSequence(s.cursor), changes, |changes|, e.response.nextCursor.sequence);
    assert changes[..|changes|] == changes;
    ApplyIgnoresRest(Settle(s, e.response), s, changes);
  }

  /**
   * Starting from a replica that has processed nothing beyond its cursor, after every serial run
   * the entities are exactly the replay of all applied changes in order, each taken once.
   */
  lemma {:induction false} ReplicaIsReplay(cfg: Config, s: Local, exchanges: seq<Exchange>)
    requires Serial(cfg, s, exchanges) && Behind(s.processed, StartSequence(s.cursor))
    ensures Run(cfg, s, exchanges).entities == Replay(s.entities, Applied(cfg, s, exchanges))
    ensures Behind(Run(cfg, s, exchanges).processed, StartSequence(Run(cfg, s, exchanges).cursor))
  {
    if exchanges == [] {
    } else {
      var n := |exchanges| - 1;
      var before := Run(cfg, s, exchanges[..n]);
      SerialFront(cfg, s, exchanges);
      ReplicaIsReplay(cfg, s, exchanges[..n]);
      if Accepted(cfg, before, exchanges[n]) {
        StepIsReplay(cfg, before, exchanges[n]);
        ReplayJoin(s.entities, Applied(cfg, s, exchanges[..n]), exchanges[n].response.changes);
      } else {
        assert Applied(cfg, s, exchanges) == Applied(cfg, s, exchanges[..n]);
      }
    }
  }

  // ---------------------------------------------------------------------------------------------
  // Submitted operations
  // ---------------------------------------------------------------------------------------------

  function Reports(response: Response, op: OpId): nat {
    multiset(response.acknowledged)[op] + multiset(response.rejected)[op] + multiset(response.conflicts)[op]
  }

  lemma {:induction false} CountDistinct(s: seq<OpId>, x: OpId)
    requires NoDups(s)
    ensures multiset(s)[x] == if x in s then 1 else 0
  {
    if s == [] {
    } else {
      var n := |s| - 1;
      CountDistinct(s[..n], x);
      assert s == s[..n] + [s[n]];
    }
  }

  /** An accepted response reports each submitted operation exactly once, in one of its three lists. */
  lemma EachOperationSettledOnce(cfg: Config, s: Local, e: Exchange, op: OpId)
    requires Accepted(cfg, s, e)
    ensures Reports(e.response, op) == if op in e.submitted then 1 else 0
  {
    CountDistinct(e.response.Results(), op);
  }

  lemma {:induction false} UnsettledMembers(pending: seq<OpId>, terminal: set<OpId>, op: OpId)
    ensures op in Unsettled(pending, terminal) <==> op in pending && op !in terminal
  {
    if pending == [] {
    } else {
      UnsettledMembers(pending[..|pending| - 1], terminal, op);
      assert pending == pending[..|pending| - 1] + [pending[|pending| - 1]];
    }
  }

  /** The store records the one outcome, drops the operation from the queue, and touches no other. */
  lemma OutcomeIsRecorded(cfg: Config, s: Local, e: Exchange, op: OpId)
    requires Accepted(cfg, s, e)
    ensures var after := Step(cfg, s, e);
            && (op in e.response.acknowledged ==> op in after.outbox && after.outbox[op] == Acknowledged)
            && (op in e.response.rejected ==> op in after.outbox && after.outbox[op] == Rejected)
            && (op in e.response.conflicts ==> op in after.outbox && after.outbox[op] == Conflict)
            && (op in after.pending <==> op in s.pending && op !in e.submitted)
            && after.rejections == s.rejections + e.response.rejected
            && after.conflicts == s.conflicts + e.response.conflicts
            && (op !in e.submitted ==> (op in after.outbox <==> op in s.outbox)
                                       && (op in s.outbox ==> after.outbox[op] == s.outbox[op]))
  {
    var response := e.response;
    ApplyKeepsCursor(Settle(s, response), response.changes);
    UnsettledMembers(s.pending, response.Terminal(), op);
    assert op in response.Results() <==> op in e.submitted;
    OneListOnly(response, op);
  }

  lemma OneListOnly(response: Response, op: OpId)
    requires NoDups(response.Results())
    ensures op in response.acknowledged ==> op !in response.rejected && op !in response.conflicts
    ensures op in response.rejected ==> op !in response.conflicts
  {
    CountDistinct(response.Results(), op);
    assert multiset(response.Results())
      == multiset(response.acknowledged) + multiset(response.rejected) + multiset(response.conflicts);
  }
}
