/**
 * Exchanges that overlap: the cursor an exchange starts from may have been stored some time ago and
 * others may have been reconciled since (`crates/aequora-client/src/lib.rs`, with the reference store
 * of `crates/aequora-testkit/src/lib.rs`).
 */
module ClientStale {
  import opened Base
  import opened Client
  import opened ClientTheorems

  /** A server journal: changes in strictly increasing order of sequence. */
  ghost predicate Journal(journal: seq<Change>) {
    forall i, j :: 0 <= i < j < |journal| ==> journal[i].sequence < journal[j].sequence
  }

  /** The changes after sequence `a` up to and including `b`. */
  function Slice(journal: seq<Change>, a: u64, b: u64): seq<Change> {
    if journal == [] then []
    else
      var n := |journal| - 1;
      Slice(journal[..n], a, b) + if a < journal[n].sequence <= b then [journal[n]] else []
  }

  lemma {:induction false} SliceMembers(journal: seq<Change>, a: u64, b: u64, c: Change)
    ensures c in Slice(journal, a, b) <==> c in journal && a < c.sequence <= b
  {
    if journal == [] {
    } else {
      SliceMembers(journal[..|journal| - 1], a, b, c);
      assert journal == journal[..|journal| - 1] + [journal[|journal| - 1]];
    }
  }

  lemma {:induction false} SliceAscends(journal: seq<Change>, a: u64, b: u64)
    requires Journal(journal)
    ensures Journal(Slice(journal, a, b))
  {
    if journal == [] {
    } else {
      var n := |journal| - 1;
      var front := Slice(journal[..n], a, b);
      SliceAscends(journal[..n], a, b);
      forall i | 0 <= i < |front| ensures front[i].sequence < journal[n].sequence {
        SliceMembers(journal[..n], a, b, front[i]);
      }
    }
  }

  lemma {:induction false} SliceEmpty(journal: seq<Change>, a: u64, b: u64)
    requires forall i :: 0 <= i < |journal| ==> journal[i].sequence <= a
    ensures Slice(journal, a, b) == []
  {
    if journal == [] {
    } else {
      SliceEmpty(journal[..|journal| - 1], a, b);
    }
  }

  lemma {:induction false} SliceSplit(journal: seq<Change>, a: u64, m: u64, b: u64)
    requires Journal(journal) && a <= m <= b
    ensures Slice(journal, a, b) == Slice(journal, a, m) + Slice(journal, m, b)
  {
    if journal == [] {
    } else {
      var n := |journal| - 1;
      SliceSplit(journal[..n], a, m, b);
      if journal[n].sequence <= m {
        SliceEmpty(journal[..n], m, b);
      }
    }
  }

  // ---------------------------------------------------------------------------------------------
  // Applying changes again
  // ---------------------------------------------------------------------------------------------

  lemma {:induction false} ApplyJoin(s: Local, a: seq<Change>, b: seq<Change>)
    ensures ApplyAll(s, a + b) == ApplyAll(ApplyAll(s, a), b)
  {
    if b == [] {
      assert a + b == a;
    } else {
      assert (a + b)[..|a + b| - 1] == a + b[..|b| - 1];
      ApplyJoin(s, a, b[..|b| - 1]);
    }
  }

  /** Changes that were all processed before have no effect. */
  lemma {:induction false} ApplySeen(s: Local, changes: seq<Change>)
    requires forall c :: c in changes ==> c.sequence in s.processed
    ensures ApplyAll(s, changes) == s
  {
    if changes == [] {
    } else {
      ApplySeen(s, changes[..|changes| - 1]);
    }
  }

  lemma {:induction false} ApplyMarks(s: Local, changes: seq<Change>)
    ensures s.processed <= ApplyAll(s, changes).processed
    ensures forall c :: c in changes ==> c.sequence in ApplyAll(s, changes).processed
  {
    if changes == [] {
    } else {
      ApplyMarks(s, changes[..|changes| - 1]);
      assert changes == changes[..|changes| - 1] + [changes[|changes| - 1]];
    }
  }

  /** Changes beyond everything processed are all applied. */
  lemma ApplyFresh(s: Local, cursor: u64, beyond: seq<Change>, end: u64)
    requires Journal(beyond) && Behind(s.processed, cursor) && cursor <= end
    requires forall c :: c in beyond ==> cursor < c.sequence <= end
    ensures ApplyAll(s, beyond).entities == Replay(s.entities, beyond)
    ensures Behind(ApplyAll(s, beyond).processed, end)
  {
    var last := Reached(cursor, beyond, |beyond|);
    assert Increasing(cursor, beyond, last) by {
      assert forall i :: 0 <= i < |beyond| ==> beyond[i] in beyond;
    }
    ApplyIsReplay(s, cursor, beyond, |beyond|, last);
    assert beyond[..|beyond|] == beyond;
  }

  // ---------------------------------------------------------------------------------------------
  // Runs
  // ---------------------------------------------------------------------------------------------

  lemma StepMovesCursorOn(cfg: Config, s: Local, e: Exchange)
    ensures StartSequence(s.cursor) <= StartSequence(Step(cfg, s, e).cursor)
  {
    if Accepted(cfg, s, e) {
      StepCursor(cfg, s, e);
    }
  }

  /** Whatever cursors the exchanges start from, the stored cursor never goes back. */
  lemma {:induction false} CursorNeverGoesBack(cfg: Config, s: Local, exchanges: seq<Exchange>, m: nat)
    requires m <= |exchanges|
    ensures StartSequence(Run(cfg, s, exchanges[..m]).cursor) <= StartSequence(Run(cfg, s, exchanges).cursor)
    decreases |exchanges|
  {
    var n := |exchanges|;
    if m == n {
      assert exchanges[..n] == exchanges;
    } else {
      assert exchanges[..n - 1][..m] == exchanges[..m];
      CursorNeverGoesBack(cfg, s, exchanges[..n - 1], m);
      StepMovesCursorOn(cfg, Run(cfg, s, exchanges[..n - 1]), exchanges[n - 1]);
    }
  }

  /** The replica is what the journal makes of `origin`, from its cursor up to the stored one. */
  ghost predicate Mirrors(journal: seq<Change>, origin: Local, s: Local) {
    var start, end := StartSequence(origin.cursor), StartSequence(s.cursor);
    && start <= end
    && s.entities == Replay(origin.entities, Slice(journal, start, end))
    && Behind(s.processed, end)
    && (forall c :: c in journal && start < c.sequence <= end ==> c.sequence in s.processed)
  }

  /** The server answered from this journal, starting where the exchange did. */
  ghost predicate Honest(journal: seq<Change>, e: Exchange) {
    e.response.changes == Slice(journal, StartSequence(e.loaded), e.response.nextCursor.sequence)
  }

  /** Of an honest answer only the part beyond the stored cursor takes effect. */
  lemma OnlyNewTakesEffect(journal: seq<Change>, origin: Local, s: Local, e: Exchange)
    requires Journal(journal) && Mirrors(journal, origin, s) && Honest(journal, e)
    requires StartSequence(origin.cursor) <= StartSequence(e.loaded) <= StartSequence(s.cursor)
    requires StartSequence(s.cursor) <= e.response.nextCursor.sequence
    ensures var end := StartSequence(s.cursor);
            ApplyAll(Settle(s, e.response), e.response.changes)
            == ApplyAll(Settle(s, e.response), Slice(journal, end, e.response.nextCursor.sequence))
  {
    var from, end, next := StartSequence(e.loaded), StartSequence(s.cursor), e.response.nextCursor.sequence;
    var seen, beyond := Slice(journal, from, end), Slice(journal, end, next);
    SliceSplit(journal, from, end, next);
    ApplyJoin(Settle(s, e.response), seen, beyond);
    forall c | c in seen ensures c.sequence in s.processed {
      SliceMembers(journal, from, end, c);
    }
    ApplySeen(Settle(s, e.response), seen);
  }

  lemma StaleStepMirrors(cfg: Config, journal: seq<Change>, origin: Local, s: Local, e: Exchange)
    requires Journal(journal) && Mirrors(journal, origin, s) && Honest(journal, e) && Accepted(cfg, s, e)
    requires StartSequence(origin.cursor) <= StartSequence(e.loaded) <= StartSequence(s.cursor)
    ensures Mirrors(journal, origin, Step(cfg, s, e))
  {
    var start, end, next := StartSequence(origin.cursor), StartSequence(s.cursor), e.response.nextCursor.sequence;
    StepMovesCursorOn(cfg, s, e);
    StepCursor(cfg, s, e);
    OnlyNewTakesEffect(journal, origin, s, e);
    var settled, beyond := Settle(s, e.response), Slice(journal, end, next);
    SliceAscends(journal, end, next);
    forall c ensures c in beyond <==> c in journal && end < c.sequence <= next {
      SliceMembers(journal, end, next, c);
    }
    ApplyFresh(settled, end, beyond, next);
    ApplyMarks(settled, beyond);
    SliceSplit(journal, start, end, next);
    ReplayJoin(origin.entities, Slice(journal, start, end), beyond);
  }

  /**
   * However exchanges overlap, as long as each starts from a cursor that was stored at some time
   * and the server answers from one journal, the replica is always exactly the journal up to the
   * stored cursor: nothing is lost, repeated or reordered.
   */
  lemma {:induction false} OverlappingExchangesConverge(
    cfg: Config, journal: seq<Change>, s: Local, exchanges: seq<Exchange>)
    requires Journal(journal) && LoadedBefore(cfg, s, exchanges) && Behind(s.processed, StartSequence(s.cursor))
    requires forall n :: 0 <= n < |exchanges| ==> Honest(journal, exchanges[n])
    ensures Mirrors(journal, s, Run(cfg, s, exchanges))
    decreases |exchanges|
  {
    if exchanges == [] {
      StartMirrors(journal, s);
    } else {
      var n := |exchanges| - 1;
      var before, e := Run(cfg, s, exchanges[..n]), exchanges[n];
      LoadedFront(cfg, s, exchanges, n);
      OverlappingExchangesConverge(cfg, journal, s, exchanges[..n]);
      if Accepted(cfg, before, e) {
        LoadedInRange(cfg, s, exchanges, n);
        StaleStepMirrors(cfg, journal, s, before, e);
      }
    }
  }

  lemma {:induction false} NothingBetween(journal: seq<Change>, a: u64)
    ensures Slice(journal, a, a) == []
  {
    if journal == [] {
    } else {
      NothingBetween(journal[..|journal| - 1], a);
    }
  }

  lemma StartMirrors(journal: seq<Change>, s: Local)
    requires Behind(s.processed, StartSequence(s.cursor))
    ensures Mirrors(journal, s, s)
  {
    NothingBetween(journal, StartSequence(s.cursor));
  }

  /** A cursor that was stored earlier lies between the starting one and the stored one. */
  lemma LoadedInRange(cfg: Config, s: Local, exchanges: seq<Exchange>, n: nat)
    requires LoadedBefore(cfg, s, exchanges) && n < |exchanges|
    ensures StartSequence(s.cursor) <= StartSequence(exchanges[n].loaded)
    ensures StartSequence(exchanges[n].loaded) <= StartSequence(Run(cfg, s, exchanges[..n]).cursor)
  {
    assert LoadedAt(cfg, s, exchanges, n);
    var m :| 0 <= m <= n && exchanges[n].loaded == Run(cfg, s, exchanges[..m]).cursor;
    assert exchanges[..n][..m] == exchanges[..m] && exchanges[..m][..0] == [];
    CursorNeverGoesBack(cfg, s, exchanges[..n], m);
    CursorNeverGoesBack(cfg, s, exchanges[..m], 0);
  }
}
