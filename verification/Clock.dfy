/**
 * Hybrid logical clocks (`crates/aequora-clock`).
 *
 * One clock is a mutable (physical, logical) pair. The theorems are about a whole network: any
 * number of clocks, any interleaving of local events and observations of stamps emitted earlier,
 * and arbitrary wall-clock readings.
 */
module Clock {
  import opened Base

  /** What `wall_ms` can return: a non-negative 64-bit count of milliseconds. */
  type Millis = x: int | 0 <= x <= I64_MAX

  datatype Reading = Reading(physical: int, logical: u32)

  datatype Stamp = Stamp(physical: int, logical: u32, node: nat)

  /** The first two fields of the derived order on stamps, compared lexicographically. */
  predicate Before(a: Stamp, b: Stamp) {
    a.physical < b.physical || (a.physical == b.physical && a.logical < b.logical)
  }

  function NowReading(s: Reading, wall: Millis): Reading {
    if wall > s.physical then Reading(wall, 0)
    else Reading(s.physical, SatAdd(s.logical, 1, U32_MAX))
  }

  function ObserveReading(s: Reading, wall: Millis, remote: Stamp): Reading {
    var physical := Max(Max(wall, s.physical), remote.physical);
    var logical :=
      if physical == s.physical && physical == remote.physical then
        SatAdd(Max(s.logical, remote.logical), 1, U32_MAX)
      else if physical == s.physical then SatAdd(s.logical, 1, U32_MAX)
      else if physical == remote.physical then SatAdd(remote.logical, 1, U32_MAX)
      else 0;
    Reading(physical, logical)
  }

  class SystemClock {
    const node: nat
    var state: Reading

    constructor (node: nat)
      ensures this.node == node && state == Reading(0, 0)
    {
      this.node := node;
      state := Reading(0, 0);
    }

    method Now(wall: Millis) returns (stamp: Stamp)
      modifies this
      ensures state == NowReading(old(state), wall)
      ensures stamp == Stamp(state.physical, state.logical, node)
    {
      if wall > state.physical {
        state := Reading(wall, 0);
      } else {
        state := state.(logical := SatAdd(state.logical, 1, U32_MAX));
      }
      stamp := Stamp(state.physical, state.logical, node);
    }

    method Observe(wall: Millis, remote: Stamp) returns (stamp: Stamp)
      modifies this
      ensures state == ObserveReading(old(state), wall, remote)
      ensures stamp == Stamp(state.physical, state.logical, node)
    {
      var physical := Max(Max(wall, state.physical), remote.physical);
      var logical: u32 := 0;
      if physical == state.physical && physical == remote.physical {
        logical := SatAdd(Max(state.logical, remote.logical), 1, U32_MAX);
      } else if physical == state.physical {
        logical := SatAdd(state.logical, 1, U32_MAX);
      } else if physical == remote.physical {
        logical := SatAdd(remote.logical, 1, U32_MAX);
      }
      state := Reading(physical, logical);
      stamp := Stamp(physical, logical, node);
    }
  }

  // ---------------------------------------------------------------------------------------------
  // Executions of a network of clocks
  // ---------------------------------------------------------------------------------------------

  /** `Observed(n, w, i)`: node `n` receives the stamp emitted by event `i` of the execution. */
  datatype Event =
    | Local(node: nat, wall: Millis)
    | Observed(node: nat, wall: Millis, source: nat)

  /** An execution: every observation refers to an earlier event. */
  ghost predicate Execution(events: seq<Event>) {
    forall i :: 0 <= i < |events| && events[i].Observed? ==> events[i].source < i
  }

  function Latest(events: seq<Event>, node: nat, n: nat): (r: int)
    requires n <= |events|
    ensures -1 <= r < n
    ensures r >= 0 ==> events[r].node == node
    ensures forall i :: r < i < n ==> events[i].node != node
  {
    if n == 0 then -1
    else if events[n - 1].node == node then n - 1
    else Latest(events, node, n - 1)
  }

  /** The state a node holds just before event `n`: what its last event left, or (0, 0). */
  function StateBefore(events: seq<Event>, n: nat, node: nat): Reading
    requires Execution(events) && n <= |events|
    decreases n, 1
  {
    var last := Latest(events, node, n);
    if last < 0 then Reading(0, 0)
    else
      var s := Emitted(events, last);
      Reading(s.physical, s.logical)
  }

  /** The stamp that event `i` emits. */
  function Emitted(events: seq<Event>, i: nat): Stamp
    requires Execution(events) && i < |events|
    decreases i, 2
  {
    var e := events[i];
    var before := StateBefore(events, i, e.node);
    var after := match e
      case Local(_, wall) => NowReading(before, wall)
      case Observed(_, wall, source) => ObserveReading(before, wall, Emitted(events, source));
    Stamp(after.physical, after.logical, e.node)
  }

  /** Program order on one node, or a stamp passed from one event to another. */
  predicate Edge(events: seq<Event>, i: nat, j: nat) {
    i < j < |events| &&
    (events[i].node == events[j].node || (events[j].Observed? && events[j].source == i))
  }

  /** A chain of edges; happens-before is the existence of one between two events. */
  ghost predicate Chain(events: seq<Event>, path: seq<nat>) {
    |path| >= 2 && forall k :: 0 <= k < |path| - 1 ==> Edge(events, path[k], path[k + 1])
  }

  ghost predicate HappensBefore(events: seq<Event>, i: nat, j: nat) {
    exists path: seq<nat> :: Chain(events, path) && path[0] == i && path[|path| - 1] == j
  }

  /** The largest wall reading among the first `n` events, starting from 0. */
  function HighestWall(events: seq<Event>, n: nat): int
    requires n <= |events|
  {
    if n == 0 then 0 else Max(events[n - 1].wall, HighestWall(events, n - 1))
  }

  lemma {:induction false} HighestWallGrows(events: seq<Event>, m: nat, n: nat)
    requires m <= n <= |events|
    ensures HighestWall(events, m) <= HighestWall(events, n)
  {
    if m == n {
    } else {
      HighestWallGrows(events, m, n - 1);
    }
  }

  /**
   * No logical counter outruns the number of events, so none saturates in fewer than 2^32 events;
   * no physical part is ahead of every wall clock.
   */
  lemma {:induction false} StampBounds(events: seq<Event>, i: nat)
    requires Execution(events) && i < |events|
    ensures Emitted(events, i).logical <= i + 1
    ensures 0 <= Emitted(events, i).physical <= HighestWall(events, i + 1)
    decreases i
  {
    var e := events[i];
    var last := Latest(events, e.node, i);
    if last >= 0 {
      StampBounds(events, last);
      HighestWallGrows(events, last + 1, i + 1);
    }
    if e.Observed? {
      StampBounds(events, e.source);
      HighestWallGrows(events, e.source + 1, i + 1);
    }
  }

  // ---------------------------------------------------------------------------------------------
  // Causality, and exactly when it fails
  // ---------------------------------------------------------------------------------------------

  /** `b` is later than `a`, or stands on a saturated counter together with it. */
  predicate Advances(a: Stamp, b: Stamp) {
    Before(a, b) || (a.physical == b.physical && a.logical == b.logical == U32_MAX)
  }

  lemma {:induction false} SameNodeAdvances(events: seq<Event>, i: nat, j: nat)
    requires Execution(events) && i < j < |events| && events[i].node == events[j].node
    ensures Advances(Emitted(events, i), Emitted(events, j))
    decreases j
  {
    var last := Latest(events, events[j].node, j);
    if i < last {
      SameNodeAdvances(events, i, last);
    }
  }

  lemma EdgeAdvances(events: seq<Event>, i: nat, j: nat)
    requires Execution(events) && Edge(events, i, j)
    ensures Advances(Emitted(events, i), Emitted(events, j))
  {
    if events[i].node == events[j].node {
      SameNodeAdvances(events, i, j);
    }
  }

  lemma ChainFront(events: seq<Event>, path: seq<nat>)
    requires Chain(events, path)
    ensures Edge(events, path[|path| - 2], path[|path| - 1])
    ensures |path| > 2 ==> Chain(events, path[..|path| - 1])
  {
    var front := path[..|path| - 1];
    forall k | 0 <= k < |front| - 1 ensures Edge(events, front[k], front[k + 1]) {
      assert Edge(events, path[k], path[k + 1]);
    }
    assert Edge(events, path[|path| - 2], path[|path| - 2 + 1]);
  }

  lemma {:induction false} ChainAdvances(events: seq<Event>, path: seq<nat>)
    requires Execution(events) && Chain(events, path)
    ensures path[0] < |events| && path[|path| - 1] < |events|
    ensures Advances(Emitted(events, path[0]), Emitted(events, path[|path| - 1]))
    decreases |path|
  {
    ChainFront(events, path);
    EdgeAdvances(events, path[|path| - 2], path[|path| - 1]);
    if |path| > 2 {
      ChainAdvances(events, path[..|path| - 1]);
    }
  }

  /**
   * In every execution of any length, an event that happens before another has a smaller stamp
   * unless, and only unless, its counter is saturated and the other has the same physical part.
   */
  lemma OrderedUnlessSaturated(events: seq<Event>, i: nat, j: nat)
    requires Execution(events) && HappensBefore(events, i, j)
    ensures i < |events| && j < |events|
    ensures var a, b := Emitted(events, i), Emitted(events, j);
            Before(a, b) <==> !(a.physical == b.physical && a.logical == U32_MAX)
  {
    var path: seq<nat> :| Chain(events, path) && path[0] == i && path[|path| - 1] == j;
    ChainAdvances(events, path);
  }

  /** Event `j` has to count on from a counter that is already at its maximum. */
  predicate Stalls(events: seq<Event>, j: nat)
    requires Execution(events) && j < |events|
  {
    var e := events[j];
    var s := StateBefore(events, j, e.node);
    match e
    case Local(_, wall) => wall <= s.physical && s.logical == U32_MAX
    case Observed(_, wall, source) =>
      var r := Emitted(events, source);
      || (s.physical >= wall && s.physical >= r.physical && s.logical == U32_MAX)
      || (r.physical >= wall && r.physical >= s.physical && r.logical == U32_MAX)
  }

  /** Stamps respect happens-before. */
  ghost predicate Causal(events: seq<Event>)
    requires Execution(events)
  {
    forall i: nat, j: nat ::
      i < |events| && j < |events| && HappensBefore(events, i, j) ==> Before(Emitted(events, i), Emitted(events, j))
  }

  lemma StallBreaksEdge(events: seq<Event>, j: nat) returns (i: nat)
    requires Execution(events) && j < |events| && Stalls(events, j)
    ensures Edge(events, i, j) && !Before(Emitted(events, i), Emitted(events, j))
  {
    var e := events[j];
    var last := Latest(events, e.node, j);
    if last >= 0 && !Before(Emitted(events, last), Emitted(events, j)) {
      i := last;
    } else {
      i := e.source;
    }
  }

  lemma BrokenEdgeStalls(events: seq<Event>, i: nat, j: nat)
    requires Execution(events) && Edge(events, i, j)
    requires Emitted(events, i).physical == Emitted(events, j).physical && Emitted(events, i).logical == U32_MAX
    ensures Stalls(events, j)
  {
    if events[i].node == events[j].node {
      var last := Latest(events, events[j].node, j);
      if i < last {
        SameNodeAdvances(events, i, last);
      }
      SameNodeAdvances(events, last, j);
    }
  }

  lemma EdgeHappens(events: seq<Event>, i: nat, j: nat)
    requires Edge(events, i, j)
    ensures HappensBefore(events, i, j)
  {
    var path: seq<nat> := [i, j];
    assert Chain(events, path);
  }

  lemma UnorderedMeansStall(events: seq<Event>, i: nat, j: nat)
    requires Execution(events) && HappensBefore(events, i, j) && i < |events| && j < |events|
    requires !Before(Emitted(events, i), Emitted(events, j))
    ensures Stalls(events, j)
  {
    OrderedUnlessSaturated(events, i, j);
    var path: seq<nat> :| Chain(events, path) && path[0] == i && path[|path| - 1] == j;
    ChainFront(events, path);
    var k := path[|path| - 2];
    EdgeAdvances(events, k, j);
    if |path| > 2 {
      ChainAdvances(events, path[..|path| - 1]);
    }
    BrokenEdgeStalls(events, k, j);
  }

  /**
   * Causality holds in an execution, whatever its length and whatever the wall clocks read, if and
   * only if no event has to count on from a saturated counter.
   */
  lemma CausalIffNeverStalls(events: seq<Event>)
    requires Execution(events)
    ensures Causal(events) <==> forall j :: 0 <= j < |events| ==> !Stalls(events, j)
  {
    if j :| 0 <= j < |events| && Stalls(events, j) {
      var i := StallBreaksEdge(events, j);
      EdgeHappens(events, i, j);
    } else {
      forall i: nat, j: nat | i < |events| && j < |events| && HappensBefore(events, i, j)
        ensures Before(Emitted(events, i), Emitted(events, j))
      {
        if !Before(Emitted(events, i), Emitted(events, j)) {
          UnorderedMeansStall(events, i, j);
        }
      }
    }
  }

  lemma ShortNeverStalls(events: seq<Event>, j: nat)
    requires Execution(events) && j < |events| <= U32_MAX
    ensures !Stalls(events, j)
  {
    var last := Latest(events, events[j].node, j);
    if last >= 0 {
      StampBounds(events, last);
    }
    if events[j].Observed? {
      StampBounds(events, events[j].source);
    }
  }

  /**
   * Causality: in every execution of fewer than 2^32 events, happens-before implies a strictly
   * smaller stamp, whatever the wall clocks read.
   */
  lemma CausalityHolds(events: seq<Event>, i: nat, j: nat)
    requires Execution(events) && |events| <= U32_MAX
    requires HappensBefore(events, i, j)
    ensures i < |events| && j < |events|
    ensures Before(Emitted(events, i), Emitted(events, j))
  {
    OrderedUnlessSaturated(events, i, j);
    if !Before(Emitted(events, i), Emitted(events, j)) {
      UnorderedMeansStall(events, i, j);
      ShortNeverStalls(events, j);
    }
  }

  /** Two events share a stamp exactly when one node counts on a saturated counter from one to the other. */
  lemma StampsAreUnique(events: seq<Event>, i: nat, j: nat)
    requires Execution(events) && i < j < |events|
    ensures var a, b := Emitted(events, i), Emitted(events, j);
            a == b <==> events[i].node == events[j].node && a.physical == b.physical && a.logical == U32_MAX
    ensures |events| <= U32_MAX ==> Emitted(events, i) != Emitted(events, j)
  {
    if events[i].node == events[j].node {
      SameNodeAdvances(events, i, j);
      StampBounds(events, i);
    }
  }

  // ---------------------------------------------------------------------------------------------
  // What the two parts of a stamp mean
  // ---------------------------------------------------------------------------------------------

  /** `j` is in the causal past of `i`, itself included. */
  ghost predicate InPast(events: seq<Event>, j: nat, i: nat) {
    j == i || HappensBefore(events, j, i)
  }

  lemma PastExtends(events: seq<Event>, i: nat, j: nat, k: nat)
    requires InPast(events, i, j) && Edge(events, j, k)
    ensures InPast(events, i, k)
  {
    var path: seq<nat> := [i];
    if i != j {
      path :| Chain(events, path) && path[0] == i && path[|path| - 1] == j;
    }
    var longer := path + [k];
    forall n | 0 <= n < |longer| - 1 ensures Edge(events, longer[n], longer[n + 1]) {
      assert n < |path| - 1 ==> Edge(events, path[n], path[n + 1]);
    }
    assert Chain(events, longer);
  }

  lemma {:induction false} PhysicalComesFrom(events: seq<Event>, i: nat) returns (j: nat)
    requires Execution(events) && i < |events| && Emitted(events, i).physical > 0
    ensures j <= i && InPast(events, j, i) && events[j].wall == Emitted(events, i).physical
    decreases i
  {
    var e := events[i];
    var p := Emitted(events, i).physical;
    var last := Latest(events, e.node, i);
    if e.wall == p {
      j := i;
    } else if last >= 0 && Emitted(events, last).physical == p {
      j := PhysicalComesFrom(events, last);
      PastExtends(events, j, last, i);
    } else {
      j := PhysicalComesFrom(events, e.source);
      PastExtends(events, j, e.source, i);
    }
  }

  lemma WallIsReached(events: seq<Event>, i: nat)
    requires Execution(events) && i < |events|
    ensures events[i].wall <= Emitted(events, i).physical
  {
  }

  /** The physical part of a stamp is the largest wall reading in its causal past, or 0. */
  lemma PhysicalIsLargestWall(events: seq<Event>, i: nat)
    requires Execution(events) && i < |events|
    ensures forall j: nat :: j < |events| && InPast(events, j, i) ==> events[j].wall <= Emitted(events, i).physical
    ensures Emitted(events, i).physical == 0
            || exists j: nat :: j < |events| && InPast(events, j, i) && events[j].wall == Emitted(events, i).physical
  {
    forall j: nat | j < |events| && InPast(events, j, i) ensures events[j].wall <= Emitted(events, i).physical {
      WallIsReached(events, j);
      if j != i {
        OrderedUnlessSaturated(events, j, i);
      }
    }
    StampBounds(events, i);
    if Emitted(events, i).physical > 0 {
      var j := PhysicalComesFrom(events, i);
    }
  }

  /** A chain of events ending at `i` over which the physical part does not change. */
  ghost predicate LevelChain(events: seq<Event>, path: seq<nat>, i: nat)
    requires Execution(events) && i < |events|
  {
    && |path| >= 1 && path[|path| - 1] == i
    && (forall k :: 0 <= k < |path| ==> path[k] < |events|)
    && (forall k :: 0 <= k < |path| ==> Emitted(events, path[k]).physical == Emitted(events, i).physical)
    && (forall k :: 0 <= k < |path| - 1 ==> Edge(events, path[k], path[k + 1]))
  }

  /** Clocks start at (0, 0), as if one event had come before those whose physical part is 0. */
  function Start(s: Stamp): nat {
    if s.physical == 0 then 1 else 0
  }

  /** What a counter shows of a chain of `n` events after its start. */
  function Shown(n: nat, s: Stamp): int {
    Min(n - 1 + Start(s), U32_MAX)
  }

  lemma {:induction false} ChainWithinCounter(events: seq<Event>, path: seq<nat>, i: nat)
    requires Execution(events) && i < |events|
    requires LevelChain(events, path, i)
    ensures Shown(|path|, Emitted(events, i)) <= Emitted(events, i).logical
    decreases |path|
  {
    var n := |path| - 1;
    if n == 0 {
      if Emitted(events, i).physical == 0 {
        ZeroCounts(events, i);
      }
    } else {
      assert Edge(events, path[n - 1], path[n]);
      EdgeAdvances(events, path[n - 1], i);
      ChainWithinCounter(events, path[..n], path[n - 1]);
    }
  }

  lemma ZeroCounts(events: seq<Event>, i: nat)
    requires Execution(events) && i < |events| && Emitted(events, i).physical == 0
    ensures Emitted(events, i).logical >= 1
  {
    var last := Latest(events, events[i].node, i);
    if last >= 0 {
      StampBounds(events, last);
    }
  }

  lemma ExtendLevel(events: seq<Event>, path: seq<nat>, j: nat, i: nat)
    requires Execution(events) && i < |events| && Edge(events, j, i) && LevelChain(events, path, j)
    requires Emitted(events, j).physical == Emitted(events, i).physical
    ensures LevelChain(events, path + [i], i)
  {
    forall k | 0 <= k < |path| ensures Edge(events, (path + [i])[k], (path + [i])[k + 1]) {
      assert k < |path| - 1 ==> Edge(events, path[k], path[k + 1]);
    }
  }

  lemma {:induction false} CounterHasChain(events: seq<Event>, i: nat) returns (path: seq<nat>)
    requires Execution(events) && i < |events|
    ensures LevelChain(events, path, i)
    ensures Shown(|path|, Emitted(events, i)) == Emitted(events, i).logical
    decreases i
  {
    var e, s := events[i], Emitted(events, i);
    var last := Latest(events, e.node, i);
    if last >= 0 {
      StampBounds(events, last);
    }
    if e.Observed? {
      StampBounds(events, e.source);
      if Emitted(events, e.source).physical == 0 {
        ZeroCounts(events, e.source);
      }
    }
    if last >= 0 && CountsOn(Emitted(events, last), s) {
      path := CounterHasChain(events, last);
      ExtendLevel(events, path, last, i);
      path := path + [i];
    } else if e.Observed? && CountsOn(Emitted(events, e.source), s) {
      path := CounterHasChain(events, e.source);
      ExtendLevel(events, path, e.source, i);
      path := path + [i];
    } else {
      path := [i];
    }
  }

  /** `b` is the next count after `a` on the same physical part. */
  predicate CountsOn(a: Stamp, b: Stamp) {
    a.physical == b.physical && b.logical == SatAdd(a.logical, 1, U32_MAX)
  }

  /**
   * The logical part counts causality: it shows the number of edges of the longest chain ending at
   * the event over which the physical part stands still, as far as the counter goes.
   */
  lemma LogicalIsLongestChain(events: seq<Event>, i: nat) returns (longest: seq<nat>)
    requires Execution(events) && i < |events|
    ensures LevelChain(events, longest, i)
    ensures Emitted(events, i).logical == Shown(|longest|, Emitted(events, i))
    ensures forall path: seq<nat> :: LevelChain(events, path, i) ==>
              && Shown(|path|, Emitted(events, i)) <= Emitted(events, i).logical
              && (Emitted(events, i).logical < U32_MAX ==> |path| <= |longest|)
  {
    longest := CounterHasChain(events, i);
    forall path: seq<nat> | LevelChain(events, path, i)
      ensures Shown(|path|, Emitted(events, i)) <= Emitted(events, i).logical
    {
      ChainWithinCounter(events, path, i);
    }
  }

  // ---------------------------------------------------------------------------------------------
  // The bound on the number of events cannot be relaxed
  // ---------------------------------------------------------------------------------------------

  /** One node whose wall clock is stuck at 0. */
  function Stuck(n: nat): (events: seq<Event>)
    ensures Execution(events)
  {
    seq(n, _ => Local(0, 0))
  }

  lemma {:induction false} StuckStamp(n: nat, i: nat)
    requires i < n
    ensures Emitted(Stuck(n), i) == Stamp(0, Min(i + 1, U32_MAX), 0)
    decreases i
  {
    var last := Latest(Stuck(n), 0, i);
    if i > 0 {
      assert last == i - 1;
      StuckStamp(n, i - 1);
    }
  }

  /** With 2^32 events a counter can saturate, and then two ordered events share a stamp. */
  lemma BoundIsTight()
    ensures var events := Stuck(U32_MAX + 1);
            && |events| == U32_MAX + 1
            && HappensBefore(events, U32_MAX - 1, U32_MAX)
            && Emitted(events, U32_MAX - 1) == Emitted(events, U32_MAX)
  {
    var events := Stuck(U32_MAX + 1);
    StuckStamp(U32_MAX + 1, U32_MAX - 1);
    StuckStamp(U32_MAX + 1, U32_MAX);
    var path: seq<nat> := [U32_MAX - 1, U32_MAX];
    assert Edge(events, path[0], path[1]);
    assert Chain(events, path);
  }
}
