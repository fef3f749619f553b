/**
 * Incremental reconciliation on the client (`reconcile_exchange` and `validate_operation_results`
 * in `crates/aequora-client/src/lib.rs`), against the reference local store
 * (`reconcile_reference` in `crates/aequora-testkit/src/lib.rs`).
 */
module Client {
  import opened Base

  type OpId = nat

  /** The authority recorded by cursors that predate authority binding. */
  const LEGACY_UNBOUND: nat := 0

  datatype Cursor = Cursor(scope: nat, sequence: u64, authorityId: nat, epoch: u64)

  datatype Change = Change(
    sequence: u64, tenantId: nat, scopeId: nat, entity: nat, version: u64, payload: Bytes, tombstone: bool)

  datatype Directive = Continue | UpgradeRequired | ResyncRequired | AuthorityChangedDirective

  datatype Response = Response(
    protocol: nat, directive: Directive, acknowledged: seq<OpId>, rejected: seq<OpId>, conflicts: seq<OpId>,
    changes: seq<Change>, nextCursor: Cursor, hasMore: bool)
  {
    /** Every operation the response reports on, in the order it is scanned. */
    function Results(): seq<OpId> {
      acknowledged + rejected + conflicts
    }

    function Terminal(): set<OpId> {
      Members(Results())
    }
  }

  /** Session settings; `encodedSize` is the length of the encoded response, if it encodes. */
  datatype Config = Config(
    protocol: nat, tenantId: nat, scopeId: nat, maxChanges: u32, maxResponseBytes: u32,
    encodedSize: Response -> Option<nat>)

  datatype ClientError =
    | Upgrade | Resync | Protocol | Codec | ResponseLimits | CursorScope | AuthorityIdChanged
    | AuthorityRollbackDetected | AuthorityChanged | CursorRegression | OperationResults
    | ChangeBoundary | ChangeSequence | NoProgress | StoreFailure

  // ---------------------------------------------------------------------------------------------
  // Operation results
  // ---------------------------------------------------------------------------------------------

  /** Every submitted operation is distinct and is reported exactly once, and nothing else is. */
  ghost predicate SettlesAll(results: seq<OpId>, submitted: seq<OpId>) {
    NoDups(submitted) && NoDups(results) && forall x :: x in results <==> x in submitted
  }

  function Members(s: seq<OpId>): set<OpId> {
    set x | x in s
  }

  lemma MembersAppend(s: seq<OpId>, x: OpId)
    ensures Members(s + [x]) == Members(s) + {x}
    ensures NoDups(s + [x]) <==> NoDups(s) && x !in s
  {
    if NoDups(s + [x]) {
      forall i, j | 0 <= i < j < |s| ensures s[i] != s[j] {
        assert (s + [x])[i] != (s + [x])[j];
      }
      forall i | 0 <= i < |s| ensures s[i] != x {
        assert (s + [x])[i] != (s + [x])[|s|];
      }
    }
  }

  lemma {:induction false} DistinctCount(s: seq<OpId>)
    ensures |Members(s)| <= |s|
    ensures |Members(s)| == |s| <==> NoDups(s)
  {
    if s == [] {
    } else {
      var front, last := s[..|s| - 1], s[|s| - 1];
      assert s == front + [last];
      DistinctCount(front);
      MembersAppend(front, last);
    }
  }

  lemma PrefixRepeats(s: seq<OpId>, i: nat)
    requires i < |s| && s[i] in s[..i]
    ensures !NoDups(s)
  {
    var k :| 0 <= k < i && s[..i][k] == s[i];
    assert s[k] == s[i];
  }

  /** `validate_operation_results`: scans the three result lists into a set of terminal operations. */
  method ValidateOperationResults(response: Response, submitted: seq<OpId>) returns (ok: bool)
    ensures ok <==> SettlesAll(response.Results(), submitted)
  {
    var expected := Members(submitted);
    DistinctCount(submitted);
    if |expected| != |submitted| {
      return false;
    }
    var results := response.Results();
    var terminal: set<OpId> := {};
    for i := 0 to |results|
      invariant terminal == Members(results[..i]) && NoDups(results[..i])
      invariant terminal <= expected
    {
      assert results[..i + 1] == results[..i] + [results[i]];
      MembersAppend(results[..i], results[i]);
      if results[i] !in expected {
        assert results[i] in results && results[i] !in submitted;
        return false;
      }
      if results[i] in terminal {
        PrefixRepeats(results, i);
        return false;
      }
      terminal := terminal + {results[i]};
    }
    assert results[..|results|] == results;
    return SameMembers(results, submitted);
  }

  predicate SameMembers(a: seq<OpId>, b: seq<OpId>)
    ensures SameMembers(a, b) <==> forall x :: x in a <==> x in b
  {
    assert forall x :: x in a <==> x in Members(a);
    assert forall x :: x in b <==> x in Members(b);
    Members(a) == Members(b)
  }

  // ---------------------------------------------------------------------------------------------
  // Changes
  // ---------------------------------------------------------------------------------------------

  function StartSequence(cursor: Option<Cursor>): u64 {
    if cursor.Some? then cursor.value.sequence else 0
  }

  /** The sequence reached after the first `n` changes. */
  function Reached(start: u64, changes: seq<Change>, n: nat): u64
    requires n <= |changes|
  {
    if n == 0 then start else changes[n - 1].sequence
  }

  predicate InBounds(cfg: Config, change: Change) {
    change.tenantId == cfg.tenantId && change.scopeId == cfg.scopeId
  }

  /** Sequences strictly increase from `start` (exclusive) and end at `end`. */
  ghost predicate Increasing(start: u64, changes: seq<Change>, end: u64) {
    && (forall i :: 0 <= i < |changes| ==> start < changes[i].sequence <= end)
    && (forall i, j :: 0 <= i < j < |changes| ==> changes[i].sequence < changes[j].sequence)
    && Reached(start, changes, |changes|) == end
  }

  /** Every change is within the session, and together they lead to the next cursor. */
  ghost predicate ChangesOk(cfg: Config, start: u64, changes: seq<Change>, next: u64) {
    (forall i :: 0 <= i < |changes| ==> InBounds(cfg, changes[i])) && Increasing(start, changes, next)
  }

  /** Change `i` is within the session and continues from the changes before it. */
  predicate ChangeOk(cfg: Config, start: u64, changes: seq<Change>, next: u64, i: nat)
    requires i < |changes|
  {
    InBounds(cfg, changes[i]) && Reached(start, changes, i) < changes[i].sequence <= next
  }

  /** Change `i` is the first bad one, and it is out of bounds. */
  ghost predicate StraysAt(cfg: Config, start: u64, changes: seq<Change>, next: u64, i: nat) {
    && i < |changes| && !InBounds(cfg, changes[i])
    && forall k :: 0 <= k < i ==> ChangeOk(cfg, start, changes, next, k)
  }

  /** What is wrong with changes that are not in order: the first bad one is out of bounds, or out of sequence. */
  ghost function ChangesFault(cfg: Config, start: u64, changes: seq<Change>, next: u64): ClientError {
    if exists i: nat :: StraysAt(cfg, start, changes, next, i) then ChangeBoundary else ChangeSequence
  }

  method ValidateChanges(cfg: Config, start: u64, changes: seq<Change>, next: u64) returns (r: Option<ClientError>)
    ensures r.None? <==> ChangesOk(cfg, start, changes, next)
    ensures r.Some? ==> r.value == ChangesFault(cfg, start, changes, next)
  {
    var previous := start;
    for i := 0 to |changes|
      invariant previous == Reached(start, changes, i) && (i > 0 ==> start < previous <= next)
      invariant forall k :: 0 <= k < i ==> ChangeOk(cfg, start, changes, next, k)
      invariant forall k :: 0 <= k < i ==> InBounds(cfg, changes[k]) && start < changes[k].sequence <= previous
      invariant forall k, l :: 0 <= k < l < i ==> changes[k].sequence < changes[l].sequence
    {
      if !InBounds(cfg, changes[i]) {
        assert StraysAt(cfg, start, changes, next, i);
        return Some(ChangeBoundary);
      }
      if changes[i].sequence <= previous || changes[i].sequence > next {
        if i > 0 && changes[i].sequence <= previous {
          assert changes[i].sequence <= changes[i - 1].sequence;
        }
        assert !ChangeOk(cfg, start, changes, next, i);
        return Some(ChangeSequence);
      }
      previous := changes[i].sequence;
    }
    if next != previous {
      return Some(ChangeSequence);
    }
    return None;
  }

  // ---------------------------------------------------------------------------------------------
  // The local store
  // ---------------------------------------------------------------------------------------------

  datatype OutboxState = Pending | Acknowledged | Rejected | Conflict

  datatype Entity = Entity(version: u64, payload: Bytes, tombstone: bool)

  datatype Local = Local(
    cursor: Option<Cursor>, processed: set<u64>, entities: map<nat, Entity>,
    outbox: map<OpId, OutboxState>, pending: seq<OpId>, rejections: seq<OpId>, conflicts: seq<OpId>)

  function Mark(outbox: map<OpId, OutboxState>, ops: seq<OpId>, state: OutboxState): map<OpId, OutboxState> {
    map x | x in outbox.Keys + (set y | y in ops) :: if x in ops then state else outbox[x]
  }

  function Unsettled(pending: seq<OpId>, terminal: set<OpId>): seq<OpId> {
    if pending == [] then []
    else Unsettled(pending[..|pending| - 1], terminal)
         + if pending[|pending| - 1] in terminal then [] else [pending[|pending| - 1]]
  }

  /** One change: applied only the first time its sequence is seen. */
  function ApplyOne(s: Local, change: Change): Local {
    if change.sequence in s.processed then s
    else s.(processed := s.processed + {change.sequence},
            entities := s.entities[change.entity := Entity(change.version, change.payload, change.tombstone)])
  }

  function ApplyAll(s: Local, changes: seq<Change>): Local {
    if changes == [] then s else ApplyOne(ApplyAll(s, changes[..|changes| - 1]), changes[|changes| - 1])
  }

  /** The store refuses to move its own cursor back. */
  predicate StoreAccepts(s: Local, response: Response) {
    s.cursor.None? || s.cursor.value.sequence <= response.nextCursor.sequence
  }

  /** Everything `reconcile_reference` does, for the session's scope, before it applies the changes. */
  function Settle(s: Local, response: Response): Local {
    s.(outbox := Mark(Mark(Mark(s.outbox, response.acknowledged, Acknowledged), response.rejected, Rejected),
                      response.conflicts, Conflict),
       pending := Unsettled(s.pending, response.Terminal()),
       rejections := s.rejections + response.rejected,
       conflicts := s.conflicts + response.conflicts)
  }

  function StoreReconcile(s: Local, response: Response): Local {
    ApplyAll(Settle(s, response), response.changes).(cursor := Some(response.nextCursor))
  }

  // ---------------------------------------------------------------------------------------------
  // One exchange
  // ---------------------------------------------------------------------------------------------

  /** The checks of `reconcile_exchange` before the operation results are looked at. */
  function EnvelopeFault(cfg: Config, cursor: Option<Cursor>, response: Response): Option<ClientError> {
    var next := response.nextCursor;
    match response.directive
    case UpgradeRequired => Some(Upgrade)
    case ResyncRequired => Some(Resync)
    case AuthorityChangedDirective => Some(AuthorityChanged)
    case Continue =>
      if response.protocol != cfg.protocol then Some(Protocol)
      else if cfg.encodedSize(response).None? then Some(Codec)
      else if |response.changes| > cfg.maxChanges || cfg.encodedSize(response).value > cfg.maxResponseBytes then
        Some(ResponseLimits)
      else if next.scope != cfg.scopeId then Some(CursorScope)
      else if cursor.Some? && cursor.value.authorityId != LEGACY_UNBOUND
              && next.authorityId != cursor.value.authorityId then Some(AuthorityIdChanged)
      else if cursor.Some? && next.epoch < cursor.value.epoch then Some(AuthorityRollbackDetected)
      else if cursor.Some? && next.epoch > cursor.value.epoch then Some(AuthorityChanged)
      else if cursor.Some? && next.sequence < cursor.value.sequence then Some(CursorRegression)
      else None
  }

  predicate NoProgressMade(cursor: Option<Cursor>, response: Response) {
    && response.hasMore && response.Results() == [] && response.changes == []
    && StartSequence(cursor) == response.nextCursor.sequence
  }

  /** The response is accepted and handed to the store. */
  ghost predicate Acceptable(cfg: Config, cursor: Option<Cursor>, response: Response, submitted: seq<OpId>) {
    && EnvelopeFault(cfg, cursor, response).None?
    && SettlesAll(response.Results(), submitted)
    && ChangesOk(cfg, StartSequence(cursor), response.changes, response.nextCursor.sequence)
    && !NoProgressMade(cursor, response)
  }

  class LocalStore {
    var cursor: Option<Cursor>
    var processed: set<u64>
    var entities: map<nat, Entity>
    var outbox: map<OpId, OutboxState>
    var pending: seq<OpId>
    var rejections: seq<OpId>
    var conflicts: seq<OpId>

    function Value(): Local
      reads this
    {
      Local(cursor, processed, entities, outbox, pending, rejections, conflicts)
    }

    /** Applies the changes of a response in order, skipping sequences already processed. */
    method ApplyChanges(changes: seq<Change>)
      modifies this`processed, this`entities
      ensures Value() == ApplyAll(old(Value()), changes)
    {
      for i := 0 to |changes|
        invariant Value() == ApplyAll(old(Value()), changes[..i])
      {
        assert changes[..i + 1][..i] == changes[..i];
        var change := changes[i];
        if change.sequence !in processed {
          processed := processed + {change.sequence};
          entities := entities[change.entity := Entity(change.version, change.payload, change.tombstone)];
        }
      }
      assert changes[..|changes|] == changes;
    }

    /** `reconcile_reference`: refuses a cursor that would move back, otherwise takes the response over. */
    method Reconcile(response: Response) returns (ok: bool)
      modifies this
      ensures ok <==> StoreAccepts(old(Value()), response)
      ensures Value() == if ok then StoreReconcile(old(Value()), response) else old(Value())
    {
      if cursor.Some? && cursor.value.sequence > response.nextCursor.sequence {
        return false;
      }
      outbox := Mark(outbox, response.acknowledged, Acknowledged);
      outbox := Mark(outbox, response.rejected, Rejected);
      outbox := Mark(outbox, response.conflicts, Conflict);
      pending := Unsettled(pending, response.Terminal());
      rejections := rejections + response.rejected;
      conflicts := conflicts + response.conflicts;
      ApplyChanges(response.changes);
      cursor := Some(response.nextCursor);
      return true;
    }

    /**
     * `reconcile_exchange`. `loaded` is the cursor read before the request was sent, which may no
     * longer be the stored one; `fenceHeld` tells whether the store transaction's fence is current.
     */
    method ReconcileExchange(
      cfg: Config, loaded: Option<Cursor>, response: Response, submitted: seq<OpId>, fenceHeld: bool)
      returns (r: Result<(), ClientError>)
      modifies this
      ensures r.Ok? <==>
              Acceptable(cfg, loaded, response, submitted) && fenceHeld && StoreAccepts(old(Value()), response)
      ensures Value() == if r.Ok? then StoreReconcile(old(Value()), response) else old(Value())
      ensures r.Err? ==>
                if EnvelopeFault(cfg, loaded, response).Some? then
                  Some(r.error) == EnvelopeFault(cfg, loaded, response)
                else if !SettlesAll(response.Results(), submitted) then r.error == OperationResults
                else if !ChangesOk(cfg, StartSequence(loaded), response.changes, response.nextCursor.sequence) then
                  r.error == ChangesFault(cfg, StartSequence(loaded), response.changes, response.nextCursor.sequence)
                else if NoProgressMade(loaded, response) then r.error == NoProgress
                else r.error == StoreFailure
    {
      var fault := EnvelopeFault(cfg, loaded, response);
      if fault.Some? {
        return Err(fault.value);
      }
      var settled := ValidateOperationResults(response, submitted);
      if !settled {
        return Err(OperationResults);
      }
      fault := ValidateChanges(cfg, StartSequence(loaded), response.changes, response.nextCursor.sequence);
      if fault.Some? {
        return Err(fault.value);
      }
      if NoProgressMade(loaded, response) {
        return Err(NoProgress);
      }
      if !fenceHeld {
        return Err(StoreFailure);
      }
      var taken := Reconcile(response);
      return if taken then Ok(()) else Err(StoreFailure);
    }
  }
}
