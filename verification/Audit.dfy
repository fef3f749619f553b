/**
 * The tamper-evident audit chain (`ChainedAuditRecord::append`, `verify_chain` and
 * `AuditCheckpoint::verify_against` in `crates/aequora-audit/src/lib.rs`).
 */
module Audit {
  import opened Base

  type Digest = Bytes

  datatype Partition = Business | Security | Administrative | General

  /** Only the tenant matters to the chain; everything else about an event is its body. */
  datatype Event = Event(tenantId: nat, body: Bytes)

  datatype Record = Record(
    partition: Partition, sequence: u64, previousHash: Digest, event: Event, eventDigest: Digest, currentHash: Digest)

  /** What the chain hash covers. */
  datatype Link = Link(tenantId: nat, partition: Partition, sequence: u64, previous: Digest, event: Digest)

  /**
   * Foreign code, kept abstract: event validation, and the BLAKE3 digests of the Postcard encoding
   * of an event and of a link. Encoding may fail.
   */
  datatype Env = Env(valid: Event -> bool, digest: Event -> Option<Digest>, linkHash: Link -> Option<Digest>)

  datatype AuditError =
    | InvalidEvent | ChainBoundaryMismatch | SequenceOverflow | Serialization | ChainDiscontinuity
    | DigestMismatch | CheckpointMismatch

  /** The hash before the first record. */
  const GENESIS: Digest := [
    0, 0, 0, 0, 0, 0, 0, 0, 0, 0, 0, 0, 0, 0, 0, 0, 0, 0, 0, 0, 0, 0, 0, 0, 0, 0, 0, 0, 0, 0, 0, 0
  ]

  function EventDigest(env: Env, event: Event): Option<Digest> {
    if env.valid(event) then env.digest(event) else None
  }

  function Append(env: Env, previous: Option<Record>, partition: Partition, event: Event): Result<Record, AuditError> {
    var sequence := if previous.None? then 1 else SatAdd(previous.value.sequence, 1, U64_MAX);
    var previousHash := if previous.None? then GENESIS else previous.value.currentHash;
    if !env.valid(event) then Err(InvalidEvent)
    else if previous.Some?
            && (previous.value.partition != partition || previous.value.event.tenantId != event.tenantId) then
      Err(ChainBoundaryMismatch)
    else if sequence == U64_MAX then Err(SequenceOverflow)
    else match EventDigest(env, event)
      case None => Err(Serialization)
      case Some(digest) =>
        match env.linkHash(Link(event.tenantId, partition, sequence, previousHash, digest))
        case None => Err(Serialization)
        case Some(hash) => Ok(Record(partition, sequence, previousHash, event, digest, hash))
  }

  // ---------------------------------------------------------------------------------------------
  // Chains
  // ---------------------------------------------------------------------------------------------

  function HashBefore(records: seq<Record>, i: nat): Digest
    requires i <= |records|
  {
    if i == 0 then GENESIS else records[i - 1].currentHash
  }

  function LinkOf(r: Record): Link {
    Link(r.event.tenantId, r.partition, r.sequence, r.previousHash, r.eventDigest)
  }

  /** Record `i` continues the chain before it and carries the right digests. */
  predicate RecordOk(env: Env, records: seq<Record>, i: nat)
    requires i < |records|
  {
    var r := records[i];
    && r.event.tenantId == records[0].event.tenantId && r.partition == records[0].partition
    && r.sequence == i + 1 && r.previousHash == HashBefore(records, i)
    && EventDigest(env, r.event) == Some(r.eventDigest)
    && env.linkHash(LinkOf(r)) == Some(r.currentHash)
  }

  ghost predicate ChainOk(env: Env, records: seq<Record>) {
    |records| < U64_MAX && forall i :: 0 <= i < |records| ==> RecordOk(env, records, i)
  }

  /** What is wrong with record `i`, in the order `verify_chain` looks. */
  function RecordFault(env: Env, records: seq<Record>, i: nat): (fault: Option<AuditError>)
    requires i < |records|
    ensures fault.None? <==> RecordOk(env, records, i)
  {
    var r := records[i];
    var digest := EventDigest(env, r.event);
    if r.event.tenantId != records[0].event.tenantId || r.partition != records[0].partition then
      Some(ChainBoundaryMismatch)
    else if r.sequence != i + 1 || r.previousHash != HashBefore(records, i) then Some(ChainDiscontinuity)
    else if digest.None? then Some(if env.valid(r.event) then Serialization else InvalidEvent)
    else if digest.value != r.eventDigest then Some(DigestMismatch)
    else if env.linkHash(LinkOf(r)).None? then Some(Serialization)
    else if env.linkHash(LinkOf(r)) != Some(r.currentHash) then Some(DigestMismatch)
    else None
  }

  /** Record `i` is the first faulty one, and `e` is its fault. */
  ghost predicate FirstFault(env: Env, records: seq<Record>, i: nat, e: AuditError) {
    && i < |records| && RecordFault(env, records, i) == Some(e)
    && forall k :: 0 <= k < i ==> RecordOk(env, records, k)
  }

  /** What `verify_chain` reports: the first fault, or a chain too long to count. */
  ghost predicate BreaksWith(env: Env, records: seq<Record>, e: AuditError) {
    || (exists i: nat :: FirstFault(env, records, i, e))
    || (e == SequenceOverflow && |records| >= U64_MAX)
  }

  /** `verify_chain`: one pass accepts exactly the intact chains and returns the last hash. */
  method VerifyChain(env: Env, records: seq<Record>) returns (r: Result<Digest, AuditError>)
    ensures r.Ok? <==> ChainOk(env, records)
    ensures r.Ok? ==> r.value == HashBefore(records, |records|)
    ensures r.Err? ==> BreaksWith(env, records, r.error)
  {
    if records == [] {
      return Ok(GENESIS);
    }
    var first := records[0];
    var previousHash: Digest := GENESIS;
    var expected := 1;
    for i := 0 to |records|
      invariant previousHash == HashBefore(records, i) && expected == i + 1 <= U64_MAX
      invariant forall k :: 0 <= k < i ==> RecordOk(env, records, k)
    {
      var record := records[i];
      ghost var fault := RecordFault(env, records, i);
      assert fault.Some? ==> FirstFault(env, records, i, fault.value);
      if record.event.tenantId != first.event.tenantId || record.partition != first.partition {
        return Err(ChainBoundaryMismatch);
      }
      if record.sequence != expected || record.previousHash != previousHash {
        return Err(ChainDiscontinuity);
      }
      var digest := EventDigest(env, record.event);
      if digest.None? {
        return Err(if env.valid(record.event) then Serialization else InvalidEvent);
      }
      if digest.value != record.eventDigest {
        return Err(DigestMismatch);
      }
      var hash := env.linkHash(
        Link(record.event.tenantId, record.partition, record.sequence, previousHash, digest.value));
      if hash.None? {
        return Err(Serialization);
      }
      if hash.value != record.currentHash {
        return Err(DigestMismatch);
      }
      previousHash := record.currentHash;
      if expected + 1 > U64_MAX {
        return Err(SequenceOverflow);
      }
      expected := expected + 1;
    }
    return Ok(previousHash);
  }

  // ---------------------------------------------------------------------------------------------
  // Growth
  // ---------------------------------------------------------------------------------------------

  function Predecessor(records: seq<Record>, i: nat): Option<Record>
    requires i < |records|
  {
    if i == 0 then None else Some(records[i - 1])
  }

  /** Record `i` is what appending its event to the record before it produces. */
  predicate Appended(env: Env, records: seq<Record>, i: nat)
    requires i < |records|
  {
    Append(env, Predecessor(records, i), records[i].partition, records[i].event) == Ok(records[i])
  }

  ghost predicate Grown(env: Env, records: seq<Record>) {
    forall i :: 0 <= i < |records| ==> Appended(env, records, i)
  }

  lemma {:induction false} GrownRecordOk(env: Env, records: seq<Record>, i: nat)
    requires Grown(env, records) && i < |records|
    ensures RecordOk(env, records, i) && i + 1 < U64_MAX
    decreases i
  {
    if i > 0 {
      GrownRecordOk(env, records, i - 1);
    }
    assert Appended(env, records, i);
  }

  /** Any list grown by `append` verifies. */
  lemma GrownChainVerifies(env: Env, records: seq<Record>)
    requires Grown(env, records)
    ensures ChainOk(env, records)
  {
    forall i | 0 <= i < |records| ensures RecordOk(env, records, i) {
      GrownRecordOk(env, records, i);
    }
    if records != [] {
      GrownRecordOk(env, records, |records| - 1);
    }
  }

  /** Verification accepts exactly the lists that `append` can grow: there is no other way to pass. */
  lemma VerifiesIffGrown(env: Env, records: seq<Record>)
    ensures ChainOk(env, records) <==> Grown(env, records)
  {
    if ChainOk(env, records) {
      forall i | 0 <= i < |records| ensures Appended(env, records, i) {
        assert RecordOk(env, records, i);
        assert i > 0 ==> RecordOk(env, records, i - 1);
      }
    } else if Grown(env, records) {
      GrownChainVerifies(env, records);
    }
  }

  // ---------------------------------------------------------------------------------------------
  // One hash, one history
  // ---------------------------------------------------------------------------------------------

  /** No two different events or links of the two lists share a digest. */
  ghost predicate NoCollision(env: Env, a: seq<Record>, b: seq<Record>) {
    && (forall x, y :: x in a && y in b && env.linkHash(LinkOf(x)) == env.linkHash(LinkOf(y)) ==>
                         LinkOf(x) == LinkOf(y))
    && (forall x, y :: x in a && y in b && EventDigest(env, x.event) == EventDigest(env, y.event) ==>
                         x.event == y.event)
  }

  /**
   * If two intact chains share the hash of any record, they agree up to and including it: the
   * positions are the same and so is every record before.
   */
  lemma {:induction false} SharedHashSharesHistory(env: Env, a: seq<Record>, b: seq<Record>, i: nat, j: nat)
    requires ChainOk(env, a) && ChainOk(env, b) && NoCollision(env, a, b)
    requires i < |a| && j < |b| && a[i].currentHash == b[j].currentHash
    ensures i == j && a[..i + 1] == b[..j + 1]
    decreases i
  {
    assert RecordOk(env, a, i) && RecordOk(env, b, j);
    assert a[i] in a && b[j] in b;
    assert LinkOf(a[i]) == LinkOf(b[j]);
    assert a[i] == b[j];
    if i > 0 {
      SharedHashSharesHistory(env, a, b, i - 1, i - 1);
    }
    assert a[..i + 1] == a[..i] + [a[i]] && b[..i + 1] == b[..i] + [b[i]];
  }

  datatype Checkpoint = Checkpoint(tenantId: nat, partition: Partition, sequence: u64, rootHash: Digest)

  /** The checkpoint names the last of these records. */
  predicate NamesLast(checkpoint: Checkpoint, records: seq<Record>) {
    && records != []
    && var last := records[|records| - 1];
    && checkpoint.tenantId == last.event.tenantId && checkpoint.partition == last.partition
    && checkpoint.sequence == last.sequence
  }

  /** The checkpoint is the end of this intact chain. */
  ghost predicate Matches(env: Env, checkpoint: Checkpoint, records: seq<Record>) {
    && NamesLast(checkpoint, records)
    && ChainOk(env, records) && checkpoint.rootHash == HashBefore(records, |records|)
  }

  /** `AuditCheckpoint::verify_against`: a broken chain is reported as such, anything else as a mismatch. */
  method VerifyAgainst(env: Env, checkpoint: Checkpoint, records: seq<Record>) returns (r: Result<(), AuditError>)
    ensures r.Ok? <==> Matches(env, checkpoint, records)
    ensures r.Err? ==>
              if NamesLast(checkpoint, records) && !ChainOk(env, records) then BreaksWith(env, records, r.error)
              else r.error == CheckpointMismatch
  {
    if records == [] {
      return Err(CheckpointMismatch);
    }
    var last := records[|records| - 1];
    if checkpoint.tenantId != last.event.tenantId || checkpoint.partition != last.partition
       || checkpoint.sequence != last.sequence {
      return Err(CheckpointMismatch);
    }
    var root := VerifyChain(env, records);
    if root.Err? {
      return Err(root.error);
    }
    return if root.value == checkpoint.rootHash then Ok(()) else Err(CheckpointMismatch);
  }

  /** A checkpoint pins one history: any two lists that verify against it are equal. */
  lemma CheckpointPinsHistory(env: Env, checkpoint: Checkpoint, a: seq<Record>, b: seq<Record>)
    requires Matches(env, checkpoint, a) && Matches(env, checkpoint, b) && NoCollision(env, a, b)
    ensures a == b
  {
    SharedHashSharesHistory(env, a, b, |a| - 1, |b| - 1);
    assert a[..|a|] == a && b[..|b|] == b;
  }

  /** A later checkpoint extends an earlier one: the old history is a prefix of the new. */
  lemma LaterChainExtends(env: Env, checkpoint: Checkpoint, a: seq<Record>, b: seq<Record>, j: nat)
    requires Matches(env, checkpoint, a) && ChainOk(env, b) && NoCollision(env, a, b)
    requires j < |b| && b[j].currentHash == checkpoint.rootHash
    ensures a <= b
  {
    SharedHashSharesHistory(env, a, b, |a| - 1, j);
    assert a[..|a|] == a;
  }
}
