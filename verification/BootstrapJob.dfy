/**
 * The durable bootstrap job (`BootstrapJob`, `SnapshotLease` and `verify_activation` in
 * `crates/aequora-bootstrap/src/lib.rs`): step functions, and the mutable job proved against them.
 */
module BootstrapJob {
  import opened Base
  import opened Snapshot

  datatype JobState =
    | Requested | Planning | Downloading | Installing | Verifying | ReadyToActivate
    | Activating | CatchingUp | Complete | Failed | Quarantined | Cancelled

  predicate MayTransition(from: JobState, to: JobState) {
    match to
    case Planning => from.Requested? || from.Failed? || from.Cancelled?
    case Downloading => from.Planning? || from.Installing?
    case Installing => from.Downloading?
    case Verifying => from.Installing?
    case ReadyToActivate => from.Verifying?
    case Quarantined => from.Verifying?
    case Activating => from.ReadyToActivate?
    case CatchingUp => from.Activating?
    case Complete => from.CatchingUp?
    case Cancelled => from.Downloading? || from.Installing? || from.ReadyToActivate?
    case Failed =>
      || from.Requested? || from.Planning? || from.Downloading? || from.Installing?
      || from.Verifying? || from.ReadyToActivate? || from.Activating? || from.CatchingUp?
    case Requested => false
  }

  datatype ChunkState = NotStarted | Transferring | Downloaded | Verified | Installed {
    function Rank(): nat {
      match this
      case NotStarted => 0
      case Transferring => 1
      case Downloaded => 2
      case Verified => 3
      case Installed => 4
    }
  }

  datatype ChunkProgress = ChunkProgress(
    chunkId: Digest, ordinal: u32, state: ChunkState, downloadedBytes: nat,
    objectIdentity: Option<string>, attempts: u32)

  datatype MutationPolicy = AllowQueue | ReadOnly | Custom

  datatype Job = Job(
    jobId: nat, snapshotId: nat, manifestRoot: Digest, boundary: Boundary, schemaVersion: u64,
    stagingGeneration: u64, mutationPolicy: MutationPolicy, pendingIntentDigest: Digest,
    state: JobState, chunks: map<nat, ChunkProgress>)

  datatype ChunkRead = ChunkRead(bytes: Bytes, nextOffset: u64, complete: bool, objectIdentity: string)

  function InitialProgress(d: ChunkDescriptor): ChunkProgress {
    ChunkProgress(d.chunkId, d.ordinal, NotStarted, 0, None, 0)
  }

  function InitialChunks(chunks: seq<ChunkDescriptor>): map<nat, ChunkProgress> {
    if chunks == [] then map[]
    else
      var last := chunks[|chunks| - 1];
      InitialChunks(chunks[..|chunks| - 1])[last.ordinal := InitialProgress(last)]
  }

  /** `BootstrapJob::new` on a manifest that verifies. */
  function NewJob(m: Manifest, jobId: nat, generation: u64, policy: MutationPolicy, pendingDigest: Digest): Job {
    Job(jobId, m.snapshotId, m.rootDigest, m.boundary, m.schemaVersion, generation, policy, pendingDigest,
        Requested, InitialChunks(m.chunks))
  }

  // ---------------------------------------------------------------------------------------------
  // Steps
  // ---------------------------------------------------------------------------------------------

  function Transition(job: Job, next: JobState): (Job, Result<(), BootstrapError>) {
    if MayTransition(job.state, next) then (job.(state := next), Ok(())) else (job, Err(IllegalTransition))
  }

  function ReadFault(job: Job, d: ChunkDescriptor, read: ChunkRead): Option<BootstrapError> {
    if Blank(read.objectIdentity) then Some(BlankObjectIdentity)
    else if d.ordinal !in job.chunks then Some(UnknownChunk)
    else
      var p := job.chunks[d.ordinal];
      var next := p.downloadedBytes + |read.bytes|;
      if p.chunkId != d.chunkId || (p.objectIdentity.Some? && p.objectIdentity.value != read.objectIdentity) then
        Some(RangeResumeMismatch)
      else if !p.state.NotStarted? && !p.state.Transferring? then Some(InvalidChunkState)
      else if |read.bytes| > U64_MAX || next > U64_MAX then Some(Overflow)
      else if read.nextOffset != next || read.nextOffset > d.compressedBytes then Some(RangeResumeMismatch)
      else if read.complete != (read.nextOffset == d.compressedBytes) then Some(RangeCompletionMismatch)
      else None
  }

  function ReadProgress(p: ChunkProgress, read: ChunkRead): ChunkProgress {
    p.(downloadedBytes := read.nextOffset, objectIdentity := Some(read.objectIdentity),
       attempts := SatAdd(p.attempts, 1, U32_MAX), state := if read.complete then Downloaded else Transferring)
  }

  function RecordRead(job: Job, d: ChunkDescriptor, read: ChunkRead): (Job, Result<ChunkProgress, BootstrapError>) {
    match ReadFault(job, d, read)
    case Some(e) => (job, Err(e))
    case None =>
      if d.ordinal in job.chunks then
        var p := ReadProgress(job.chunks[d.ordinal], read);
        (job.(chunks := job.chunks[d.ordinal := p]), Ok(p))
      else (job, Err(UnknownChunk))
  }

  function Advance(job: Job, d: ChunkDescriptor, expected: ChunkState, next: ChunkState)
    : (Job, Result<(), BootstrapError>)
  {
    if d.ordinal !in job.chunks then (job, Err(UnknownChunk))
    else
      var p := job.chunks[d.ordinal];
      if p.chunkId != d.chunkId || p.state != expected then (job, Err(InvalidChunkState))
      else (job.(chunks := job.chunks[d.ordinal := p.(state := next)]), Ok(()))
  }

  /** The job belongs to this manifest and tracks exactly its chunks. */
  predicate SameSnapshot(job: Job, m: Manifest) {
    && job.snapshotId == m.snapshotId && job.manifestRoot == m.rootDigest
    && job.boundary == m.boundary && job.schemaVersion == m.schemaVersion
    && |job.chunks| == |m.chunks|
    && forall i :: 0 <= i < |m.chunks| ==>
                     && m.chunks[i].ordinal in job.chunks
                     && job.chunks[m.chunks[i].ordinal].chunkId == m.chunks[i].chunkId
  }

  /** The condition that `validate_resume` decides. */
  predicate ResumeOk(env: Env, job: Job, m: Manifest) {
    ManifestOk(env, m) && SameSnapshot(job, m)
  }

  /** What `validate_resume` reports, if anything. */
  function ResumeFault(env: Env, job: Job, m: Manifest): Option<BootstrapError> {
    if ManifestFault(env, m).Some? then ManifestFault(env, m)
    else if SameSnapshot(job, m) then None
    else Some(ResumeIdentityMismatch)
  }

  lemma ResumeDecides(env: Env, job: Job, m: Manifest)
    ensures ResumeFault(env, job, m).None? <==> ResumeOk(env, job, m)
  {
    NoFaultMeansOk(env, m);
  }

  // ---------------------------------------------------------------------------------------------
  // Activation
  // ---------------------------------------------------------------------------------------------

  datatype Lease = Lease(snapshotId: nat, boundarySequence: u64, retainedFrom: u64, expiresAtMs: u64)

  function LeaseFault(lease: Lease, snapshotId: nat, boundary: Boundary, nowMs: u64): Option<BootstrapError> {
    if boundary.sequence == U64_MAX then Some(Overflow)
    else if lease.snapshotId != snapshotId || lease.boundarySequence != boundary.sequence then
      Some(LeaseIdentityMismatch)
    else if nowMs >= lease.expiresAtMs then Some(LeaseExpired)
    else if lease.retainedFrom > boundary.sequence + 1 then Some(JournalGap)
    else None
  }

  datatype ActivationEvidence = ActivationEvidence(
    manifestRoot: Digest, installedChunks: set<Digest>, currentScopeVersion: nat, currentScopeGeneration: nat,
    currentEpoch: u64, authorizationCurrent: bool, stagingVerified: bool, pendingIntentDigest: Digest, lease: Lease)

  datatype Activation = Activation(
    jobId: nat, snapshotId: nat, stagingGeneration: u64, cursorSequence: u64, pendingIntentDigest: Digest)

  function VerifyActivation(env: Env, job: Job, m: Manifest, evidence: ActivationEvidence, nowMs: u64)
    : Result<Activation, BootstrapError>
  {
    if ResumeFault(env, job, m).Some? then Err(ResumeFault(env, job, m).value)
    else if job.state != ReadyToActivate then Err(NotReadyToActivate)
    else if LeaseFault(evidence.lease, job.snapshotId, job.boundary, nowMs).Some? then
      Err(LeaseFault(evidence.lease, job.snapshotId, job.boundary, nowMs).value)
    else if evidence.manifestRoot != job.manifestRoot then Err(RootMismatch)
    else if evidence.installedChunks != (set i | 0 <= i < |m.chunks| :: m.chunks[i].chunkId)
            || exists k :: k in job.chunks && job.chunks[k].state != Installed then Err(IncompleteStaging)
    else if !evidence.authorizationCurrent then Err(AuthorizationRevoked)
    else if evidence.currentScopeVersion != job.boundary.scopeVersion
            || evidence.currentScopeGeneration != job.boundary.scopeGeneration then Err(ScopeChanged)
    else if evidence.currentEpoch != job.boundary.epoch then Err(AuthorityEpochChanged)
    else if !evidence.stagingVerified then Err(StagingNotVerified)
    else if evidence.pendingIntentDigest != job.pendingIntentDigest then Err(PendingIntentChanged)
    else
      Ok(Activation(job.jobId, job.snapshotId, job.stagingGeneration, job.boundary.sequence, job.pendingIntentDigest))
  }
}

/** The mutable job record. */
module BootstrapJobObject {
  import opened Base
  import opened Snapshot
  import opened BootstrapJob

  class JobRecord {
    const identity: Job
    var state: JobState
    var chunks: map<nat, ChunkProgress>

    function Value(): Job
      reads this
    {
      identity.(state := state, chunks := chunks)
    }

    constructor (m: Manifest, jobId: nat, generation: u64, policy: MutationPolicy, pendingDigest: Digest)
      ensures Value() == NewJob(m, jobId, generation, policy, pendingDigest)
    {
      identity := NewJob(m, jobId, generation, policy, pendingDigest);
      state := Requested;
      var entries: map<nat, ChunkProgress> := map[];
      for i := 0 to |m.chunks|
        invariant entries == InitialChunks(m.chunks[..i])
      {
        assert m.chunks[..i + 1][..i] == m.chunks[..i];
        entries := entries[m.chunks[i].ordinal := InitialProgress(m.chunks[i])];
      }
      assert m.chunks[..|m.chunks|] == m.chunks;
      chunks := entries;
    }

    /** `BootstrapJob::new`: refuses a manifest that does not verify. */
    static method Create(
      env: Env, m: Manifest, jobId: nat, generation: u64, policy: MutationPolicy, pendingDigest: Digest)
      returns (r: Result<JobRecord, BootstrapError>)
      ensures r.Ok? <==> ManifestOk(env, m)
      ensures r.Err? ==> ManifestFault(env, m) == Some(r.error)
      ensures r.Ok? ==> fresh(r.value) && r.value.Value() == NewJob(m, jobId, generation, policy, pendingDigest)
    {
      var verified := VerifyManifest(env, m);
      if verified.Err? {
        return Err(verified.error);
      }
      var job := new JobRecord(m, jobId, generation, policy, pendingDigest);
      return Ok(job);
    }

    method Transition(next: JobState) returns (r: Result<(), BootstrapError>)
      modifies this`state
      ensures (Value(), r) == BootstrapJob.Transition(old(Value()), next)
    {
      if !MayTransition(state, next) {
        return Err(IllegalTransition);
      }
      state := next;
      return Ok(());
    }

    method RecordChunkRead(d: ChunkDescriptor, read: ChunkRead) returns (r: Result<ChunkProgress, BootstrapError>)
      modifies this`chunks
      ensures (Value(), r) == RecordRead(old(Value()), d, read)
    {
      if Blank(read.objectIdentity) {
        return Err(BlankObjectIdentity);
      }
      if d.ordinal !in chunks {
        return Err(UnknownChunk);
      }
      var p := chunks[d.ordinal];
      if p.chunkId != d.chunkId || (p.objectIdentity.Some? && p.objectIdentity.value != read.objectIdentity) {
        return Err(RangeResumeMismatch);
      }
      if !p.state.NotStarted? && !p.state.Transferring? {
        return Err(InvalidChunkState);
      }
      if |read.bytes| > U64_MAX || p.downloadedBytes + |read.bytes| > U64_MAX {
        return Err(Overflow);
      }
      if read.nextOffset != p.downloadedBytes + |read.bytes| || read.nextOffset > d.compressedBytes {
        return Err(RangeResumeMismatch);
      }
      if read.complete != (read.nextOffset == d.compressedBytes) {
        return Err(RangeCompletionMismatch);
      }
      p := p.(downloadedBytes := read.nextOffset);
      p := p.(objectIdentity := Some(read.objectIdentity));
      p := p.(attempts := SatAdd(p.attempts, 1, U32_MAX));
      p := p.(state := if read.complete then Downloaded else Transferring);
      chunks := chunks[d.ordinal := p];
      return Ok(p);
    }

    method AdvanceChunk(d: ChunkDescriptor, expected: ChunkState, next: ChunkState)
      returns (r: Result<(), BootstrapError>)
      modifies this`chunks
      ensures (Value(), r) == Advance(old(Value()), d, expected, next)
    {
      if d.ordinal !in chunks {
        return Err(UnknownChunk);
      }
      if chunks[d.ordinal].chunkId != d.chunkId || chunks[d.ordinal].state != expected {
        return Err(InvalidChunkState);
      }
      chunks := chunks[d.ordinal := chunks[d.ordinal].(state := next)];
      return Ok(());
    }

    method MarkChunkVerified(d: ChunkDescriptor) returns (r: Result<(), BootstrapError>)
      modifies this`chunks
      ensures (Value(), r) == Advance(old(Value()), d, Downloaded, Verified)
    {
      r := AdvanceChunk(d, Downloaded, Verified);
    }

    method MarkChunkInstalled(d: ChunkDescriptor) returns (r: Result<(), BootstrapError>)
      modifies this`chunks
      ensures (Value(), r) == Advance(old(Value()), d, Verified, Installed)
    {
      r := AdvanceChunk(d, Verified, Installed);
    }
  }
}
