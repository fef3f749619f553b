/**
 * Safety of a bootstrap job over every run of its methods, up to and including activation
 * (`crates/aequora-bootstrap/src/lib.rs`).
 */
module BootstrapTheorems {
  import opened Base
  import opened Snapshot
  import opened BootstrapJob

  datatype Op =
    | Transit(next: JobState)
    | Read(d: ChunkDescriptor, read: ChunkRead)
    | MarkVerified(d: ChunkDescriptor)
    | MarkInstalled(d: ChunkDescriptor)

  function Step(job: Job, op: Op): Job {
    match op
    case Transit(next) => Transition(job, next).0
    case Read(d, read) => RecordRead(job, d, read).0
    case MarkVerified(d) => Advance(job, d, Downloaded, Verified).0
    case MarkInstalled(d) => Advance(job, d, Verified, Installed).0
  }

  /** The job after the first `n` operations. */
  function At(job: Job, ops: seq<Op>, n: nat): Job
    requires n <= |ops|
  {
    if n == 0 then job else Step(At(job, ops, n - 1), ops[n - 1])
  }

  /** Callers hand in the manifest's own descriptors. */
  ghost predicate UsesManifest(m: Manifest, ops: seq<Op>) {
    forall i :: 0 <= i < |ops| && !ops[i].Transit? ==> ops[i].d in m.chunks
  }

  /** `op` hands in a piece of chunk `k` and it is accepted. */
  predicate Accepts(job: Job, op: Op, k: nat) {
    op.Read? && op.d.ordinal == k && RecordRead(job, op.d, op.read).1.Ok?
  }

  /** What the first `n` operations accept for chunk `k`, in order. */
  function AcceptedReads(job: Job, ops: seq<Op>, n: nat, k: nat): seq<ChunkRead>
    requires n <= |ops|
  {
    if n == 0 then []
    else
      var before := AcceptedReads(job, ops, n - 1, k);
      var op := ops[n - 1];
      if Accepts(At(job, ops, n - 1), op, k) then before + [op.read] else before
  }

  function TotalLength(accepted: seq<ChunkRead>): nat {
    if accepted == [] then 0 else TotalLength(accepted[..|accepted| - 1]) + |accepted[|accepted| - 1].bytes|
  }

  // ---------------------------------------------------------------------------------------------
  // The job always belongs to its manifest
  // ---------------------------------------------------------------------------------------------

  /** What is known about chunk `k` of a job at any time. */
  predicate ChunkOk(d: ChunkDescriptor, p: ChunkProgress) {
    && p.chunkId == d.chunkId
    && p.downloadedBytes <= d.compressedBytes
    && (p.state.Rank() >= Downloaded.Rank() ==> p.downloadedBytes == d.compressedBytes)
  }

  ghost predicate Tracks(m: Manifest, job: Job) {
    && (forall k :: k in job.chunks <==> 0 <= k < |m.chunks|)
    && (forall k :: 0 <= k < |m.chunks| ==> ChunkOk(m.chunks[k], job.chunks[k]))
  }

  ghost predicate IsNew(m: Manifest, job: Job) {
    job == NewJob(m, job.jobId, job.stagingGeneration, job.mutationPolicy, job.pendingIntentDigest)
  }

  lemma {:induction false} InitialTracks(chunks: seq<ChunkDescriptor>)
    requires EntriesOk(chunks)
    ensures forall k :: k in InitialChunks(chunks) <==> 0 <= k < |chunks|
    ensures forall k :: 0 <= k < |chunks| ==> InitialChunks(chunks)[k] == InitialProgress(chunks[k])
  {
    if chunks == [] {
    } else {
      var n := |chunks| - 1;
      forall i | 0 <= i < n ensures EntryOk(chunks[..n], i) {
        assert EntryOk(chunks, i);
      }
      InitialTracks(chunks[..n]);
      assert EntryOk(chunks, n);
    }
  }

  lemma UpdateTracks(m: Manifest, job: Job, i: nat, p: ChunkProgress)
    requires Tracks(m, job) && i < |m.chunks| && ChunkOk(m.chunks[i], p)
    ensures Tracks(m, job.(chunks := job.chunks[i := p]))
  {
  }

  /** The progress that an operation on `d` leaves is still within what `d` declares. */
  lemma ProgressStaysOk(job: Job, op: Op)
    requires !op.Transit? && op.d.ordinal in job.chunks && ChunkOk(op.d, job.chunks[op.d.ordinal])
    ensures var next := Step(job, op);
            && op.d.ordinal in next.chunks && ChunkOk(op.d, next.chunks[op.d.ordinal])
            && next == job.(chunks := job.chunks[op.d.ordinal := next.chunks[op.d.ordinal]])
  {
    var same := job.chunks[op.d.ordinal := job.chunks[op.d.ordinal]];
    assert same == job.chunks;
  }

  lemma StepTracks(m: Manifest, job: Job, op: Op)
    requires EntriesOk(m.chunks) && Tracks(m, job) && (!op.Transit? ==> op.d in m.chunks)
    ensures Tracks(m, Step(job, op))
    ensures Step(job, op).(state := job.state, chunks := job.chunks) == job
  {
    if !op.Transit? {
      var i :| 0 <= i < |m.chunks| && m.chunks[i] == op.d;
      assert EntryOk(m.chunks, i);
      assert ChunkOk(m.chunks[i], job.chunks[i]);
      ProgressStaysOk(job, op);
      UpdateTracks(m, job, i, Step(job, op).chunks[i]);
    }
  }

  lemma {:induction false} RunTracks(m: Manifest, job: Job, ops: seq<Op>, n: nat)
    requires EntriesOk(m.chunks) && Tracks(m, job) && UsesManifest(m, ops) && n <= |ops|
    ensures Tracks(m, At(job, ops, n))
    ensures At(job, ops, n).(state := job.state, chunks := job.chunks) == job
  {
    if n == 0 {
    } else {
      RunTracks(m, job, ops, n - 1);
      StepTracks(m, At(job, ops, n - 1), ops[n - 1]);
    }
  }

  function Ordinals(n: nat): (r: set<nat>)
    ensures |r| == n
    ensures forall k :: k in r <==> 0 <= k < n
  {
    if n == 0 then {} else Ordinals(n - 1) + {n - 1}
  }

  /** A job that tracks a verified manifest and has its identity always passes `validate_resume`. */
  lemma TrackingIsResumable(env: Env, m: Manifest, job: Job)
    requires ManifestOk(env, m) && Tracks(m, job)
    requires job.snapshotId == m.snapshotId && job.manifestRoot == m.rootDigest
    requires job.boundary == m.boundary && job.schemaVersion == m.schemaVersion
    ensures ResumeOk(env, job, m)
  {
    assert job.chunks.Keys == Ordinals(|m.chunks|);
    forall i | 0 <= i < |m.chunks|
      ensures m.chunks[i].ordinal in job.chunks && job.chunks[m.chunks[i].ordinal].chunkId == m.chunks[i].chunkId
    {
      assert EntryOk(m.chunks, i);
      assert ChunkOk(m.chunks[i], job.chunks[i]);
    }
  }

  /** Throughout every run from a new job, `validate_resume` stays true. */
  lemma ResumeStaysValid(env: Env, m: Manifest, job: Job, ops: seq<Op>, n: nat)
    requires ManifestOk(env, m) && UsesManifest(m, ops) && n <= |ops|
    requires IsNew(m, job)
    ensures Tracks(m, At(job, ops, n)) && ResumeOk(env, At(job, ops, n), m)
  {
    InitialTracks(m.chunks);
    RunTracks(m, job, ops, n);
    TrackingIsResumable(env, m, At(job, ops, n));
  }

  // ---------------------------------------------------------------------------------------------
  // Chunks
  // ---------------------------------------------------------------------------------------------

  lemma StepAdvances(job: Job, op: Op, k: nat)
    requires k in job.chunks
    ensures k in Step(job, op).chunks && job.chunks[k].state.Rank() <= Step(job, op).chunks[k].state.Rank()
  {
  }

  /** A chunk's state never goes back. */
  lemma {:induction false} ChunkStatesOnlyAdvance(job: Job, ops: seq<Op>, i: nat, j: nat, k: nat)
    requires i <= j <= |ops| && k in At(job, ops, i).chunks
    ensures k in At(job, ops, j).chunks
    ensures At(job, ops, i).chunks[k].state.Rank() <= At(job, ops, j).chunks[k].state.Rank()
    decreases j
  {
    if i == j {
    } else {
      ChunkStatesOnlyAdvance(job, ops, i, j - 1, k);
      StepAdvances(At(job, ops, j - 1), ops[j - 1], k);
    }
  }

  ghost predicate OneIdentity(p: ChunkProgress, accepted: seq<ChunkRead>) {
    && (accepted == [] <==> p.objectIdentity.None?)
    && forall i :: 0 <= i < |accepted| ==> p.objectIdentity == Some(accepted[i].objectIdentity)
  }

  /** What is recorded as downloaded is what was accepted, all from one object. */
  ghost predicate Accounts(p: ChunkProgress, accepted: seq<ChunkRead>) {
    && p.downloadedBytes == TotalLength(accepted) && p.attempts == Min(|accepted|, U32_MAX)
    && OneIdentity(p, accepted)
  }

  lemma ReadAccounts(p: ChunkProgress, accepted: seq<ChunkRead>, read: ChunkRead)
    requires Accounts(p, accepted)
    requires read.nextOffset == p.downloadedBytes + |read.bytes|
    requires p.objectIdentity.Some? ==> p.objectIdentity.value == read.objectIdentity
    ensures Accounts(ReadProgress(p, read), accepted + [read])
  {
    assert (accepted + [read])[..|accepted|] == accepted;
  }

  /** One operation changes the progress of chunk `k` only by an accepted read, or to a later state. */
  lemma StepAccounts(job: Job, op: Op, k: nat, accepted: seq<ChunkRead>)
    requires k in job.chunks && Accounts(job.chunks[k], accepted)
    ensures var next := Step(job, op);
            && k in next.chunks
            && Accounts(next.chunks[k], if Accepts(job, op, k) then accepted + [op.read] else accepted)
  {
    if Accepts(job, op, k) {
      ReadAccounts(job.chunks[k], accepted, op.read);
    }
  }

  /** Recorded bytes and attempts are those of the accepted pieces, all of one object. */
  lemma {:induction false} DownloadedIsAccepted(job: Job, ops: seq<Op>, n: nat, k: nat)
    requires k in job.chunks && Accounts(job.chunks[k], []) && n <= |ops|
    ensures k in At(job, ops, n).chunks && Accounts(At(job, ops, n).chunks[k], AcceptedReads(job, ops, n, k))
    decreases n
  {
    if n == 0 {
    } else {
      DownloadedIsAccepted(job, ops, n - 1, k);
      StepAccounts(At(job, ops, n - 1), ops[n - 1], k, AcceptedReads(job, ops, n - 1, k));
    }
  }

  // ---------------------------------------------------------------------------------------------
  // Phases
  // ---------------------------------------------------------------------------------------------

  /** The phases of one attempt, in order. */
  predicate Staging(s: JobState) {
    s.Planning? || s.Downloading? || s.Installing? || s.Verifying? || s.ReadyToActivate?
  }

  function Phase(s: JobState): nat
    requires Staging(s)
  {
    match s
    case Planning => 0
    case Downloading => 1
    case Installing => 2
    case Verifying => 3
    case ReadyToActivate => 4
  }

  /** From `p` to `n` the job stays within one attempt. */
  ghost predicate OneAttempt(job: Job, ops: seq<Op>, p: nat, n: nat) {
    p <= n <= |ops| && forall i :: p <= i <= n ==> Staging(At(job, ops, i).state)
  }

  lemma {:induction false} AttemptStarts(job: Job, ops: seq<Op>, n: nat) returns (p: nat)
    requires n <= |ops| && job.state.Requested? && Staging(At(job, ops, n).state)
    ensures OneAttempt(job, ops, p, n) && At(job, ops, p).state == Planning
    decreases n
  {
    if At(job, ops, n).state == Planning {
      p := n;
    } else {
      p := AttemptStarts(job, ops, n - 1);
    }
  }

  lemma PhaseStep(job: Job, op: Op)
    requires Staging(job.state) && Staging(Step(job, op).state)
    ensures Phase(Step(job, op).state) <= Phase(job.state) + 1
  {
  }

  /** Phases are not skipped: to get from below phase `f` to `f` or beyond, the job passes `f`. */
  lemma {:induction false} PhaseIsPassed(job: Job, ops: seq<Op>, p: nat, n: nat, f: nat) returns (i: nat)
    requires OneAttempt(job, ops, p, n)
    requires Phase(At(job, ops, p).state) <= f <= Phase(At(job, ops, n).state)
    ensures p <= i <= n && Phase(At(job, ops, i).state) == f
    decreases n
  {
    if Phase(At(job, ops, n).state) == f {
      i := n;
    } else {
      assert Staging(At(job, ops, n - 1).state) && Staging(At(job, ops, n).state);
      PhaseStep(At(job, ops, n - 1), ops[n - 1]);
      i := PhaseIsPassed(job, ops, p, n - 1, f);
    }
  }

  /** The attempt that made the job ready went through these phases at `d`, `i` and `v`. */
  ghost predicate WentThrough(job: Job, ops: seq<Op>, n: nat, d: nat, i: nat, v: nat) {
    && d < i < v < n <= |ops| && OneAttempt(job, ops, d, n)
    && At(job, ops, d).state == Downloading
    && At(job, ops, i).state == Installing
    && At(job, ops, v).state == Verifying
  }

  /** A job that is ready went through downloading, installing and verifying in this attempt. */
  lemma ReadyWasVerified(job: Job, ops: seq<Op>, n: nat) returns (d: nat, i: nat, v: nat)
    requires n <= |ops| && job.state.Requested? && At(job, ops, n).state == ReadyToActivate
    ensures WentThrough(job, ops, n, d, i, v)
  {
    var p := AttemptStarts(job, ops, n);
    d := PhaseIsPassed(job, ops, p, n, 1);
    i := PhaseIsPassed(job, ops, d, n, 2);
    v := PhaseIsPassed(job, ops, i, n, 3);
  }

  // ---------------------------------------------------------------------------------------------
  // Totals and activation
  // ---------------------------------------------------------------------------------------------

  /** The `bytes_downloaded` of `status`, summed over the first `n` chunks. */
  function BytesDownloaded(job: Job, n: nat): nat
    requires forall k :: 0 <= k < n ==> k in job.chunks
  {
    if n == 0 then 0 else BytesDownloaded(job, n - 1) + job.chunks[n - 1].downloadedBytes
  }

  lemma {:induction false} BytesWithinManifest(m: Manifest, job: Job, n: nat)
    requires Tracks(m, job) && n <= |m.chunks|
    ensures BytesDownloaded(job, n) <= SumCompressed(m.chunks[..n])
    ensures (forall k :: 0 <= k < n ==> job.chunks[k].downloadedBytes == m.chunks[k].compressedBytes)
            ==> BytesDownloaded(job, n) == SumCompressed(m.chunks[..n])
  {
    if n == 0 {
    } else {
      BytesWithinManifest(m, job, n - 1);
      assert m.chunks[..n][..n - 1] == m.chunks[..n - 1];
      assert ChunkOk(m.chunks[n - 1], job.chunks[n - 1]);
    }
  }

  /** The 64-bit sum that `status` reports never overflows, in any reachable state. */
  ghost predicate StatusFits(m: Manifest, job: Job) {
    Tracks(m, job) && BytesDownloaded(job, |m.chunks|) <= m.totalCompressedBytes <= U64_MAX
  }

  lemma StatusNeverOverflows(env: Env, m: Manifest, job: Job, ops: seq<Op>, n: nat)
    requires ManifestOk(env, m) && UsesManifest(m, ops) && n <= |ops| && IsNew(m, job)
    ensures StatusFits(m, At(job, ops, n))
  {
    ResumeStaysValid(env, m, job, ops, n);
    TrackingFits(m, At(job, ops, n));
  }

  lemma TrackingFits(m: Manifest, job: Job)
    requires Tracks(m, job) && TotalsOk(m)
    ensures StatusFits(m, job)
    ensures (forall k :: 0 <= k < |m.chunks| ==> job.chunks[k].downloadedBytes == m.chunks[k].compressedBytes)
            ==> BytesDownloaded(job, |m.chunks|) == m.totalCompressedBytes
  {
    BytesWithinManifest(m, job, |m.chunks|);
    assert m.chunks[..|m.chunks|] == m.chunks;
  }

  /** The lease is for this snapshot, still runs, and keeps the journal readable right after the boundary. */
  predicate LeaseCovers(lease: Lease, m: Manifest, nowMs: u64) {
    && lease.snapshotId == m.snapshotId && lease.boundarySequence == m.boundary.sequence < U64_MAX
    && nowMs < lease.expiresAtMs && lease.retainedFrom <= m.boundary.sequence + 1
  }

  /** What the host reports at activation time is still what the snapshot was made for. */
  predicate StillCurrent(job: Job, m: Manifest, e: ActivationEvidence) {
    && e.authorizationCurrent && e.stagingVerified
    && e.manifestRoot == m.rootDigest
    && e.currentScopeVersion == m.boundary.scopeVersion && e.currentScopeGeneration == m.boundary.scopeGeneration
    && e.currentEpoch == m.boundary.epoch
    && e.pendingIntentDigest == job.pendingIntentDigest
    && e.installedChunks == set i | 0 <= i < |m.chunks| :: m.chunks[i].chunkId
  }

  /** Activation is verified exactly when every guard holds, and hands out the manifest's boundary. */
  lemma ActivationGuards(env: Env, job: Job, m: Manifest, evidence: ActivationEvidence, nowMs: u64)
    ensures VerifyActivation(env, job, m, evidence, nowMs).Ok?
            <==> && ResumeOk(env, job, m) && job.state == ReadyToActivate
                 && (forall k :: k in job.chunks ==> job.chunks[k].state == Installed)
                 && LeaseCovers(evidence.lease, m, nowMs) && StillCurrent(job, m, evidence)
    ensures VerifyActivation(env, job, m, evidence, nowMs).Ok? ==>
              VerifyActivation(env, job, m, evidence, nowMs).value
              == Activation(job.jobId, m.snapshotId, job.stagingGeneration, m.boundary.sequence,
                            job.pendingIntentDigest)
  {
    ResumeDecides(env, job, m);
  }

  /** Every chunk was read to its declared size from one object, and the total is the manifest's. */
  ghost predicate FullyDownloaded(m: Manifest, job: Job, ops: seq<Op>, n: nat) {
    && n <= |ops|
    && Tracks(m, At(job, ops, n))
    && BytesDownloaded(At(job, ops, n), |m.chunks|) == m.totalCompressedBytes
    && forall k :: 0 <= k < |m.chunks| ==>
                     && OneIdentity(At(job, ops, n).chunks[k], AcceptedReads(job, ops, n, k))
                     && TotalLength(AcceptedReads(job, ops, n, k)) == m.chunks[k].compressedBytes
  }

  lemma InstalledMeansDownloaded(m: Manifest, job: Job, ops: seq<Op>, n: nat)
    requires EntriesOk(m.chunks) && TotalsOk(m) && UsesManifest(m, ops) && n <= |ops| && IsNew(m, job)
    requires Tracks(m, At(job, ops, n))
    requires forall k :: k in At(job, ops, n).chunks ==> At(job, ops, n).chunks[k].state == Installed
    ensures FullyDownloaded(m, job, ops, n)
  {
    var last := At(job, ops, n);
    InitialTracks(m.chunks);
    forall k | 0 <= k < |m.chunks|
      ensures last.chunks[k].downloadedBytes == m.chunks[k].compressedBytes
      ensures Accounts(last.chunks[k], AcceptedReads(job, ops, n, k))
    {
      assert ChunkOk(m.chunks[k], last.chunks[k]);
      assert job.chunks[k] == InitialProgress(m.chunks[k]);
      DownloadedIsAccepted(job, ops, n, k);
    }
    TrackingFits(m, last);
  }

  /**
   * Activation safety: if activation is verified after any run from a new job, the attempt went
   * through Downloading, Installing and Verifying; every chunk's accepted reads, all of one object,
   * add up to its declared size, so the total is the manifest's; authorization, scope, epoch and
   * pending intent are still current; and the returned cursor is the manifest boundary with the
   * journal retained from the next sequence at the latest.
   */
  lemma ActivationIsSafe(
    env: Env, m: Manifest, job: Job, ops: seq<Op>, n: nat, evidence: ActivationEvidence, nowMs: u64)
    returns (d: nat, i: nat, v: nat)
    requires UsesManifest(m, ops) && n <= |ops| && IsNew(m, job)
    requires VerifyActivation(env, At(job, ops, n), m, evidence, nowMs).Ok?
    ensures WentThrough(job, ops, n, d, i, v)
    ensures FullyDownloaded(m, job, ops, n)
    ensures var activation := VerifyActivation(env, At(job, ops, n), m, evidence, nowMs).value;
            && activation.snapshotId == m.snapshotId && activation.cursorSequence == m.boundary.sequence
            && LeaseCovers(evidence.lease, m, nowMs) && StillCurrent(At(job, ops, n), m, evidence)
  {
    ActivationGuards(env, At(job, ops, n), m, evidence, nowMs);
    d, i, v := ReadyWasVerified(job, ops, n);
    ResumeStaysValid(env, m, job, ops, n);
    InstalledMeansDownloaded(m, job, ops, n);
  }
}
