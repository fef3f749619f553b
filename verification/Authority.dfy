/**
 * Authority failover (`crates/aequora-authority/src/lib.rs`): fencing, promotion, recovery and the
 * rollback anchor, as step functions and as the mutable controller proved against them.
 */
module Authority {
  import opened Base

  datatype Role = Primary | Standby | ReadReplica | RecoveringRole | Demoted

  datatype Mode = Serving | Recovering | ReadOnlyVerification | PromotionPending | Quarantined

  datatype PromotionClass = LosslessContinuation | PotentialDataLoss | RestoredTimeline | NewAuthorityMigration

  datatype Reason =
    | PlannedMigration | RegionFailover | PointInTimeRestore | CorruptionRecovery
    | StandbyPromotion | ForkResolution | OperatorDemotion

  type Id = nat

  datatype AuthorityState = AuthorityState(
    authorityId: Id, epoch: u64, role: Role, instanceId: Id, fence: u64, mode: Mode,
    lastClass: PromotionClass, transitionId: Id, updatedAtMs: u64)

  /** `AuthorityState::new`: the first epoch, never serving yet. */
  function NewState(authorityId: Id, instanceId: Id, role: Role, transitionId: Id, atMs: u64): AuthorityState {
    AuthorityState(authorityId, 1, role, instanceId, 1,
                   if role == Primary then ReadOnlyVerification else Recovering,
                   LosslessContinuation, transitionId, atMs)
  }

  datatype CommitContext = CommitContext(authorityId: Id, epoch: u64, instanceId: Id, fence: u64)

  datatype PromotionPolicy = PromotionPolicy(
    allowAutomaticLossless: bool, requireManualForDataLoss: bool, requireExternalFence: bool)

  datatype Evidence = Evidence(
    oldPrimaryExternallyFenced: bool, replicationLag: Option<u64>, journalContinuity: bool,
    operationLedgerContinuity: bool, auditContinuity: bool, authorityMetadataContinuity: bool,
    scopeMetadataContinuity: bool, snapshotCatalogConsistent: bool, governanceReconciled: bool,
    sideEffectStatusKnown: bool)
  {
    predicate ProvesLossless() {
      && replicationLag == Some(0) && journalContinuity && operationLedgerContinuity && auditContinuity
      && authorityMetadataContinuity && scopeMetadataContinuity && snapshotCatalogConsistent
    }
  }

  datatype PromotionRequest = PromotionRequest(
    class_: PromotionClass, reason: Reason, evidence: Evidence, allowDataLoss: bool,
    manuallyApproved: bool, newInstanceId: Id, createdAtMs: u64)

  datatype Transition = Transition(
    transitionId: Id, authorityId: Id, oldEpoch: u64, newEpoch: u64, class_: PromotionClass,
    oldFinalSequence: Option<u64>, newBaseSequence: u64, reason: Reason, createdAtMs: u64, fence: u64)
  {
    /** `AuthorityTransitionManifest::verify`. */
    function Verify(): Option<AuthorityError> {
      var sameEpoch := oldEpoch == newEpoch;
      if class_ == LosslessContinuation && !sameEpoch then Some(UnexpectedEpochChange)
      else if (class_ == PotentialDataLoss || class_ == RestoredTimeline) && sameEpoch then Some(UnsafeEpochReuse)
      else if newEpoch < oldEpoch then Some(UnsafeEpochReuse)
      else None
    }
  }

  datatype Outcome = Outcome(state: AuthorityState, transition: Transition)

  datatype Recovery = Recovery(
    authorityMetadataValid: bool, journalConsistent: bool, operationLedgerConsistent: bool,
    auditChainValid: bool, governanceReconciled: bool, scopeMetadataValid: bool,
    snapshotStrategyReady: bool, sideEffectStatusKnown: bool, externalEpochValid: bool)
  {
    predicate IsComplete() {
      && authorityMetadataValid && journalConsistent && operationLedgerConsistent && auditChainValid
      && governanceReconciled && scopeMetadataValid && snapshotStrategyReady && sideEffectStatusKnown
      && externalEpochValid
    }
  }

  datatype Checkpoint = Checkpoint(authorityId: Id, epoch: u64, sequence: u64, journalRoot: Bytes)

  datatype Comparison = Match | DifferentPosition | DifferentTimeline | ForkDetected

  function CompareCheckpoints(local: Checkpoint, peer: Checkpoint): Comparison {
    if local.authorityId != peer.authorityId || local.epoch != peer.epoch then DifferentTimeline
    else if local.sequence != peer.sequence then DifferentPosition
    else if local.journalRoot != peer.journalRoot then ForkDetected
    else Match
  }

  datatype AuthorityError =
    | ExternalEpochRegression | AuthorityRollbackDetected | NotPrimary(role: Role) | WritesBlocked(mode: Mode)
    | StaleFence | ExternalFenceRequired | LosslessContinuityUnproven | DataLossApprovalRequired
    | ManualApprovalRequired | EpochExhausted | FenceTokenExhausted | RecoveryVerificationIncomplete
    | UnexpectedEpochChange | UnsafeEpochReuse

  // ---------------------------------------------------------------------------------------------
  // Step functions
  // ---------------------------------------------------------------------------------------------

  datatype Control = Control(state: AuthorityState, policy: PromotionPolicy, anchor: Option<u64>)

  predicate AnchorAllows(c: Control) {
    c.anchor.None? || c.state.epoch >= c.anchor.value
  }

  function AuthorizeWrite(c: Control): Result<CommitContext, AuthorityError> {
    if !AnchorAllows(c) then Err(AuthorityRollbackDetected)
    else if c.state.role != Primary then Err(NotPrimary(c.state.role))
    else if c.state.mode != Serving then Err(WritesBlocked(c.state.mode))
    else Ok(CommitContext(c.state.authorityId, c.state.epoch, c.state.instanceId, c.state.fence))
  }

  function VerifyCommit(c: Control, context: CommitContext): Result<(), AuthorityError> {
    match AuthorizeWrite(c)
    case Err(e) => Err(e)
    case Ok(current) => if current == context then Ok(()) else Err(StaleFence)
  }

  function SetAnchor(c: Control, epoch: u64): (Control, Result<(), AuthorityError>) {
    if epoch < c.state.epoch || (c.anchor.Some? && epoch < c.anchor.value) then
      (c, Err(ExternalEpochRegression))
    else (c.(anchor := Some(epoch)), Ok(()))
  }

  /** What the approvals say about a promotion, before the state is touched. */
  function PromotionRefusal(policy: PromotionPolicy, request: PromotionRequest): Option<AuthorityError> {
    var proven := request.evidence.ProvesLossless();
    var risky := request.class_ == PotentialDataLoss || request.class_ == RestoredTimeline
                 || (request.class_ == NewAuthorityMigration && !proven);
    if policy.requireExternalFence && !request.evidence.oldPrimaryExternallyFenced then Some(ExternalFenceRequired)
    else if request.class_ == LosslessContinuation && !proven then Some(LosslessContinuityUnproven)
    else if risky && !request.allowDataLoss then Some(DataLossApprovalRequired)
    else if risky && policy.requireManualForDataLoss && !request.manuallyApproved then Some(ManualApprovalRequired)
    else None
  }

  function RetainsEpoch(request: PromotionRequest): bool {
    || request.class_ == LosslessContinuation
    || (request.class_ == NewAuthorityMigration && request.evidence.ProvesLossless())
  }

  function Promote(c: Control, request: PromotionRequest, oldFinal: Option<u64>, newBase: u64, transitionId: Id)
    : (Control, Result<Outcome, AuthorityError>)
  {
    var s := c.state;
    var newEpoch: nat := if RetainsEpoch(request) then s.epoch else s.epoch + 1;
    if PromotionRefusal(c.policy, request).Some? then (c, Err(PromotionRefusal(c.policy, request).value))
    else if newEpoch > U64_MAX then (c, Err(EpochExhausted))
    else if s.fence == U64_MAX then (c, Err(FenceTokenExhausted))
    else
      var next := AuthorityState(s.authorityId, newEpoch, Primary, request.newInstanceId, s.fence + 1,
                                 ReadOnlyVerification, request.class_, transitionId, request.createdAtMs);
      (c.(state := next),
       Ok(Outcome(next, Transition(transitionId, s.authorityId, s.epoch, newEpoch, request.class_, oldFinal,
                                   newBase, request.reason, request.createdAtMs, s.fence + 1))))
  }

  /** The role and mode are overwritten before the fence is advanced, so they stay if that fails. */
  function Demote(c: Control, atMs: u64, transitionId: Id): (Control, Result<AuthorityState, AuthorityError>) {
    var stopped := c.state.(role := Demoted, mode := Recovering);
    if c.state.fence == U64_MAX then (c.(state := stopped), Err(FenceTokenExhausted))
    else
      var next := stopped.(fence := c.state.fence + 1, transitionId := transitionId, updatedAtMs := atMs);
      (c.(state := next), Ok(next))
  }

  function BeginRecovery(c: Control, atMs: u64): Control {
    c.(state := c.state.(mode := Recovering, updatedAtMs := atMs))
  }

  function CompleteRecovery(c: Control, v: Recovery, atMs: u64): (Control, Result<(), AuthorityError>) {
    if !v.IsComplete() then (c, Err(RecoveryVerificationIncomplete))
    else if !AnchorAllows(c) then (c, Err(AuthorityRollbackDetected))
    else if c.state.role != Primary then (c, Err(NotPrimary(c.state.role)))
    else (c.(state := c.state.(mode := Serving, updatedAtMs := atMs)), Ok(()))
  }

  function ObserveCheckpoint(c: Control, local: Checkpoint, peer: Checkpoint, atMs: u64): (Control, Comparison) {
    var comparison := CompareCheckpoints(local, peer);
    if comparison == ForkDetected then
      (c.(state := c.state.(mode := Quarantined, updatedAtMs := atMs)), comparison)
    else (c, comparison)
  }
}

/** The mutable controller object. */
module AuthorityObject {
  import opened Base
  import opened Authority

  class AuthorityController {
    var state: AuthorityState
    const policy: PromotionPolicy
    var anchor: Option<u64>

    function Value(): Control
      reads this
    {
      Control(state, policy, anchor)
    }

    constructor (state: AuthorityState, policy: PromotionPolicy)
      ensures Value() == Control(state, policy, None)
    {
      this.state := state;
      this.policy := policy;
      anchor := None;
    }

    method SetExternalHighestEpoch(epoch: u64) returns (r: Result<(), AuthorityError>)
      modifies this`anchor
      ensures (Value(), r) == SetAnchor(old(Value()), epoch)
    {
      if epoch < state.epoch {
        return Err(ExternalEpochRegression);
      }
      if anchor.Some? && epoch < anchor.value {
        return Err(ExternalEpochRegression);
      }
      anchor := Some(epoch);
      return Ok(());
    }

    method Promote(request: PromotionRequest, oldFinal: Option<u64>, newBase: u64, transitionId: Id)
      returns (r: Result<Outcome, AuthorityError>)
      modifies this`state
      ensures (Value(), r) == Authority.Promote(old(Value()), request, oldFinal, newBase, transitionId)
    {
      if policy.requireExternalFence && !request.evidence.oldPrimaryExternallyFenced {
        return Err(ExternalFenceRequired);
      }
      var proven := request.evidence.ProvesLossless();
      if request.class_ == LosslessContinuation && !proven {
        return Err(LosslessContinuityUnproven);
      }
      var risky := request.class_ == PotentialDataLoss || request.class_ == RestoredTimeline
                   || (request.class_ == NewAuthorityMigration && !proven);
      if risky && !request.allowDataLoss {
        return Err(DataLossApprovalRequired);
      }
      if risky && policy.requireManualForDataLoss && !request.manuallyApproved {
        return Err(ManualApprovalRequired);
      }
      var oldEpoch := state.epoch;
      var newEpoch := oldEpoch;
      if !(request.class_ == LosslessContinuation || (request.class_ == NewAuthorityMigration && proven)) {
        if oldEpoch == U64_MAX {
          return Err(EpochExhausted);
        }
        newEpoch := oldEpoch + 1;
      }
      if state.fence == U64_MAX {
        return Err(FenceTokenExhausted);
      }
      var newFence := state.fence + 1;
      state := AuthorityState(state.authorityId, newEpoch, Primary, request.newInstanceId, newFence,
                              ReadOnlyVerification, request.class_, transitionId, request.createdAtMs);
      return Ok(Outcome(state, Transition(transitionId, state.authorityId, oldEpoch, newEpoch, request.class_,
                                          oldFinal, newBase, request.reason, request.createdAtMs, newFence)));
    }

    method Demote(atMs: u64, transitionId: Id) returns (r: Result<AuthorityState, AuthorityError>)
      modifies this`state
      ensures (Value(), r) == Authority.Demote(old(Value()), atMs, transitionId)
    {
      state := state.(role := Demoted);
      state := state.(mode := Recovering);
      if state.fence == U64_MAX {
        return Err(FenceTokenExhausted);
      }
      state := state.(fence := state.fence + 1);
      state := state.(transitionId := transitionId);
      state := state.(updatedAtMs := atMs);
      return Ok(state);
    }

    method BeginRecovery(atMs: u64)
      modifies this`state
      ensures Value() == Authority.BeginRecovery(old(Value()), atMs)
    {
      state := state.(mode := Recovering, updatedAtMs := atMs);
    }

    method CompleteRecovery(v: Recovery, atMs: u64) returns (r: Result<(), AuthorityError>)
      modifies this`state
      ensures (Value(), r) == Authority.CompleteRecovery(old(Value()), v, atMs)
    {
      if !v.IsComplete() {
        return Err(RecoveryVerificationIncomplete);
      }
      if anchor.Some? && state.epoch < anchor.value {
        return Err(AuthorityRollbackDetected);
      }
      if state.role != Primary {
        return Err(NotPrimary(state.role));
      }
      state := state.(mode := Serving, updatedAtMs := atMs);
      return Ok(());
    }

    method ObserveCheckpoint(local: Checkpoint, peer: Checkpoint, atMs: u64) returns (comparison: Comparison)
      modifies this`state
      ensures (Value(), comparison) == Authority.ObserveCheckpoint(old(Value()), local, peer, atMs)
    {
      comparison := CompareCheckpoints(local, peer);
      if comparison == ForkDetected {
        state := state.(mode := Quarantined, updatedAtMs := atMs);
      }
    }
  }
}
