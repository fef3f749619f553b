/**
 * Single-writer safety over every run of the failover controller, whatever the interleaving of
 * promotions, demotions, recoveries, fork observations and commits
 * (`crates/aequora-authority/src/lib.rs`).
 */
module AuthorityTheorems {
  import opened Base
  import opened Authority

  datatype Op =
    | Anchor(epoch: u64)
    | Authorize
    | Commit(context: CommitContext)
    | DoPromote(request: PromotionRequest, oldFinal: Option<u64>, newBase: u64, transitionId: Id)
    | DoDemote(atMs: u64, transitionId: Id)
    | Begin(atMs: u64)
    | Complete(verification: Recovery, atMs: u64)
    | Observe(local: Checkpoint, peer: Checkpoint, atMs: u64)

  function Step(c: Control, op: Op): Control {
    match op
    case Anchor(epoch) => SetAnchor(c, epoch).0
    case Authorize => c
    case Commit(_) => c
    case DoPromote(request, oldFinal, newBase, id) => Promote(c, request, oldFinal, newBase, id).0
    case DoDemote(atMs, id) => Demote(c, atMs, id).0
    case Begin(atMs) => BeginRecovery(c, atMs)
    case Complete(v, atMs) => CompleteRecovery(c, v, atMs).0
    case Observe(local, peer, atMs) => ObserveCheckpoint(c, local, peer, atMs).0
  }

  /** The controller after the first `n` operations. */
  function At(c: Control, ops: seq<Op>, n: nat): Control
    requires n <= |ops|
  {
    if n == 0 then c else Step(At(c, ops, n - 1), ops[n - 1])
  }

  /** Operation `i` is a promotion that goes through. */
  predicate Promotes(c: Control, ops: seq<Op>, i: nat)
    requires i < |ops|
  {
    ops[i].DoPromote? &&
    Promote(At(c, ops, i), ops[i].request, ops[i].oldFinal, ops[i].newBase, ops[i].transitionId).1.Ok?
  }

  /** Operation `i` hands out `context`. */
  predicate Grants(c: Control, ops: seq<Op>, i: nat, context: CommitContext)
    requires i < |ops|
  {
    ops[i].Authorize? && AuthorizeWrite(At(c, ops, i)) == Ok(context)
  }

  /** Operation `i` is a commit that is accepted. */
  predicate Commits(c: Control, ops: seq<Op>, i: nat)
    requires i < |ops|
  {
    ops[i].Commit? && VerifyCommit(At(c, ops, i), ops[i].context).Ok?
  }

  // ---------------------------------------------------------------------------------------------
  // Fencing
  // ---------------------------------------------------------------------------------------------

  lemma StepIsMonotone(c: Control, op: Op)
    ensures var a, b := c.state, Step(c, op).state;
            && a.fence <= b.fence && a.epoch <= b.epoch && a.authorityId == b.authorityId
            && (a.fence == b.fence ==> a.epoch == b.epoch && a.instanceId == b.instanceId)
  {
  }

  /** Fence and epoch never decrease, and an unchanged fence means an unchanged writer. */
  lemma {:induction false} FenceNeverDecreases(c: Control, ops: seq<Op>, i: nat, j: nat)
    requires i <= j <= |ops|
    ensures var a, b := At(c, ops, i).state, At(c, ops, j).state;
            && a.fence <= b.fence && a.epoch <= b.epoch && a.authorityId == b.authorityId
            && (a.fence == b.fence ==> a.epoch == b.epoch && a.instanceId == b.instanceId)
    decreases j
  {
    if i == j {
    } else {
      FenceNeverDecreases(c, ops, i, j - 1);
      StepIsMonotone(At(c, ops, j - 1), ops[j - 1]);
    }
  }

  /** Single writer: two accepted commits under the same fence come from the same instance and epoch. */
  lemma SingleWriterPerFence(c: Control, ops: seq<Op>, i: nat, j: nat)
    requires i < |ops| && j < |ops| && Commits(c, ops, i) && Commits(c, ops, j)
    requires ops[i].context.fence == ops[j].context.fence
    ensures ops[i].context == ops[j].context
  {
    if i <= j {
      FenceNeverDecreases(c, ops, i, j);
    } else {
      FenceNeverDecreases(c, ops, j, i);
    }
  }

  /** Accepted commits are ordered: a later commit never carries an older fence or epoch. */
  lemma CommitsAreOrdered(c: Control, ops: seq<Op>, i: nat, j: nat)
    requires i <= j < |ops| && Commits(c, ops, i) && Commits(c, ops, j)
    ensures ops[i].context.fence <= ops[j].context.fence && ops[i].context.epoch <= ops[j].context.epoch
  {
    FenceNeverDecreases(c, ops, i, j);
  }

  /** No context with fence `f` or lower can be accepted any more. */
  predicate FencedOff(s: AuthorityState, f: u64) {
    s.fence > f || (s.fence == U64_MAX && s.role != Primary)
  }

  lemma {:induction false} FencedOffForever(c: Control, ops: seq<Op>, i: nat, j: nat, f: u64)
    requires i <= j <= |ops| && FencedOff(At(c, ops, i).state, f)
    ensures FencedOff(At(c, ops, j).state, f)
    decreases j
  {
    if i == j {
    } else {
      FencedOffForever(c, ops, i, j - 1, f);
      StepIsMonotone(At(c, ops, j - 1), ops[j - 1]);
    }
  }

  /**
   * A context handed out before a successful promotion, or before any demotion (even one that
   * reports an exhausted fence), is never accepted afterwards.
   */
  lemma StaleContextNeverVerifies(c: Control, ops: seq<Op>, i: nat, k: nat, j: nat, context: CommitContext)
    requires i < k < j < |ops| && Grants(c, ops, i, context)
    requires Promotes(c, ops, k) || ops[k].DoDemote?
    requires ops[j] == Commit(context)
    ensures !Commits(c, ops, j)
  {
    FenceNeverDecreases(c, ops, i, k);
    assert FencedOff(At(c, ops, k + 1).state, context.fence);
    FencedOffForever(c, ops, k + 1, j, context.fence);
  }

  /** Nothing strictly between `i` and `j` fences the writer off. */
  ghost predicate Unfenced(c: Control, ops: seq<Op>, i: nat, j: nat)
    requires j <= |ops|
  {
    forall k :: i < k < j ==> !Promotes(c, ops, k) && !ops[k].DoDemote?
  }

  lemma {:induction false} UnfencedKeepsWriter(c: Control, ops: seq<Op>, i: nat, j: nat)
    requires i < j <= |ops| && ops[i].Authorize? && Unfenced(c, ops, i, j)
    ensures var a, b := At(c, ops, i).state, At(c, ops, j).state;
            a.fence == b.fence && a.epoch == b.epoch && a.instanceId == b.instanceId && a.authorityId == b.authorityId
    decreases j
  {
    if i + 1 < j {
      UnfencedKeepsWriter(c, ops, i, j - 1);
    }
  }

  /**
   * A context that was handed out is accepted later exactly when writes are authorised then and
   * no promotion went through and no demotion was asked for in between.
   */
  lemma ContextLivesUntilFenced(c: Control, ops: seq<Op>, i: nat, j: nat, context: CommitContext)
    requires i < j < |ops| && Grants(c, ops, i, context) && ops[j] == Commit(context)
    ensures Commits(c, ops, j) <==> AuthorizeWrite(At(c, ops, j)).Ok? && Unfenced(c, ops, i, j)
  {
    if Unfenced(c, ops, i, j) {
      UnfencedKeepsWriter(c, ops, i, j);
    } else {
      var k :| i < k < j && (Promotes(c, ops, k) || ops[k].DoDemote?);
      StaleContextNeverVerifies(c, ops, i, k, j, context);
    }
  }

  // ---------------------------------------------------------------------------------------------
  // Writes only after a verified recovery
  // ---------------------------------------------------------------------------------------------

  /** Operation `i` takes the instance out of service. */
  predicate Interrupts(c: Control, ops: seq<Op>, i: nat)
    requires i < |ops|
  {
    || Promotes(c, ops, i)
    || ops[i].DoDemote?
    || ops[i].Begin?
    || (ops[i].Observe? && CompareCheckpoints(ops[i].local, ops[i].peer) == ForkDetected)
  }

  /** Operation `i` is a recovery that is accepted with all nine checks true. */
  predicate Recovers(c: Control, ops: seq<Op>, i: nat)
    requires i < |ops|
  {
    && ops[i].Complete?
    && ops[i].verification == Recovery(true, true, true, true, true, true, true, true, true)
    && CompleteRecovery(At(c, ops, i), ops[i].verification, ops[i].atMs).1.Ok?
  }

  /** Only a recovery starts service, and what interrupts it ends it. */
  lemma ServiceStep(c: Control, ops: seq<Op>, i: nat)
    requires i < |ops| && At(c, ops, i + 1).state.mode == Serving && !Recovers(c, ops, i)
    ensures At(c, ops, i).state.mode == Serving && !Interrupts(c, ops, i)
  {
  }

  lemma {:induction false} ServingMeansRecovered(c: Control, ops: seq<Op>, n: nat) returns (k: nat)
    requires n <= |ops| && c.state.mode != Serving
    requires At(c, ops, n).state.mode == Serving
    ensures k < n && Recovers(c, ops, k)
    ensures forall m :: k < m < n ==> !Interrupts(c, ops, m)
  {
    if Recovers(c, ops, n - 1) {
      k := n - 1;
    } else {
      ServiceStep(c, ops, n - 1);
      k := ServingMeansRecovered(c, ops, n - 1);
    }
  }

  lemma {:induction false} UninterruptedServes(c: Control, ops: seq<Op>, k: nat, n: nat)
    requires k < n <= |ops| && Recovers(c, ops, k) && forall m :: k < m < n ==> !Interrupts(c, ops, m)
    ensures At(c, ops, n).state.role == Primary && At(c, ops, n).state.mode == Serving
    decreases n
  {
    if k + 1 < n {
      UninterruptedServes(c, ops, k, n - 1);
      assert !Interrupts(c, ops, n - 1);
    }
  }

  /**
   * Starting from a fresh state, a write is authorised exactly when the rollback anchor allows the
   * epoch and a recovery with all nine checks true was accepted with no promotion, demotion,
   * recovery start or fork since.
   */
  lemma WritesOnlyAfterVerifiedRecovery(
    authorityId: Id, instanceId: Id, role: Role, transitionId: Id, atMs: u64,
    policy: PromotionPolicy, ops: seq<Op>, n: nat)
    requires n <= |ops|
    ensures var c := Control(NewState(authorityId, instanceId, role, transitionId, atMs), policy, None);
            AuthorizeWrite(At(c, ops, n)).Ok?
            <==> && AnchorAllows(At(c, ops, n))
                 && exists k :: 0 <= k < n && Recovers(c, ops, k) && forall m :: k < m < n ==> !Interrupts(c, ops, m)
  {
    var c := Control(NewState(authorityId, instanceId, role, transitionId, atMs), policy, None);
    if AuthorizeWrite(At(c, ops, n)).Ok? {
      var k := ServingMeansRecovered(c, ops, n);
    } else if k :| 0 <= k < n && Recovers(c, ops, k) && forall m :: k < m < n ==> !Interrupts(c, ops, m) {
      UninterruptedServes(c, ops, k, n);
    }
  }

  // ---------------------------------------------------------------------------------------------
  // Promotions
  // ---------------------------------------------------------------------------------------------

  /** When a promotion goes through: proven continuity keeps the epoch, approved loss opens a new one. */
  lemma PromotionGoesThroughIff(c: Control, request: PromotionRequest, oldFinal: Option<u64>, newBase: u64, id: Id)
    ensures var e, s := request.evidence, c.state;
            Promote(c, request, oldFinal, newBase, id).1.Ok?
            <==> && (c.policy.requireExternalFence ==> e.oldPrimaryExternallyFenced)
                 && s.fence < U64_MAX
                 && (if RetainsEpoch(request) then e.ProvesLossless()
                     else && request.allowDataLoss
                          && (c.policy.requireManualForDataLoss ==> request.manuallyApproved)
                          && s.epoch < U64_MAX)
  {
  }

  /**
   * Every promotion's manifest passes its own verification, its fence is new, and it keeps the
   * epoch exactly when the class claims continuity, in which case the evidence proves it.
   */
  lemma PromotionIsSound(c: Control, request: PromotionRequest, oldFinal: Option<u64>, newBase: u64, id: Id)
    requires Promote(c, request, oldFinal, newBase, id).1.Ok?
    ensures var t := Promote(c, request, oldFinal, newBase, id).1.value.transition;
            && t.Verify().None?
            && t.fence > c.state.fence
            && (t.newEpoch == t.oldEpoch ==> request.evidence.ProvesLossless())
            && (t.newEpoch != t.oldEpoch ==> request.allowDataLoss)
            && (c.policy.requireExternalFence ==> request.evidence.oldPrimaryExternallyFenced)
  {
  }

  /** Operation `i` is a promotion that goes through without proving that nothing was lost. */
  predicate OpensEpoch(c: Control, ops: seq<Op>, i: nat)
    requires i < |ops|
  {
    && Promotes(c, ops, i)
    && (|| ops[i].request.class_ == PotentialDataLoss || ops[i].request.class_ == RestoredTimeline
        || !ops[i].request.evidence.ProvesLossless())
  }

  /** Operation `i` issues a fence: a promotion or demotion that goes through. */
  predicate IssuesFence(c: Control, ops: seq<Op>, i: nat)
    requires i < |ops|
  {
    || Promotes(c, ops, i)
    || (ops[i].DoDemote? && Demote(At(c, ops, i), ops[i].atMs, ops[i].transitionId).1.Ok?)
  }

  function EpochsOpened(c: Control, ops: seq<Op>, n: nat): nat
    requires n <= |ops|
  {
    if n == 0 then 0 else EpochsOpened(c, ops, n - 1) + if OpensEpoch(c, ops, n - 1) then 1 else 0
  }

  function FencesIssued(c: Control, ops: seq<Op>, n: nat): nat
    requires n <= |ops|
  {
    if n == 0 then 0 else FencesIssued(c, ops, n - 1) + if IssuesFence(c, ops, n - 1) then 1 else 0
  }

  lemma PromotionCounts(c: Control, request: PromotionRequest, oldFinal: Option<u64>, newBase: u64, id: Id)
    requires Promote(c, request, oldFinal, newBase, id).1.Ok?
    ensures var next := Promote(c, request, oldFinal, newBase, id).0.state;
            && next.fence == c.state.fence + 1
            && next.epoch == c.state.epoch
                 + if request.class_ == PotentialDataLoss || request.class_ == RestoredTimeline
                      || !request.evidence.ProvesLossless() then 1 else 0
  {
  }

  /**
   * Over every run the epoch counts exactly the promotions that went through without proven
   * continuity, and the fence exactly the promotions and demotions that went through.
   */
  lemma {:induction false} EpochAndFenceCount(c: Control, ops: seq<Op>, n: nat)
    requires n <= |ops|
    ensures At(c, ops, n).state.epoch == c.state.epoch + EpochsOpened(c, ops, n)
    ensures At(c, ops, n).state.fence == c.state.fence + FencesIssued(c, ops, n)
    ensures At(c, ops, n).policy == c.policy
    decreases n
  {
    if n == 0 {
    } else {
      EpochAndFenceCount(c, ops, n - 1);
      var op := ops[n - 1];
      if Promotes(c, ops, n - 1) {
        PromotionCounts(At(c, ops, n - 1), op.request, op.oldFinal, op.newBase, op.transitionId);
      }
    }
  }

  /** A new epoch is opened only by a promotion that accepted the loss, by hand where that is required. */
  lemma NewEpochWasApproved(c: Control, ops: seq<Op>, i: nat)
    requires i < |ops| && OpensEpoch(c, ops, i)
    ensures ops[i].request.allowDataLoss
    ensures c.policy.requireManualForDataLoss ==> ops[i].request.manuallyApproved
  {
    var op := ops[i];
    EpochAndFenceCount(c, ops, i);
    PromotionGoesThroughIff(At(c, ops, i), op.request, op.oldFinal, op.newBase, op.transitionId);
  }

  // ---------------------------------------------------------------------------------------------
  // Rollback anchor
  // ---------------------------------------------------------------------------------------------

  lemma {:induction false} AnchorNeverDecreases(c: Control, ops: seq<Op>, i: nat, j: nat)
    requires i <= j <= |ops| && At(c, ops, i).anchor.Some?
    ensures At(c, ops, j).anchor.Some? && At(c, ops, i).anchor.value <= At(c, ops, j).anchor.value
    decreases j
  {
    if i == j {
    } else {
      AnchorNeverDecreases(c, ops, i, j - 1);
    }
  }

  /** A write is never authorised in an epoch below an anchor that was accepted earlier. */
  lemma NoWriteBelowAnchor(c: Control, ops: seq<Op>, i: nat, j: nat, context: CommitContext)
    requires i < j < |ops| && ops[i].Anchor? && SetAnchor(At(c, ops, i), ops[i].epoch).1.Ok?
    requires Grants(c, ops, j, context)
    ensures context.epoch >= ops[i].epoch
  {
    AnchorNeverDecreases(c, ops, i + 1, j);
  }
}
