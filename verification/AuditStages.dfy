/** Whether the stages after discovery may reuse the base run's
    work: each stage's identity takes in the one before it. */
module AuditStages {
  import opened Hashing
  import opened Options
  import opened ImportClosure
  import opened IncrementalReuse

  /** The rules a stage checks by: the run's settings, and the number a build gives to what its stages check. */
  datatype Rules = Rules(settings: Digest, stageLogic: nat)

  /** What the identity of every stage covers, each the digest of its own inputs. */
  datatype Inputs = Inputs(
    repository: Digest, manifests: Option<Digest>, scope: Digest, harness: Digest, models: Digest, policy: Rules)

  /** The stages in order, and the digest of each one's protocols and prompt overrides. */
  datatype Stage = Clustering | PeerReview | Verification | Planning

  const STAGES: seq<Stage> := [Clustering, PeerReview, Verification, Planning]

  /** The stage logic of the running build. */
  const STAGE_LOGIC := 4

  type Protocols = Stage -> Digest

  /** The digest of a stage's components, the previous stage's identity among them; injective, so kept as a term. */
  datatype Identity = NoStage | StageIdentity(stage: Stage, components: Components)
  datatype Components = Components(inputs: Inputs, protocols: Digest, upstream: Identity)

  /** The components of stage `k`. */
  function ComponentsAt(inputs: Inputs, protocols: Protocols, k: nat): Components
    requires k < 4
    decreases k, 1
  {
    Components(inputs, protocols(STAGES[k]), Upstream(inputs, protocols, k))
  }

  function Upstream(inputs: Inputs, protocols: Protocols, k: nat): Identity
    requires k <= 4
    decreases k, 0
  {
    if k == 0 then NoStage else StageIdentity(STAGES[k - 1], ComponentsAt(inputs, protocols, k - 1))
  }

  /** `auditStageIdentities`: threads each stage's identity into the next. */
  method AuditStageIdentities(inputs: Inputs, protocols: Protocols) returns (result: seq<Identity>)
    ensures |result| == 4
    ensures forall k :: 0 <= k < 4 ==> result[k] == StageIdentity(STAGES[k], ComponentsAt(inputs, protocols, k))
  {
    result := [];
    var upstream := NoStage;
    for k := 0 to 4
      invariant |result| == k && upstream == Upstream(inputs, protocols, k)
      invariant forall i :: 0 <= i < k ==> result[i] == StageIdentity(STAGES[i], ComponentsAt(inputs, protocols, i))
    {
      var identity := StageIdentity(STAGES[k], Components(inputs, protocols(STAGES[k]), upstream));
      result := result + [identity];
      upstream := identity;
    }
  }

  // ----- What rules out reuse of any stage

  datatype RunState = Completed | Running | Stopped

  datatype SnapshotIdentity = SnapshotIdentity(repositoryDigest: Digest, manifests: Digest, gitHead: Option<Digest>)

  /** What a run is configured with, as far as its stages depend on it. */
  datatype Config = Config(scope: Digest, harness: Digest, models: Digest, policy: Digest, protocols: Protocols)

  /** The base as it was stored; `stageLogic` is that of the build that audited it. */
  datatype Base = Base(
    state: RunState, repository: Path, graph: Option<Digest>, repositoryDigest: Digest,
    snapshot: Option<SnapshotIdentity>, config: Config, stageLogic: nat)

  datatype Target = Target(repository: Path, graph: Digest, snapshot: SnapshotIdentity, config: Config)

  /** Git's answer to whether one commit is an ancestor of another; an error counts as no. */
  type Ancestry = (Digest, Digest) -> bool

  datatype Fallback =
    | BaseRunLive
    | BaseRepositoryDiffers
    | BaseWorkflowGraphUnavailable
    | WorkflowGraphChanged
    | BaseSnapshotIdentityUnavailable
    | BaseSnapshotIdentityInconsistent
    | GitIdentityUnavailable
    | GitHistoryRewritten

  function BaseHead(base: Base): Option<Digest> { if base.snapshot.Some? then base.snapshot.value.gitHead else None }

  /** A fallback stands exactly for what it names. */
  predicate Holds(r: Fallback, base: Base, target: Target, isAncestor: Ancestry) {
    match r
    case BaseRunLive => base.state.Running?
    case BaseRepositoryDiffers => base.repository != target.repository
    case BaseWorkflowGraphUnavailable => base.graph.None?
    case WorkflowGraphChanged => base.graph.Some? && base.graph.value != target.graph
    case BaseSnapshotIdentityUnavailable => base.snapshot.None?
    case BaseSnapshotIdentityInconsistent =>
      base.snapshot.Some? && base.snapshot.value.repositoryDigest != base.repositoryDigest
    case GitIdentityUnavailable => BaseHead(base).Some? && target.snapshot.gitHead.None?
    case GitHistoryRewritten =>
      && BaseHead(base).Some? && target.snapshot.gitHead.Some? && BaseHead(base) != target.snapshot.gitHead
      && !isAncestor(BaseHead(base).value, target.snapshot.gitHead.value)
  }

  method FallbackReasons(base: Base, target: Target, isAncestor: Ancestry) returns (reasons: seq<Fallback>)
    ensures forall r :: r in reasons <==> Holds(r, base, target, isAncestor)
  {
    reasons := [];
    if base.state.Running? {
      reasons := reasons + [BaseRunLive];
    }
    if base.repository != target.repository {
      reasons := reasons + [BaseRepositoryDiffers];
    }
    if base.graph.None? {
      reasons := reasons + [BaseWorkflowGraphUnavailable];
    } else if base.graph.value != target.graph {
      reasons := reasons + [WorkflowGraphChanged];
    }
    if base.snapshot.None? {
      reasons := reasons + [BaseSnapshotIdentityUnavailable];
    } else if base.snapshot.value.repositoryDigest != base.repositoryDigest {
      reasons := reasons + [BaseSnapshotIdentityInconsistent];
    }
    if base.snapshot.Some? && base.snapshot.value.gitHead.Some? {
      if target.snapshot.gitHead.None? {
        reasons := reasons + [GitIdentityUnavailable];
      } else if base.snapshot.value.gitHead.value != target.snapshot.gitHead.value {
        if !isAncestor(base.snapshot.value.gitHead.value, target.snapshot.gitHead.value) {
          reasons := reasons + [GitHistoryRewritten];
        }
      }
    }
  }

  ghost predicate Established(base: Base, target: Target, isAncestor: Ancestry) {
    forall r :: !Holds(r, base, target, isAncestor)
  }

  // ----- The stage decisions

  datatype StageReason =
    | FullAuditFallback | BaseNotCompleted
    | ChangedRepository | ChangedManifests | ChangedScope | ChangedHarness
    | ChangedModels | ChangedProtocols | ChangedPolicy | ChangedUpstream

  function TargetInputs(target: Target): Inputs {
    Inputs(target.snapshot.repositoryDigest, Some(target.snapshot.manifests), target.config.scope,
        target.config.harness,
           target.config.models, Rules(target.config.policy, STAGE_LOGIC))
  }

  /** The base's inputs as a build of the given stage logic computes them. */
  function BaseInputs(base: Base, stageLogic: nat): Inputs {
    Inputs(base.repositoryDigest, if base.snapshot.Some? then Some(base.snapshot.value.manifests) else None,
        base.config.scope,
           base.config.harness, base.config.models, Rules(base.config.policy, stageLogic))
  }

  function Differences(now: Components, before: Components): set<StageReason> {
    (if now.inputs.repository != before.inputs.repository then {ChangedRepository} else {})
    + (if now.inputs.manifests != before.inputs.manifests then {ChangedManifests} else {})
    + (if now.inputs.scope != before.inputs.scope then {ChangedScope} else {})
    + (if now.inputs.harness != before.inputs.harness then {ChangedHarness} else {})
    + (if now.inputs.models != before.inputs.models then {ChangedModels} else {})
    + (if now.protocols != before.protocols then {ChangedProtocols} else {})
    + (if now.inputs.policy != before.inputs.policy then {ChangedPolicy} else {})
    + (if now.upstream != before.upstream then {ChangedUpstream} else {})
  }

  /** The reasons to run stage `k` again, were the base's identities computed with `stageLogic`; none means reuse. */
  ghost function StageReasons(base: Base, target: Target, isAncestor: Ancestry, stageLogic: nat,
      k: nat): set<StageReason>
    requires k < 4
  {
    if !Established(base, target, isAncestor) then {FullAuditFallback}
    else if !base.state.Completed? then {BaseNotCompleted}
    else Differences(ComponentsAt(TargetInputs(target), target.config.protocols, k),
                     ComponentsAt(BaseInputs(base, stageLogic), base.config.protocols, k))
  }

  /** The stage decisions of `planIncrementalAudit`: both sides computed with the stage logic of the running build. */
  method DecideStages(base: Base, target: Target, isAncestor: Ancestry) returns (reasons: seq<set<StageReason>>)
    ensures |reasons| == 4
    ensures forall k :: 0 <= k < 4 ==> reasons[k] == StageReasons(base, target, isAncestor, STAGE_LOGIC, k)
  {
    hide Differences, ComponentsAt, Holds;
    var fallback := FallbackReasons(base, target, isAncestor);
    assert Established(base, target, isAncestor) <==> fallback == [] by {
      assert fallback != [] ==> fallback[0] in fallback;
    }
    var now := AuditStageIdentities(TargetInputs(target), target.config.protocols);
    var before := AuditStageIdentities(BaseInputs(base, STAGE_LOGIC), base.config.protocols);
    reasons := [];
    for k := 0 to 4
      invariant |reasons| == k
      invariant forall i :: 0 <= i < k ==> reasons[i] == StageReasons(base, target, isAncestor, STAGE_LOGIC, i)
    {
      var one :=
        if fallback != [] then {FullAuditFallback}
        else if !base.state.Completed? then {BaseNotCompleted}
        else Differences(now[k].components, before[k].components);
      reasons := reasons + [one];
    }
  }

  lemma NoDifferenceIffEqual(now: Components, before: Components)
    ensures Differences(now, before) == {} <==> now == before
  {
    if now.inputs.repository != before.inputs.repository { assert ChangedRepository in Differences(now, before); }
    if now.inputs.manifests != before.inputs.manifests { assert ChangedManifests in Differences(now, before); }
    if now.inputs.scope != before.inputs.scope { assert ChangedScope in Differences(now, before); }
    if now.inputs.harness != before.inputs.harness { assert ChangedHarness in Differences(now, before); }
    if now.inputs.models != before.inputs.models { assert ChangedModels in Differences(now, before); }
    if now.protocols != before.protocols { assert ChangedProtocols in Differences(now, before); }
    if now.inputs.policy != before.inputs.policy { assert ChangedPolicy in Differences(now, before); }
    if now.upstream != before.upstream { assert ChangedUpstream in Differences(now, before); }
  }

  /** Components are equal exactly when the shared inputs are, and the protocols of the stage and every earlier one. */
  lemma {:induction false} EqualIffAllEarlierEqual(a: Inputs, protocols: Protocols, b: Inputs, baseProtocols: Protocols,
      k: nat)
    requires k < 4
    ensures ComponentsAt(a, protocols, k) == ComponentsAt(b, baseProtocols, k) <==>
            a == b && forall j :: 0 <= j <= k ==> protocols(STAGES[j]) == baseProtocols(STAGES[j])
    decreases k
  {
    if k > 0 {
      EqualIffAllEarlierEqual(a, protocols, b, baseProtocols, k - 1);
    }
  }

  /** The configurations agree on all a stage depends on, up to and including stage `k`. */
  ghost predicate SameConfig(a: Config, b: Config, k: nat)
    requires k < 4
  {
    && a.scope == b.scope && a.harness == b.harness && a.models == b.models && a.policy == b.policy
    && forall j :: 0 <= j <= k ==> a.protocols(STAGES[j]) == b.protocols(STAGES[j])
  }

  /** The base completed on the same content of the same repository
      under the same graph, on a line of history still there. */
  ghost predicate Comparable(base: Base, target: Target, isAncestor: Ancestry) {
    && base.state.Completed? && base.repository == target.repository && base.graph == Some(target.graph)
    && base.snapshot.Some? && base.snapshot.value.repositoryDigest == base.repositoryDigest
    && base.repositoryDigest == target.snapshot.repositoryDigest
    && base.snapshot.value.manifests == target.snapshot.manifests
    && var head := base.snapshot.value.gitHead;
       head.Some? ==>
         && target.snapshot.gitHead.Some?
         && (head == target.snapshot.gitHead || isAncestor(head.value, target.snapshot.gitHead.value))
  }

  lemma EstablishedIs(base: Base, target: Target, isAncestor: Ancestry)
    requires base.state.Completed? && base.repositoryDigest == target.snapshot.repositoryDigest
    requires base.snapshot.Some? ==> base.snapshot.value.manifests == target.snapshot.manifests
    ensures Established(base, target, isAncestor) <==> Comparable(base, target, isAncestor)
  {
    if Established(base, target, isAncestor) {
      assert !Holds(BaseRepositoryDiffers, base, target, isAncestor);
      assert !Holds(BaseWorkflowGraphUnavailable, base, target, isAncestor)
          && !Holds(WorkflowGraphChanged, base, target, isAncestor);
      assert !Holds(BaseSnapshotIdentityUnavailable, base, target, isAncestor);
      assert !Holds(BaseSnapshotIdentityInconsistent, base, target, isAncestor);
      assert !Holds(GitIdentityUnavailable, base, target, isAncestor)
          && !Holds(GitHistoryRewritten, base, target, isAncestor);
    }
  }

  /**
   * A stage is reused exactly when the base is comparable, nothing it or an earlier stage depends
   * on changed, and the stage logic its identities are computed with is the running build's.
   */
  lemma StageReusedIff(base: Base, target: Target, isAncestor: Ancestry, stageLogic: nat, k: nat)
    requires k < 4
    ensures StageReasons(base, target, isAncestor, stageLogic, k) == {} <==>
            Comparable(base, target, isAncestor) && SameConfig(base.config, target.config, k)
                && stageLogic == STAGE_LOGIC
  {
    hide Differences, ComponentsAt, Holds, Established;
    var now := ComponentsAt(TargetInputs(target), target.config.protocols, k);
    var before := ComponentsAt(BaseInputs(base, stageLogic), base.config.protocols, k);
    NoDifferenceIffEqual(now, before);
    EqualIffAllEarlierEqual(TargetInputs(target), target.config.protocols, BaseInputs(base, stageLogic),
        base.config.protocols, k);
    if base.state.Completed? && base.repositoryDigest == target.snapshot.repositoryDigest
       && (base.snapshot.Some? ==> base.snapshot.value.manifests == target.snapshot.manifests) {
      EstablishedIs(base, target, isAncestor);
    }
    if base.snapshot.None? {
      Unavailable(base, target, isAncestor);
    }
  }

  lemma Unavailable(base: Base, target: Target, isAncestor: Ancestry)
    requires base.snapshot.None?
    ensures !Established(base, target, isAncestor)
  {
    assert Holds(BaseSnapshotIdentityUnavailable, base, target, isAncestor);
  }

  /** A stage is reused only if every earlier one is. */
  lemma ReuseIsPrefixClosed(base: Base, target: Target, isAncestor: Ancestry, stageLogic: nat, k: nat, j: nat)
    requires j <= k < 4
    requires StageReasons(base, target, isAncestor, stageLogic, k) == {}
    ensures StageReasons(base, target, isAncestor, stageLogic, j) == {}
  {
    hide StageReasons, Comparable;
    StageReusedIff(base, target, isAncestor, stageLogic, k);
    StageReusedIff(base, target, isAncestor, stageLogic, j);
  }

  /** The code reuses a stage that would not be reused were the base taken by the stage logic it was audited under. */
  ghost predicate ReusedDespiteItsLogic(base: Base, target: Target, isAncestor: Ancestry) {
    exists k :: 0 <= k < 4 && StageReasons(base, target, isAncestor, STAGE_LOGIC, k) == {}
                && StageReasons(base, target, isAncestor, base.stageLogic, k) != {}
  }

  /**
   * The base's own stage logic is not compared: both identities are computed by the running build. A base audited
   * under another stage logic is reused exactly when it is comparable and its first stage's inputs are as they were.
   */
  lemma OtherLogicIsReusedIff(base: Base, target: Target, isAncestor: Ancestry)
    ensures ReusedDespiteItsLogic(base, target, isAncestor) <==>
            base.stageLogic != STAGE_LOGIC && Comparable(base, target, isAncestor)
                && SameConfig(base.config, target.config, 0)
  {
    hide StageReasons, Comparable;
    forall k | 0 <= k < 4
      ensures StageReasons(base, target, isAncestor, STAGE_LOGIC, k) == {} <==>
              Comparable(base, target, isAncestor) && SameConfig(base.config, target.config, k)
      ensures StageReasons(base, target, isAncestor, base.stageLogic, k) == {} <==>
              Comparable(base, target, isAncestor) && SameConfig(base.config, target.config, k)
                  && base.stageLogic == STAGE_LOGIC
    {
      StageReusedIff(base, target, isAncestor, STAGE_LOGIC, k);
      StageReusedIff(base, target, isAncestor, base.stageLogic, k);
    }
    if ReusedDespiteItsLogic(base, target, isAncestor) {
      assert forall k :: 0 <= k < 4 && SameConfig(base.config, target.config, k) ==>
          SameConfig(base.config, target.config, 0);
    }
  }

  /** A base of an older build, audited on the very same repository and configuration, is reused in all its stages. */
  lemma OlderBuildIsReused(target: Target, isAncestor: Ancestry, k: nat)
    requires k < 4
    ensures var base := Base(Completed, target.repository, Some(target.graph), target.snapshot.repositoryDigest,
                             Some(target.snapshot), target.config, 3);
            && base.stageLogic != STAGE_LOGIC
            && StageReasons(base, target, isAncestor, STAGE_LOGIC, k) == {}
            && StageReasons(base, target, isAncestor, base.stageLogic, k) != {}
  {
    hide StageReasons;
    var base := Base(Completed, target.repository, Some(target.graph), target.snapshot.repositoryDigest,
                     Some(target.snapshot), target.config, 3);
    StageReusedIff(base, target, isAncestor, STAGE_LOGIC, k);
    StageReusedIff(base, target, isAncestor, base.stageLogic, k);
  }
}
