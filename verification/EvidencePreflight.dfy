/** From the readiness summary to the pre-signing stage: the readiness part of `build_plan`
    (scripts/ga/build_final_validation_evidence_chain_plan.py) and `bind`
    (scripts/ga/bind_final_validation_evidence_chain_preflight.py). */
module EvidencePreflight {
  import opened Collections
  import opened Readiness
  import opened ReadinessReview

  const EXPECTED_REPOSITORY := "Naveax/PSMatrix"
  const EXPECTED_EXECUTION_ANCHOR := "3ffc6b6d7cd58d64224f780aa819b50f50f72491"
  const CONTROL_FLAGS := {
    "all_control_runs_completed_successfully", "all_control_runs_are_main_push",
    "all_control_runs_share_control_head", "control_run_ids_distinct"
  }
  const ANCHOR_FLAGS := {
    "publication_anchor_verified", "publication_commit_verified", "publication_ancestry_verified",
    "dispatch_sources_verified", "authenticated_api_collection_verified"
  }
  const ANCHOR_READINESS_FLAGS := {"latest_readiness_artifact_provenance_verified", "readiness_pass_observed"}
  const LOCK_API_FLAGS := {"run_and_artifact_provenance_verified", "repository_target_presence_verified"}
  const LOCK_CONTENT_FLAGS := {
    "repository_target_content_verified", "reviewed_draft_digest_bound", "reviewed_public_key_digest_bound",
    "promotion_run_bound", "review_run_bound", "repository_public_key_bytes_verified"
  }

  /** The fields `_non_ga` looks at. */
  datatype Boundary = Boundary(gaEligible: Option<bool>, releaseClosed: Option<bool>, stateMutated: Option<bool>)

  predicate NonGa(b: Boundary) {
    b.gaEligible == Some(false) && b.releaseClosed != Some(true) && b.stateMutated != Some(true)
  }

  /** `genuine` stands for the schema, kind, version and PASS status tests of a document; `flags` are the
      fields that are true. */
  datatype Plan = Plan(
    genuine: bool, repository: string, executionHead: string, finalReleaseCommit: string,
    requiredChecks: int, environmentCount: int, gateCount: int, operationCount: int,
    readyForSigning: bool, readyForLockBootstrap: bool, passed: int, failed: int, readinessPass: bool,
    missingMaterial: int, missingPaths: int,
    boundary: Boundary)

  datatype Control = Control(
    genuine: bool, repository: string, head: string, flags: set<string>,
    signingState: string, validationState: string, boundary: Boundary)

  /** The latest readiness run may be missing, and may lack an id. */
  datatype Anchor = Anchor(
    genuine: bool, repository: string, head: string, flags: set<string>, dispatchSources: int,
    postReadinessRuns: int, stage: string, latestReadinessRun: Option<Option<int>>, boundary: Boundary)

  datatype ReadinessReceipt = ReadinessReceipt(
    exactHead: string, verified: bool, environments: int, checks: int, runId: Option<int>, boundary: Boundary)

  datatype LockApi = LockApi(
    finalReleaseCommit: string, runs: int, flags: set<string>, signingExecuted: Option<bool>,
    repositoryCommit: string, boundary: Boundary)

  datatype LockContent = LockContent(
    finalReleaseCommit: string, repositoryCommit: string, flags: set<string>, signingExecuted: Option<bool>,
    boundary: Boundary)

  datatype Stage =
    | BlockedOnProductionReadiness
    | ReadinessNotExecuted
    | ReadinessInProgress
    | BlockedOnReadinessContentVerification
    | ReadyForFinalLockBootstrap
    | ReadyForFinalLockRepositoryContentVerification
    | ReadyForFinalReleaseSigning
  {
    /** The three stages in which the summary itself is not green. */
    predicate ReadinessBlocked() {
      BlockedOnProductionReadiness? || ReadinessNotExecuted? || ReadinessInProgress?
    }
  }

  // ----- build_plan -----

  /** The readiness part of `build_plan`; the evaluator, bootstrap and lock contracts are taken as accepted.
      `normal` strips and lower-cases. */
  method BuildPlan(normal: string -> string, contract: Contract, controlHead: string, summary: Summary)
    returns (r: Result<Plan>)
    ensures r.Ok? ==> Plans(contract, summary, r.value) && PlanAdmitted(r.value)
    ensures r.Ok? <==> normal(controlHead) == EXPECTED_EXECUTION_ANCHOR && Reviewable(contract, summary)
  {
    var head := normal(controlHead);
    if head != EXPECTED_EXECUTION_ANCHOR { return Raised; }
    var table := ValidateContract(contract);
    if table.Raised? { return Raised; }
    var counted := ValidateSummary(contract, table.value, summary);
    TableIsUnique(contract, table.value, summary);
    if counted.Raised? { return Raised; }
    var (passed, material, paths) := counted.value;
    return Ok(Plan(true, EXPECTED_REPOSITORY, head, EXPECTED_FINAL_RELEASE_COMMIT,
                   CHECK_COUNT, ENVIRONMENT_COUNT, 11, 11, false, passed == ENVIRONMENT_COUNT,
                   passed, ENVIRONMENT_COUNT - passed, summary.pass, material, paths,
                   Boundary(Some(false), Some(false), Some(false))));
  }

  ghost predicate Reviewable(contract: Contract, summary: Summary) {
    GoodContract(contract) &&
    exists table :: Tables(contract.environments, table) && GoodSummary(contract, table, summary)
  }

  lemma TableIsUnique(contract: Contract, table: map<string, Environment>, summary: Summary)
    requires GoodContract(contract) && Tables(contract.environments, table)
    ensures Reviewable(contract, summary) <==> GoodSummary(contract, table, summary)
  {
    hide GoodSummary, GoodContract;
    forall other | Tables(contract.environments, other) ensures other == table {
      forall n | n in table ensures other[n] == table[n] {
        var env :| env in contract.environments && env.name == n;
        var i :| 0 <= i < |contract.environments| && contract.environments[i] == env;
      }
    }
  }

  /** A plan made from a summary: it is ready exactly when all twelve environments pass. */
  ghost predicate Plans(contract: Contract, summary: Summary, plan: Plan) {
    && Reviewable(contract, summary)
    && plan.passed == CountPass(summary.rows) && plan.failed == ENVIRONMENT_COUNT - plan.passed
    && plan.passed == |Kept(summary.rows, Passing())|
    && plan.missingMaterial == |Cells(MissingLists(summary.rows))|
    && plan.missingPaths == |Cells(MissingPathLists(summary.rows))|
    && plan.readyForLockBootstrap == (plan.passed == ENVIRONMENT_COUNT) == plan.readinessPass
    && !plan.readyForSigning
  }

  // ----- bind -----

  predicate ControlVerified(lower: string -> string, c: Control) {
    && c.genuine && c.repository == EXPECTED_REPOSITORY && |lower(c.head)| == 40 && CONTROL_FLAGS <= c.flags
    && c.signingState == "NOT_EXECUTED" && c.validationState == "NOT_EXECUTED" && NonGa(c.boundary)
  }

  predicate AnchorVerified(a: Anchor) {
    && a.genuine && a.repository == EXPECTED_REPOSITORY && a.head == EXPECTED_EXECUTION_ANCHOR
    && ANCHOR_FLAGS <= a.flags && a.dispatchSources == 19 && a.postReadinessRuns == 0 && NonGa(a.boundary)
  }

  predicate PlanAdmitted(p: Plan) {
    && p.genuine && NonGa(p.boundary) && p.repository == EXPECTED_REPOSITORY
    && p.executionHead == EXPECTED_EXECUTION_ANCHOR && p.finalReleaseCommit == EXPECTED_FINAL_RELEASE_COMMIT
    && p.requiredChecks == CHECK_COUNT && p.environmentCount == ENVIRONMENT_COUNT
    && p.gateCount == 11 && p.operationCount == 11 && !p.readyForSigning
    && p.passed + p.failed == ENVIRONMENT_COUNT
    && p.readyForLockBootstrap == (p.passed == ENVIRONMENT_COUNT && p.failed == 0 && p.readinessPass)
  }

  predicate ReadinessVerified(r: ReadinessReceipt, a: Anchor) {
    && r.exactHead == EXPECTED_EXECUTION_ANCHOR && r.verified
    && r.environments == ENVIRONMENT_COUNT && r.checks == CHECK_COUNT
    && a.latestReadinessRun == Some(r.runId)
    && ANCHOR_READINESS_FLAGS <= a.flags && NonGa(r.boundary)
  }

  predicate LockApiVerified(lower: string -> string, l: LockApi) {
    && l.finalReleaseCommit == EXPECTED_FINAL_RELEASE_COMMIT && l.runs == 4 && LOCK_API_FLAGS <= l.flags
    && l.signingExecuted == Some(false) && |lower(l.repositoryCommit)| == 40 && NonGa(l.boundary)
  }

  predicate LockContentVerified(l: LockContent, repositoryCommit: string) {
    && l.finalReleaseCommit == EXPECTED_FINAL_RELEASE_COMMIT && l.repositoryCommit == repositoryCommit
    && LOCK_CONTENT_FLAGS <= l.flags && l.signingExecuted == Some(false) && NonGa(l.boundary)
  }

  /** What `bind` returns: the stage, and the three flags that say what was verified. */
  datatype Bound = Bound(stage: Stage, readinessVerified: bool, lockApiVerified: bool, lockContentVerified: bool)

  /** The decision tree of `bind` over the plan, the two control receipts and the three optional ones.
      `lower` is the lower-casing of commits. */
  function DecideStage(lower: string -> string, plan: Plan, control: Control, anchor: Anchor,
                       readiness: Option<ReadinessReceipt>, api: Option<LockApi>, content: Option<LockContent>): Result<Stage>
  {
    if !Admitted(lower, plan, control, anchor) then Raised
    else if !plan.readyForLockBootstrap then
      if readiness.Some? || api.Some? || content.Some? then Raised
      else if anchor.stage == "BLOCKED_ON_PRODUCTION_READINESS" then Ok(BlockedOnProductionReadiness)
      else if anchor.stage == "READINESS_NOT_EXECUTED" then Ok(ReadinessNotExecuted)
      else if anchor.stage == "READINESS_IN_PROGRESS" then Ok(ReadinessInProgress)
      else Raised
    else if readiness.None? then Ok(BlockedOnReadinessContentVerification)
    else if !ReadinessVerified(readiness.value, anchor) then Raised
    else if api.None? then
      if content.Some? then Raised else Ok(ReadyForFinalLockBootstrap)
    else if !LockApiVerified(lower, api.value) then Raised
    else if content.None? then Ok(ReadyForFinalLockRepositoryContentVerification)
    else if !LockContentVerified(content.value, lower(api.value.repositoryCommit)) then Raised
    else Ok(ReadyForFinalReleaseSigning)
  }

  predicate Admitted(lower: string -> string, plan: Plan, control: Control, anchor: Anchor) {
    ControlVerified(lower, control) && AnchorVerified(anchor) && PlanAdmitted(plan)
  }

  /** `bind`. The flags are set from the presence of the receipts, not from the branch taken. */
  function Bind(lower: string -> string, plan: Plan, control: Control, anchor: Anchor,
                readiness: Option<ReadinessReceipt>, api: Option<LockApi>, content: Option<LockContent>): Result<Bound>
  {
    match DecideStage(lower, plan, control, anchor, readiness, api, content)
    case Raised => Raised
    case Ok(stage) =>
      var ready := plan.readyForLockBootstrap;
      Ok(Bound(stage, readiness.Some? && ready, api.Some? && ready, content.Some? && ready))
  }

  /** `bind` raises exactly on a document it does not admit; on a plan that is not ready, with a success
      receipt supplied or an anchor that is at no readiness stage; and on a ready plan, with a readiness
      receipt supplied, when that or a lock receipt does not verify or content comes without API. */
  lemma BindRaisesIff(lower: string -> string, plan: Plan, control: Control, anchor: Anchor,
                      readiness: Option<ReadinessReceipt>, api: Option<LockApi>, content: Option<LockContent>)
    ensures Bind(lower, plan, control, anchor, readiness, api, content).Raised? <==>
      var ready := plan.passed == ENVIRONMENT_COUNT && plan.readinessPass;
      || !ControlVerified(lower, control) || !AnchorVerified(anchor) || !PlanAdmitted(plan)
      || (!ready && (
            || readiness.Some? || api.Some? || content.Some?
            || anchor.stage !in {"BLOCKED_ON_PRODUCTION_READINESS", "READINESS_NOT_EXECUTED", "READINESS_IN_PROGRESS"}))
      || (ready && readiness.Some? && (
            || !ReadinessVerified(readiness.value, anchor)
            || (api.None? && content.Some?)
            || (api.Some? && !LockApiVerified(lower, api.value))
            || (api.Some? && content.Some? && !LockContentVerified(content.value, lower(api.value.repositoryCommit)))))
  {
    hide ControlVerified, AnchorVerified, ReadinessVerified, LockApiVerified, LockContentVerified;
  }

  /** What every binding that returns has seen of the plan and the two control receipts. */
  lemma BoundMeans(lower: string -> string, plan: Plan, control: Control, anchor: Anchor,
                   readiness: Option<ReadinessReceipt>, api: Option<LockApi>, content: Option<LockContent>)
    requires Bind(lower, plan, control, anchor, readiness, api, content).Ok?
    ensures plan.genuine && control.genuine && anchor.genuine
    ensures plan.repository == control.repository == anchor.repository == "Naveax/PSMatrix"
    ensures plan.executionHead == anchor.head == "3ffc6b6d7cd58d64224f780aa819b50f50f72491"
    ensures plan.finalReleaseCommit == EXPECTED_FINAL_RELEASE_COMMIT && |lower(control.head)| == 40
    ensures plan.requiredChecks == 41 && plan.environmentCount == 12 && plan.gateCount == 11 && plan.operationCount == 11
    ensures plan.passed + plan.failed == 12 && !plan.readyForSigning
    ensures plan.readyForLockBootstrap <==> plan.passed == 12 && plan.readinessPass
    ensures anchor.dispatchSources == 19 && anchor.postReadinessRuns == 0
    ensures control.signingState == control.validationState == "NOT_EXECUTED"
    ensures forall b | b in {plan.boundary, control.boundary, anchor.boundary} ::
      b.gaEligible == Some(false) && b.releaseClosed != Some(true) && b.stateMutated != Some(true)
    ensures {"publication_anchor_verified", "publication_commit_verified", "publication_ancestry_verified",
             "dispatch_sources_verified", "authenticated_api_collection_verified"} <= anchor.flags
    ensures {"all_control_runs_completed_successfully", "all_control_runs_are_main_push",
             "all_control_runs_share_control_head", "control_run_ids_distinct"} <= control.flags
  {
  }

  /** Each stage as a function of the inputs, for every binding that returns: an unready plan takes the
      anchor's stage; a ready one is placed by which of the three receipts are supplied. */
  lemma StageIff(lower: string -> string, plan: Plan, control: Control, anchor: Anchor,
                 readiness: Option<ReadinessReceipt>, api: Option<LockApi>, content: Option<LockContent>, b: Bound)
    requires Bind(lower, plan, control, anchor, readiness, api, content) == Ok(b)
    ensures var ready := plan.passed == ENVIRONMENT_COUNT && plan.readinessPass;
            && (b.stage == BlockedOnProductionReadiness <==> !ready && anchor.stage == "BLOCKED_ON_PRODUCTION_READINESS")
            && (b.stage == ReadinessNotExecuted <==> !ready && anchor.stage == "READINESS_NOT_EXECUTED")
            && (b.stage == ReadinessInProgress <==> !ready && anchor.stage == "READINESS_IN_PROGRESS")
            && (b.stage == BlockedOnReadinessContentVerification <==> ready && readiness.None?)
            && (b.stage == ReadyForFinalLockBootstrap <==> ready && readiness.Some? && api.None?)
            && (b.stage == ReadyForFinalLockRepositoryContentVerification <==>
                  ready && readiness.Some? && api.Some? && content.None?)
            && (b.stage == ReadyForFinalReleaseSigning <==> ready && readiness.Some? && api.Some? && content.Some?)
            && (b.readinessVerified <==> ready && readiness.Some?)
            && (b.lockApiVerified <==> ready && api.Some?) && (b.lockContentVerified <==> ready && content.Some?)
  {
    hide ControlVerified, AnchorVerified, ReadinessVerified, LockApiVerified, LockContentVerified;
    StageTextsDiffer();
  }

  lemma StageTextsDiffer()
    ensures "BLOCKED_ON_PRODUCTION_READINESS" != "READINESS_NOT_EXECUTED"
    ensures "BLOCKED_ON_PRODUCTION_READINESS" != "READINESS_IN_PROGRESS"
    ensures "READINESS_NOT_EXECUTED" != "READINESS_IN_PROGRESS"
  {
    assert "BLOCKED_ON_PRODUCTION_READINESS"[0] != "READINESS_NOT_EXECUTED"[0];
    assert "BLOCKED_ON_PRODUCTION_READINESS"[0] != "READINESS_IN_PROGRESS"[0];
    assert "READINESS_NOT_EXECUTED"[10] != "READINESS_IN_PROGRESS"[10];
  }

  /** A flag that is set although its receipt was never looked at: with a ready plan and no readiness
      receipt, an empty lock receipt is reported as verified. */
  lemma LockFlagsMayBeUnverified(lower: string -> string)
    requires |lower(EXPECTED_EXECUTION_ANCHOR)| == 40
    ensures var b := Boundary(Some(false), None, None);
            var plan := Plan(true, EXPECTED_REPOSITORY, EXPECTED_EXECUTION_ANCHOR, EXPECTED_FINAL_RELEASE_COMMIT,
                             CHECK_COUNT, ENVIRONMENT_COUNT, 11, 11, false, true, ENVIRONMENT_COUNT, 0, true, 0, 0, b);
            var control := Control(true, EXPECTED_REPOSITORY, EXPECTED_EXECUTION_ANCHOR, CONTROL_FLAGS,
                                   "NOT_EXECUTED", "NOT_EXECUTED", b);
            var anchor := Anchor(true, EXPECTED_REPOSITORY, EXPECTED_EXECUTION_ANCHOR, ANCHOR_FLAGS, 19, 0, "", None, b);
            var api := LockApi("", 0, {}, None, "", b);
            var content := LockContent("", "", {}, None, b);
            && Bind(lower, plan, control, anchor, None, Some(api), Some(content))
               == Ok(Bound(BlockedOnReadinessContentVerification, false, true, true))
            && !LockApiVerified(lower, api) && !LockContentVerified(content, lower(api.repositoryCommit))
  {
  }

  /** Every flag that is set is backed by its check, in every binding that returns. */
  ghost predicate FlagsBacked(lower: string -> string, plan: Plan, control: Control, anchor: Anchor,
                              readiness: Option<ReadinessReceipt>)
  {
    forall api, content, r | Bind(lower, plan, control, anchor, readiness, api, content) == Ok(r) ::
      && (r.readinessVerified ==> readiness.Some? && ReadinessVerified(readiness.value, anchor))
      && (r.lockApiVerified ==> api.Some? && LockApiVerified(lower, api.value))
      && (r.lockContentVerified ==>
            api.Some? && content.Some? && LockContentVerified(content.value, lower(api.value.repositoryCommit)))
  }

  /** The lock flags mean what they say exactly when a readiness receipt is supplied (a plan that is not
      ready, or not admitted, sets none). */
  lemma FlagsBackedIff(lower: string -> string, plan: Plan, control: Control, anchor: Anchor,
                       readiness: Option<ReadinessReceipt>)
    ensures FlagsBacked(lower, plan, control, anchor, readiness) <==>
      readiness.Some? || !plan.readyForLockBootstrap || !Admitted(lower, plan, control, anchor)
  {
    hide ControlVerified, AnchorVerified, PlanAdmitted, ReadinessVerified;
    if Admitted(lower, plan, control, anchor) && plan.readyForLockBootstrap && readiness.None? {
      var api := LockApi("", 0, {}, None, "", Boundary(None, None, None));
      assert Bind(lower, plan, control, anchor, readiness, Some(api), None)
          == Ok(Bound(BlockedOnReadinessContentVerification, false, true, false));
    }
  }

  // ----- the whole pipeline -----

  /** Every required check of every environment was answered positively by that environment's receipt. */
  ghost predicate EverythingProvided(contract: Contract, receipts: map<string, Receipt>) {
    forall i | 0 <= i < |contract.environments| ::
      && contract.environments[i].name in receipts
      && Provided(contract.environments[i], receipts[contract.environments[i].name])
  }

  /** Assemble, plan, bind: the stage leaves the three readiness-blocked ones exactly when everything the
      contract requires was provided. */
  lemma StageReflectsReadiness(lower: string -> string, contract: Contract, receipts: map<string, Receipt>,
                               summary: Summary, plan: Plan, control: Control, anchor: Anchor,
                               readiness: Option<ReadinessReceipt>,
                               api: Option<LockApi>, content: Option<LockContent>, b: Bound)
    requires Assembles(contract, receipts, summary) && Plans(contract, summary, plan)
    requires Bind(lower, plan, control, anchor, readiness, api, content) == Ok(b)
    ensures !b.stage.ReadinessBlocked() <==> EverythingProvided(contract, receipts)
  {
    hide Assembles, Reviewable, ControlVerified, AnchorVerified, PlanAdmitted, ReadinessVerified, LockApiVerified,
      LockContentVerified, Provided, CountPass;
    ReadyIffProvided(contract, receipts, summary);
  }

  /** Signing is reached only when, on top of that, the readiness content, the lock's run provenance and
      the lock's repository content were each verified, the last two for one repository commit. */
  lemma SigningStageIsFullyEvidenced(lower: string -> string, contract: Contract, receipts: map<string, Receipt>,
                                     summary: Summary, plan: Plan, control: Control, anchor: Anchor,
                                     readiness: Option<ReadinessReceipt>,
                                     api: Option<LockApi>, content: Option<LockContent>, b: Bound)
    requires Assembles(contract, receipts, summary) && Plans(contract, summary, plan)
    requires Bind(lower, plan, control, anchor, readiness, api, content) == Ok(b) && b.stage == ReadyForFinalReleaseSigning
    ensures EverythingProvided(contract, receipts)
    ensures readiness.Some? && api.Some? && content.Some?
    ensures ReadinessVerified(readiness.value, anchor) && LockApiVerified(lower, api.value)
    ensures LockContentVerified(content.value, lower(api.value.repositoryCommit))
    ensures var r, a, l := readiness.value, api.value, content.value;
            && r.exactHead == anchor.head == EXPECTED_EXECUTION_ANCHOR && r.verified && r.environments == 12 && r.checks == 41
            && anchor.latestReadinessRun == Some(r.runId) && "readiness_pass_observed" in anchor.flags
            && a.runs == 4 && "run_and_artifact_provenance_verified" in a.flags
            && "repository_target_presence_verified" in a.flags
            && "repository_target_content_verified" in l.flags && "repository_public_key_bytes_verified" in l.flags
            && l.repositoryCommit == lower(a.repositoryCommit)
            && a.finalReleaseCommit == l.finalReleaseCommit == EXPECTED_FINAL_RELEASE_COMMIT
            && a.signingExecuted == l.signingExecuted == Some(false)
  {
    hide Assembles, Plans, EverythingProvided, ControlVerified, PlanAdmitted;
    StageReflectsReadiness(lower, contract, receipts, summary, plan, control, anchor, readiness, api, content, b);
  }

  /** Outside the blocked stages, every path variable of every environment was confirmed exactly when
      each environment also lists its path variables as required variables. */
  lemma StageConfirmsPathsIff(lower: string -> string, contract: Contract, receipts: map<string, Receipt>,
                              summary: Summary, plan: Plan, control: Control, anchor: Anchor,
                              readiness: Option<ReadinessReceipt>,
                              api: Option<LockApi>, content: Option<LockContent>, b: Bound)
    requires Assembles(contract, receipts, summary) && Plans(contract, summary, plan)
    requires Bind(lower, plan, control, anchor, readiness, api, content) == Ok(b) && !b.stage.ReadinessBlocked()
    ensures EverythingProvided(contract, receipts)
    ensures (forall i | 0 <= i < |contract.environments| ::
               var env := contract.environments[i];
               forall p | p in env.pathVars :: PathConfirmed(receipts[env.name], p)) <==>
            (forall i | 0 <= i < |contract.environments| ::
               var env := contract.environments[i];
               forall p | p in env.pathVars :: p in env.vars)
  {
    hide Plans, ControlVerified, AnchorVerified, PlanAdmitted, ReadinessVerified, LockApiVerified, LockContentVerified,
      Provided, PathConfirmed, Covers;
    StageReflectsReadiness(lower, contract, receipts, summary, plan, control, anchor, readiness, api, content, b);
    forall i | 0 <= i < |contract.environments|
      ensures var env := contract.environments[i];
              && env.name in receipts
              && ((forall p | p in env.pathVars :: PathConfirmed(receipts[env.name], p)) <==>
                  (forall p | p in env.pathVars :: p in env.vars))
    {
      var env := contract.environments[i];
      EnvironmentCovered(contract, receipts, summary, i);
      PathsConfirmedIff(env, receipts[env.name]);
    }
  }

  lemma EnvironmentCovered(contract: Contract, receipts: map<string, Receipt>, summary: Summary, i: nat)
    requires Assembles(contract, receipts, summary) && i < |contract.environments|
    ensures contract.environments[i].name in receipts
    ensures Covers(contract.environments[i], receipts[contract.environments[i].name])
  {
  }

  lemma {:induction false} TableExists(envs: seq<Environment>) returns (table: map<string, Environment>)
    requires DistinctNames(envs)
    ensures Tables(envs, table)
  {
    if envs == [] {
      table := map[];
    } else {
      var front, last := envs[..|envs| - 1], envs[|envs| - 1];
      var t := TableExists(front);
      assert envs == front + [last];
      TablesExtend(front, t, last);
      assert last.name !in EnvironmentNames(front);
      table := t[last.name := last];
    }
  }

  /** A summary assembled under an acceptable contract never stops the plan. */
  lemma AssembledSummaryIsReviewable(contract: Contract, receipts: map<string, Receipt>, summary: Summary)
    requires GoodContract(contract) && Assembles(contract, receipts, summary)
    ensures Reviewable(contract, summary)
  {
    var table := TableExists(contract.environments);
    AssembledSummaryIsAccepted(contract, table, receipts, summary);
  }
}
