/** The records the stale-work cleanup reads, plans with and writes to its audit files. */
module CleanupRecords {

  datatype BranchTarget = BranchTarget(branch: string, sha: string)

  datatype PullRow = PullRow(number: int, open: bool, head: string)

  datatype Status = DryRun | Pass

  datatype Plan = Plan(
    repository: string,
    status: Status,
    mutationExecuted: bool,
    branchCount: nat,
    pullCount: nat,
    staleBranches: seq<BranchTarget>,
    stalePulls: seq<PullRow>)

  /** What an audit file holds once it is finalized. */
  datatype Document =
    | PlanReceipt(plan: Plan)
    | OperationReceipt(plan: Plan, deleted: seq<BranchTarget>)
    | VerificationReceipt(branchCount: nat, pullCount: nat)
}
