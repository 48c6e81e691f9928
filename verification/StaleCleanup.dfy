/** The stale-branch cleanup transaction of scripts/ga/cleanup_stale_release_work.py. */
module StaleCleanup {
  import opened Collections
  import opened CleanupRecords
  import opened StaleBranches
  import opened RefTransaction
  import opened AuditFiles
  import opened Paging
  import opened Sorting

  /** A plan that can be executed against these heads: unexecuted, for this repository, without stale
      pull requests, every row a stale branch at its recorded commit. */
  ghost predicate GoodPlan(plan: Plan, refs: Refs) {
    && plan.repository == REPOSITORY && plan.status == DryRun && !plan.mutationExecuted && plan.stalePulls == []
    && Pinned(refs, plan.staleBranches)
    && forall row | row in plan.staleBranches :: IsStale(row.branch) && IsSha40(row.sha)
  }

  /** The pre-flight of `execute_plan`: nothing is mutated, and it raises only on a bad plan or a failed
      request. */
  method CheckPlan(plan: Plan, gh: GitHub) returns (r: Result<seq<BranchTarget>>)
    modifies gh`faulted
    ensures old(gh.faulted) ==> gh.faulted
    ensures r.Ok? ==> r.value == plan.staleBranches && GoodPlan(plan, gh.refs)
    ensures r.Raised? ==> gh.faulted || !GoodPlan(plan, gh.refs)
  {
    if plan.repository != REPOSITORY || plan.status != DryRun || plan.mutationExecuted { return Raised; }
    if plan.stalePulls != [] { return Raised; }
    var rows := plan.staleBranches;
    var planned: seq<BranchTarget> := [];
    for i := 0 to |rows|
      invariant old(gh.faulted) ==> gh.faulted
      invariant planned == rows[..i] && Pinned(gh.refs, planned)
      invariant forall row | row in planned :: IsStale(row.branch) && IsSha40(row.sha)
    {
      var row := rows[i];
      if !IsSha40(row.sha) || row.branch in ALLOWED_BRANCHES || !IsStale(row.branch) { return Raised; }
      var current := gh.BranchRef(row.branch);
      if current != Ok(row.sha) { return Raised; }
      planned := planned + [row];
    }
    return Ok(planned);
  }

  /** A row of a plan without repeats is still there when the loop reaches it. */
  lemma ReachedRow(refs: Refs, planned: seq<BranchTarget>, i: nat)
    requires i < |planned|
    ensures Pinned(refs, planned) && DistinctBranches(planned) ==>
      planned[i].branch in refs - Branches(planned[..i]) && refs[planned[i].branch] == planned[i].sha
    ensures planned[i] in planned
  {
  }

  /** The deletion loop: every branch is looked up once more right before it is deleted, and recorded
      only after the call returned. The rows recorded are a duplicate-free prefix of the plan. */
  method DeletePlanned(gh: GitHub, planned: seq<BranchTarget>)
    returns (ok: bool, deleted: seq<BranchTarget>, ghost interrupted: seq<RefCall>)
    modifies gh
    ensures gh.calls == old(gh.calls) + (CleanDeletes(deleted) + interrupted)
    ensures gh.refs == Replay(old(gh.refs), CleanDeletes(deleted) + interrupted)
    ensures deleted <= planned && DistinctBranches(deleted) && Pinned(old(gh.refs), deleted)
    ensures IsInterruption(old(gh.refs), planned, deleted, interrupted)
    ensures ok ==> deleted == planned && interrupted == []
    ensures old(gh.faulted) ==> gh.faulted
    ensures !ok ==> gh.faulted || !Pinned(old(gh.refs), planned) || !DistinctBranches(planned)
                    || exists row | row in planned :: !IsSha40(row.sha)
  {
    hide Replay;
    ghost var start := gh.refs;
    deleted, interrupted := [], [];
    assert start - Branches(deleted) == start;
    for i := 0 to |planned|
      invariant deleted == planned[..i] && interrupted == []
      invariant gh.calls == old(gh.calls) + CleanDeletes(deleted)
      invariant gh.refs == start - Branches(deleted)
      invariant DistinctBranches(deleted) && Pinned(start, deleted)
      invariant old(gh.faulted) ==> gh.faulted
    {
      var row := planned[i];
      ReachedRow(start, planned, i);
      var current := gh.BranchRef(row.branch);
      if current != Ok(row.sha) {
        ReplayDeletes(start, deleted);
        assert CleanDeletes(deleted) + interrupted == CleanDeletes(deleted);
        return false, deleted, [];
      }
      ghost var n := |gh.calls|;
      var raised := gh.DeleteRef(row.branch);
      if raised {
        ReplayInterrupted(start, deleted, gh.calls[n]);
        return false, deleted, [gh.calls[n]];
      }
      DeletesExtend(start, deleted, row);
      deleted := deleted + [row];
    }
    ReplayDeletes(start, deleted);
    assert CleanDeletes(deleted) + interrupted == CleanDeletes(deleted);
    ok := true;
  }

  /** The rollback loop: last deleted first, carrying on past failures and naming each of them. */
  method RestoreDeleted(gh: GitHub, deleted: seq<BranchTarget>)
    returns (errors: seq<string>, ghost restores: seq<RefCall>)
    modifies gh
    ensures gh.calls == old(gh.calls) + restores
    ensures gh.refs == Replay(old(gh.refs), restores)
    ensures IsRestore(deleted, restores) && errors == RaisedBranches(restores)
    ensures old(gh.faulted) ==> gh.faulted
  {
    errors, restores := [], [];
    var i := |deleted|;
    while i > 0
      invariant 0 <= i <= |deleted|
      invariant gh.calls == old(gh.calls) + restores
      invariant gh.refs == Replay(old(gh.refs), restores)
      invariant old(gh.faulted) ==> gh.faulted
      invariant IsRestore(deleted[i..], restores) && errors == RaisedBranches(restores)
    {
      i := i - 1;
      ghost var n := |gh.calls|;
      var raised := gh.CreateRef(deleted[i].branch, deleted[i].sha);
      ghost var call := gh.calls[n];
      ghost var longer := restores + [call];
      assert longer[..|longer| - 1] == restores;
      restores := longer;
      if raised { errors := errors + [deleted[i].branch]; }
    }
    assert deleted[0..] == deleted;
  }

  /** Heads and pull requests the paging limit and the row checks let through. */
  ghost predicate Listable(refs: Refs, pulls: seq<PullRow>) {
    && |refs| < PER_PAGE * PAGE_LIMIT && |pulls| < PER_PAGE * PAGE_LIMIT
    && "" !in refs && (forall p | p in pulls :: GoodPull(p)) && Distinct(Numbers(pulls))
  }

  /** Nothing that an undisturbed step did keeps these files from being removed. */
  ghost predicate Removable(a: Disk, b: Disk, rs: seq<Reservation>) {
    b.faults == a.faults ==> forall i | 0 <= i < |rs| && rs[i].Owned(a) :: rs[i].Owned(b) || rs[i].path !in b.names
  }

  lemma RemovableStart(a: Disk, rs: seq<Reservation>)
    ensures Removable(a, a, rs)
  {
  }

  lemma RemovableAfter(a: Disk, b: Disk, rs: seq<Reservation>, r: FinalizeResult)
    requires r.Withdrawn? ==> |r.errors| == |rs| && forall i | 0 <= i < |rs| :: CleanedUp(a, b, rs[i], r.errors[i])
    requires b.faults == a.faults && r.Committed? ==> b.names == a.names
    ensures Removable(a, b, rs)
  {
  }

  /** No stale head and no stale open pull request. */
  ghost predicate NoStaleWork(refs: Refs, pulls: seq<PullRow>) {
    (forall b | b in refs :: !IsStale(b)) && NoStalePull(pulls)
  }

  ghost predicate NoStalePull(pulls: seq<PullRow>) {
    forall p | p in pulls :: !IsStale(p.head)
  }

  /** Both audit files hold what the run did, undisturbed under their own names. */
  ghost predicate Audited(a: Disk, b: Disk, audit: seq<Reservation>, receipt: Document, verification: Document)
    requires |audit| == 2
  {
    Holds(a, b, audit[0], receipt) && Holds(a, b, audit[1], verification) && b.unlinked == a.unlinked
  }

  /** The rest of the try block: re-list, verify that no stale work is left, finalize both audit files.
      Without faults it returns exactly when the receipts are eligible, the listings well formed, no
      stale work is left and both reservations are ready. */
  method VerifyAndCommit(receipt: Document, eligible: bool, gh: GitHub, fs: FileSystem, audit: seq<Reservation>)
    returns (r: Result<Document>)
    requires fs.disk.Valid() && |audit| == 2 && Separate(audit) && AllReserved(fs.disk, audit)
    modifies gh`faulted, fs, audit
    ensures old(gh.faulted) ==> gh.faulted
    ensures Evolved(old(fs.disk), fs.disk, Mine(audit)) && fs.disk.reserved == old(fs.disk).reserved
    ensures Removable(old(fs.disk), fs.disk, audit)
    ensures r.Ok? ==>
      && NoStaleWork(gh.refs, gh.pulls) && r.value == VerificationReceipt(|gh.refs|, |gh.pulls|)
      && Audited(old(fs.disk), fs.disk, audit, receipt, r.value)
    ensures r.Raised? && !gh.faulted && fs.disk.faults == old(fs.disk).faults ==>
      !eligible || !Listable(gh.refs, gh.pulls) || !NoStaleWork(gh.refs, gh.pulls) || !old(AllReady(audit, fs.disk))
  {
    hide Evolved, Mine, Holds, Removable;
    EvolvedBasics(fs.disk, fs.disk, Mine(audit));
    RemovableStart(fs.disk, audit);
    var branches := gh.ListBranches();
    if branches.Raised? { return Raised; }
    var pulls := gh.ListPulls();
    if pulls.Raised? { return Raised; }
    var verification := Verify(eligible, branches.value, pulls.value);
    assert forall b :: b in branches.value <==> b in Elements(branches.value);
    if verification.Raised? { return Raised; }
    CardinalityCountsDistinct(branches.value);
    assert |gh.refs| == |gh.refs.Keys|;
    forall b | b in gh.refs ensures !IsStale(b) { assert b in Elements(branches.value); }
    hide IsStale, AllReady;
    ghost var start := fs.disk;
    var finalized := FinalizeReservedOutputs(fs, audit, [receipt, verification.value]);
    RemovableAfter(start, fs.disk, audit, finalized);
    if finalized.Withdrawn? { return Raised; }
    return verification;
  }

  lemma ListableAfter(refs: Refs, gone: set<string>, pulls: seq<PullRow>)
    ensures Listable(refs, pulls) ==> Listable(refs - gone, pulls)
  {
    assert |refs| == |refs.Keys| && |refs - gone| == |refs.Keys - gone|;
    assert refs.Keys == (refs.Keys - gone) + (refs.Keys * gone);
  }

  datatype ExecuteResult =
    | Executed(receipt: Document, verification: Document)
    | Rejected
    | RolledBack(errors: seq<string>)

  /** What the deletions did, whether or not one of them stopped the run. */
  ghost predicate Deleted(before: Refs, after: Refs, callsBefore: seq<RefCall>, callsAfter: seq<RefCall>,
                          planned: seq<BranchTarget>, deleted: seq<BranchTarget>, interrupted: seq<RefCall>)
  {
    && callsAfter == callsBefore + (CleanDeletes(deleted) + interrupted)
    && after == Replay(before, CleanDeletes(deleted) + interrupted)
    && deleted <= planned && DistinctBranches(deleted) && Pinned(before, deleted)
    && IsInterruption(before, planned, deleted, interrupted)
  }

  lemma AllDeleted(before: Refs, after: Refs, callsBefore: seq<RefCall>, callsAfter: seq<RefCall>,
                   planned: seq<BranchTarget>)
    requires Deleted(before, after, callsBefore, callsAfter, planned, planned, [])
    ensures callsAfter == callsBefore + CleanDeletes(planned) && after == before - Branches(planned)
    ensures DistinctBranches(planned) && Pinned(before, planned)
  {
    ReplayDeletes(before, planned);
    assert CleanDeletes(planned) + [] == CleanDeletes(planned);
  }

  /** The receipt of an executed plan: the plan, now passed, and mutating exactly if something was deleted. */
  function Receipt(plan: Plan, deleted: seq<BranchTarget>): Document {
    OperationReceipt(plan.(status := Pass, mutationExecuted := deleted != []), deleted)
  }

  /** What must hold for the planned deletions to be committed. */
  ghost predicate Committing(eligible: bool, refs: Refs, pulls: seq<PullRow>, planned: seq<BranchTarget>) {
    && Pinned(refs, planned) && DistinctBranches(planned) && (forall row | row in planned :: IsSha40(row.sha))
    && eligible && Listable(refs, pulls) && NoStaleWork(refs - Branches(planned), pulls)
  }

  /** The try block of `execute_plan`. */
  method DeleteAndCommit(plan: Plan, planned: seq<BranchTarget>, eligible: bool, gh: GitHub, fs: FileSystem,
                         audit: seq<Reservation>)
    returns (r: Result<Document>, deleted: seq<BranchTarget>, ghost interrupted: seq<RefCall>)
    requires fs.disk.Valid() && |audit| == 2 && Separate(audit) && AllReserved(fs.disk, audit)
    modifies gh, fs, audit
    ensures old(gh.faulted) ==> gh.faulted
    ensures Evolved(old(fs.disk), fs.disk, Mine(audit)) && fs.disk.reserved == old(fs.disk).reserved
    ensures Removable(old(fs.disk), fs.disk, audit)
    ensures Deleted(old(gh.refs), gh.refs, old(gh.calls), gh.calls, planned, deleted, interrupted)
    ensures r.Ok? ==>
      && deleted == planned && interrupted == []
      && NoStaleWork(gh.refs, gh.pulls) && r.value == VerificationReceipt(|gh.refs|, |gh.pulls|)
      && Audited(old(fs.disk), fs.disk, audit, Receipt(plan, deleted), r.value)
    ensures r.Raised? && !gh.faulted && fs.disk.faults == old(fs.disk).faults ==>
      !Committing(eligible, old(gh.refs), gh.pulls, planned) || !old(AllReady(audit, fs.disk))
  {
    hide Evolved, Mine, Holds, Replay, IsStale, IsSha40, Listable, AllReady, IsInterruption, Removable, NoStaleWork,
      Audited;
    ghost var start := gh.refs;
    EvolvedBasics(fs.disk, fs.disk, Mine(audit));
    RemovableStart(fs.disk, audit);
    var ok;
    ok, deleted, interrupted := DeletePlanned(gh, planned);
    if !ok { return Raised, deleted, interrupted; }
    AllDeleted(start, gh.refs, old(gh.calls), gh.calls, deleted);
    ListableAfter(start, Branches(deleted), gh.pulls);
    r := VerifyAndCommit(Receipt(plan, deleted), eligible, gh, fs, audit);
  }

  /** The rollback: whatever the deletions did, the run as a whole is a rollback run. */
  method Rollback(gh: GitHub, deleted: seq<BranchTarget>, ghost start: Refs, ghost calls: seq<RefCall>,
                  ghost planned: seq<BranchTarget>, ghost interrupted: seq<RefCall>)
    returns (errors: seq<string>, ghost run: RollbackRun)
    requires Deleted(start, gh.refs, calls, gh.calls, planned, deleted, interrupted)
    modifies gh
    ensures IsRollbackRun(start, planned, run) && errors == run.Errors()
    ensures gh.calls == calls + run.Calls() && gh.refs == start - run.Lost()
    ensures old(gh.faulted) ==> gh.faulted
  {
    hide Replay, IsRestore, RaisedBranches, IsInterruption;
    ghost var restores;
    errors, restores := RestoreDeleted(gh, deleted);
    run := RollbackRun(deleted, interrupted, restores);
    assert gh.calls == calls + run.Calls();
    ReplayConcat(start, CleanDeletes(deleted) + interrupted, restores);
    RollbackEffect(start, planned, run);
  }

  /** `execute_plan` with the audit finalizer of `main`: delete, re-list, verify, commit both audit
      files, and on any exception restore. */
  method ExecutePlan(plan: Plan, eligible: bool, gh: GitHub, fs: FileSystem, audit: seq<Reservation>)
    returns (r: ExecuteResult, ghost run: RollbackRun)
    requires fs.disk.Valid() && |audit| == 2 && Separate(audit) && AllReserved(fs.disk, audit)
    modifies gh, fs, audit
    ensures Evolved(old(fs.disk), fs.disk, Mine(audit)) && fs.disk.reserved == old(fs.disk).reserved
    ensures Removable(old(fs.disk), fs.disk, audit)
    ensures r.Rejected? ==> gh.refs == old(gh.refs) && gh.calls == old(gh.calls)
    ensures r.Executed? ==>
      && gh.calls == old(gh.calls) + CleanDeletes(plan.staleBranches)
      && gh.refs == Surviving(old(gh.refs))
      && Pinned(old(gh.refs), plan.staleBranches) && DistinctBranches(plan.staleBranches)
      && NoStalePull(gh.pulls)
      && r.receipt == Receipt(plan, plan.staleBranches)
      && r.verification == VerificationReceipt(|gh.refs|, |gh.pulls|)
      && Audited(old(fs.disk), fs.disk, audit, r.receipt, r.verification)
    ensures r.RolledBack? ==>
      && IsRollbackRun(old(gh.refs), plan.staleBranches, run)
      && gh.calls == old(gh.calls) + run.Calls()
      && gh.refs == old(gh.refs) - run.Lost()
      && r.errors == run.Errors()
    ensures !r.Rejected? ==>
      && plan.repository == "Naveax/PSMatrix" && plan.status == DryRun && !plan.mutationExecuted && plan.stalePulls == []
      && Pinned(old(gh.refs), plan.staleBranches)
      && forall row | row in plan.staleBranches :: IsStale(row.branch) && IsSha40(row.sha)
    ensures old(gh.faulted) ==> gh.faulted
    ensures !r.Executed? && !gh.faulted && fs.disk.faults == old(fs.disk).faults ==>
      || !GoodPlan(plan, old(gh.refs)) || !Committing(eligible, old(gh.refs), gh.pulls, plan.staleBranches)
      || !old(AllReady(audit, fs.disk))
  {
    hide Evolved, Mine, Audited, Removable, Deleted, IsStale, IsSha40, Pinned, DistinctBranches, Committing, AllReady,
      IsRollbackRun, Surviving, NoStaleWork, CleanDeletes;
    ghost var start := gh.refs;
    run := RollbackRun([], [], []);
    EvolvedBasics(fs.disk, fs.disk, Mine(audit));
    RemovableStart(fs.disk, audit);
    var checked := CheckPlan(plan, gh);
    if checked.Raised? { return Rejected, run; }
    var verification, deleted, interrupted := DeleteAndCommit(plan, checked.value, eligible, gh, fs, audit);
    if verification.Ok? {
      AllDeleted(start, gh.refs, old(gh.calls), gh.calls, deleted);
      NoStaleWorkLeft(start, deleted, gh.pulls);
      return Executed(Receipt(plan, deleted), verification.value), run;
    }
    var errors;
    errors, run := Rollback(gh, deleted, start, old(gh.calls), plan.staleBranches, interrupted);
    return RolledBack(errors), run;
  }

  lemma NoStaleWorkLeft(refs: Refs, rows: seq<BranchTarget>, pulls: seq<PullRow>)
    requires (forall row | row in rows :: IsStale(row.branch)) && NoStaleWork(refs - Branches(rows), pulls)
    ensures refs - Branches(rows) == Surviving(refs) && NoStalePull(pulls)
  {
    OnlyStaleRemoved(refs, rows);
  }

  // ----- planning -----

  /** The target table of `build_plan`; a later row for the same branch wins. */
  function ByName(targets: seq<BranchTarget>): map<string, string> {
    if targets == [] then map[]
    else ByName(targets[..|targets| - 1])[targets[|targets| - 1].branch := targets[|targets| - 1].sha]
  }

  lemma {:induction false} ByNameKeys(targets: seq<BranchTarget>)
    ensures ByName(targets).Keys == Branches(targets)
  {
    if targets != [] {
      var front, last := targets[..|targets| - 1], targets[|targets| - 1];
      ByNameKeys(front);
      assert targets == front + [last];
      assert Branches(targets) == Branches(front) + {last.branch};
    }
  }

  lemma {:induction false} ByNameLookup(targets: seq<BranchTarget>, i: nat)
    requires DistinctBranches(targets) && i < |targets|
    ensures targets[i].branch in ByName(targets) && ByName(targets)[targets[i].branch] == targets[i].sha
  {
    if i < |targets| - 1 {
      ByNameLookup(targets[..|targets| - 1], i);
    }
  }

  /** Every entry of the table comes from a target. */
  lemma {:induction false} ByNameRows(targets: seq<BranchTarget>)
    ensures forall b | b in ByName(targets) :: BranchTarget(b, ByName(targets)[b]) in targets
  {
    if targets != [] { ByNameRows(targets[..|targets| - 1]); }
  }

  /** `build_plan` after its listings: there is a plan exactly when the targets name the stale branches
      and no others; it lists each stale branch in order, as one of the targets. */
  function BuildPlan(branchCount: nat, pullCount: nat, stale: seq<string>, stalePulls: seq<PullRow>,
                     targets: seq<BranchTarget>): (r: Result<Plan>)
    ensures r.Ok? <==> Branches(targets) == Elements(stale)
    ensures r.Ok? ==> |r.value.staleBranches| == |stale| && forall i | 0 <= i < |stale| ::
      r.value.staleBranches[i].branch == stale[i] && r.value.staleBranches[i] in targets
  {
    var byName := ByName(targets);
    ByNameKeys(targets);
    ByNameRows(targets);
    if byName.Keys != Elements(stale) then Raised
    else
      assert forall i | 0 <= i < |stale| :: stale[i] in Elements(stale);
      Ok(Plan(REPOSITORY, DryRun, false, branchCount, pullCount,
              seq(|stale|, i requires 0 <= i < |stale| => BranchTarget(stale[i], byName[stale[i]])),
              stalePulls))
  }

  lemma TargetsOfStale(stale: seq<string>, targets: seq<BranchTarget>)
    requires |stale| == |targets| && Distinct(stale)
    requires forall i | 0 <= i < |stale| :: targets[i].branch == stale[i]
    ensures DistinctBranches(targets) && Branches(targets) == Elements(stale) == ByName(targets).Keys
    ensures forall i | 0 <= i < |stale| :: ByName(targets)[stale[i]] == targets[i].sha
  {
    ByNameKeys(targets);
    forall i | 0 <= i < |stale| ensures stale[i] in Branches(targets) && ByName(targets)[stale[i]] == targets[i].sha {
      ByNameLookup(targets, i);
    }
    forall b | b in Branches(targets) ensures b in stale {
      var row :| row in targets && row.branch == b;
      var i :| 0 <= i < |targets| && targets[i] == row;
      assert stale[i] == b;
    }
  }

  /** What a caller can check beforehand: the receipts are eligible, the listings well formed and below
      the paging limit, and every stale head an exact commit. */
  ghost predicate Cleanable(eligible: bool, refs: Refs, pulls: seq<PullRow>) {
    eligible && Listable(refs, pulls) && forall b | b in refs && IsStale(b) :: IsSha40(refs[b])
  }

  ghost predicate Planned(eligible: bool, refs: Refs, pulls: seq<PullRow>, plan: Plan) {
    && Cleanable(eligible, refs, pulls) && DistinctBranches(plan.staleBranches)
    && GoodPlan(plan.(stalePulls := []), refs)
    && refs - Branches(plan.staleBranches) == Surviving(refs)
    && PlanLists(refs, pulls, plan)
  }

  /** What a plan says about the repository: how much was listed, every stale head once at its commit in
      code-point order, and every stale open pull request once by number. */
  ghost predicate PlanLists(refs: Refs, pulls: seq<PullRow>, plan: Plan) {
    && plan.repository == "Naveax/PSMatrix" && plan.branchCount == |refs| && plan.pullCount == |pulls|
    && DistinctBranches(plan.staleBranches) && Pinned(refs, plan.staleBranches)
    && (forall b :: b in Branches(plan.staleBranches) <==> b in refs && IsStale(b))
    && (forall i, j :: 0 <= i < j < |plan.staleBranches| ==>
          LexLe(plan.staleBranches[i].branch, plan.staleBranches[j].branch))
    && (forall p :: p in plan.stalePulls <==> p in pulls && IsStale(p.head))
    && (forall i, j :: 0 <= i < j < |plan.stalePulls| ==> plan.stalePulls[i].number < plan.stalePulls[j].number)
  }

  lemma TargetsInOrder(s: Survey, targets: seq<BranchTarget>)
    requires Sorted(s.stale, LexLe) && Sorted(s.stalePulls, ByNumber()) && Distinct(Numbers(s.stalePulls))
    requires |targets| == |s.stale| && forall i | 0 <= i < |s.stale| :: targets[i].branch == s.stale[i]
    ensures forall i, j :: 0 <= i < j < |targets| ==> LexLe(targets[i].branch, targets[j].branch)
    ensures forall i, j :: 0 <= i < j < |s.stalePulls| ==> s.stalePulls[i].number < s.stalePulls[j].number
  {
    forall i, j | 0 <= i < j < |s.stalePulls| ensures s.stalePulls[i].number < s.stalePulls[j].number {
      assert ByNumber()(s.stalePulls[i], s.stalePulls[j]);
      assert Numbers(s.stalePulls)[i] != Numbers(s.stalePulls)[j];
    }
  }

  method ResolveTargets(gh: GitHub, stale: seq<string>) returns (r: Result<seq<BranchTarget>>)
    modifies gh`faulted
    ensures old(gh.faulted) ==> gh.faulted
    ensures r.Ok? ==> |r.value| == |stale| && Pinned(gh.refs, r.value)
    ensures r.Ok? ==> forall i | 0 <= i < |stale| :: r.value[i].branch == stale[i] && IsSha40(r.value[i].sha)
    ensures r.Raised? ==> gh.faulted || exists i | 0 <= i < |stale| :: stale[i] !in gh.refs || !IsSha40(gh.refs[stale[i]])
  {
    var targets: seq<BranchTarget> := [];
    for i := 0 to |stale|
      invariant |targets| == i && Pinned(gh.refs, targets) && (old(gh.faulted) ==> gh.faulted)
      invariant forall j | 0 <= j < i :: targets[j].branch == stale[j] && IsSha40(targets[j].sha)
    {
      var sha := gh.BranchRef(stale[i]);
      if sha.Raised? { return Raised; }
      targets := targets + [BranchTarget(stale[i], sha.value)];
    }
    return Ok(targets);
  }

  /** The stale heads and stale pull requests, with how many of each were listed. */
  datatype Survey = Survey(branchCount: nat, pullCount: nat, stale: seq<string>, stalePulls: seq<PullRow>)

  ghost predicate Surveys(refs: Refs, pulls: seq<PullRow>, s: Survey) {
    && Distinct(s.stale) && (forall b :: b in s.stale <==> b in refs && IsStale(b))
    && (forall p :: p in s.stalePulls <==> p in pulls && IsStale(p.head))
    && Sorted(s.stale, LexLe) && Sorted(s.stalePulls, ByNumber()) && Distinct(Numbers(s.stalePulls))
    && s.branchCount == |refs| && s.pullCount == |pulls|
  }

  method SurveyRepository(gh: GitHub) returns (r: Result<Survey>)
    modifies gh`faulted
    ensures old(gh.faulted) ==> gh.faulted
    ensures r.Ok? ==> Surveys(gh.refs, gh.pulls, r.value) && Listable(gh.refs, gh.pulls)
    ensures r.Raised? && !gh.faulted ==> !Listable(gh.refs, gh.pulls)
  {
    hide IsStale;
    var branches := gh.ListBranches();
    if branches.Raised? { return Raised; }
    var pulls := gh.ListPulls();
    if pulls.Raised? { return Raised; }
    var collected := CollectStale(branches.value, pulls.value);
    assert forall b :: b in branches.value <==> b in Elements(branches.value);
    if collected.Raised? { return Raised; }
    CardinalityCountsDistinct(branches.value);
    assert |gh.refs| == |gh.refs.Keys|;
    return Ok(Survey(|branches.value|, |pulls.value|, collected.value.0, collected.value.1));
  }

  /** The planning half of `run_operation`. A plan lists exactly the stale heads, each once, at its
      current commit, exactly the stale open pull requests, and how many of each were listed. */
  method PlanOperation(eligible: bool, gh: GitHub) returns (r: Result<Plan>)
    modifies gh`faulted
    ensures old(gh.faulted) ==> gh.faulted
    ensures r.Raised? && !gh.faulted ==> !Cleanable(eligible, gh.refs, gh.pulls)
    ensures r.Ok? ==> Planned(eligible, gh.refs, gh.pulls, r.value)
  {
    hide IsStale, IsSha40, Listable, Planned, ByName;
    var release := Verify(eligible, [], []);
    assert Distinct(Numbers([]));
    if release.Raised? { return Raised; }
    var surveyed := SurveyRepository(gh);
    if surveyed.Raised? { return Raised; }
    var s := surveyed.value;
    assert forall i | 0 <= i < |s.stale| :: s.stale[i] in s.stale;
    var resolved := ResolveTargets(gh, s.stale);
    if resolved.Raised? { return Raised; }
    TargetsOfStale(s.stale, resolved.value);
    r := BuildPlan(s.branchCount, s.pullCount, s.stale, s.stalePulls, resolved.value);
    PlanOfSurvey(gh.refs, gh.pulls, s, resolved.value, r.value);
  }

  /** The targets are stale heads at exact commits, and so is every stale head. */
  lemma TargetsAreExact(refs: Refs, stale: seq<string>, targets: seq<BranchTarget>)
    requires |targets| == |stale| && Pinned(refs, targets) && forall b :: b in stale <==> b in refs && IsStale(b)
    requires forall i | 0 <= i < |stale| :: targets[i].branch == stale[i] && IsSha40(targets[i].sha)
    ensures forall row | row in targets :: IsStale(row.branch) && IsSha40(row.sha)
    ensures forall b | b in refs && IsStale(b) :: IsSha40(refs[b])
  {
    hide IsStale, IsSha40;
    forall row | row in targets ensures IsStale(row.branch) && IsSha40(row.sha) {
      var i :| 0 <= i < |targets| && targets[i] == row;
      assert stale[i] in stale;
    }
    forall b | b in refs && IsStale(b) ensures IsSha40(refs[b]) {
      var i :| 0 <= i < |stale| && stale[i] == b;
    }
  }

  /** The plan built from resolved targets consists of them. */
  lemma PlanRows(s: Survey, targets: seq<BranchTarget>, plan: Plan)
    requires Distinct(s.stale) && |targets| == |s.stale|
    requires forall i | 0 <= i < |s.stale| :: targets[i].branch == s.stale[i]
    requires BuildPlan(s.branchCount, s.pullCount, s.stale, s.stalePulls, targets) == Ok(plan)
    ensures plan == Plan(REPOSITORY, DryRun, false, s.branchCount, s.pullCount, targets, s.stalePulls)
    ensures DistinctBranches(targets) && Branches(targets) == Elements(s.stale)
  {
    TargetsOfStale(s.stale, targets);
    assert plan.staleBranches == targets;
  }

  lemma SurveyIsListed(refs: Refs, pulls: seq<PullRow>, s: Survey, targets: seq<BranchTarget>, plan: Plan)
    requires Surveys(refs, pulls, s) && |targets| == |s.stale| && Pinned(refs, targets)
    requires forall i | 0 <= i < |s.stale| :: targets[i].branch == s.stale[i]
    requires plan == Plan(REPOSITORY, DryRun, false, s.branchCount, s.pullCount, targets, s.stalePulls)
    requires DistinctBranches(targets) && Branches(targets) == Elements(s.stale)
    ensures PlanLists(refs, pulls, plan)
  {
    hide IsStale, Pinned, DistinctBranches, Branches, Distinct, Sorted, LexLe;
    TargetsInOrder(s, targets);
    assert forall b :: b in Elements(s.stale) <==> b in s.stale;
  }

  lemma PlanOfSurvey(refs: Refs, pulls: seq<PullRow>, s: Survey, targets: seq<BranchTarget>, plan: Plan)
    requires Surveys(refs, pulls, s) && Listable(refs, pulls) && |targets| == |s.stale| && Pinned(refs, targets)
    requires forall i | 0 <= i < |s.stale| :: targets[i].branch == s.stale[i] && IsSha40(targets[i].sha)
    requires BuildPlan(s.branchCount, s.pullCount, s.stale, s.stalePulls, targets) == Ok(plan)
    ensures Planned(true, refs, pulls, plan)
  {
    hide IsStale, IsSha40, Listable, Pinned, DistinctBranches, Surviving, Branches, BuildPlan, Distinct, Sorted, LexLe,
      PlanLists;
    TargetsAreExact(refs, s.stale, targets);
    PlanRows(s, targets, plan);
    SurveyIsListed(refs, pulls, s, targets, plan);
    OnlyPlannedAreStale(refs, s.stale, targets);
  }

  lemma OnlyPlannedAreStale(refs: Refs, stale: seq<string>, targets: seq<BranchTarget>)
    requires Branches(targets) == Elements(stale) && forall b :: b in stale <==> b in refs && IsStale(b)
    ensures refs - Branches(targets) == Surviving(refs)
  {
    forall b | b in refs ensures b in Branches(targets) <==> IsStale(b) {
      assert b in Elements(stale) <==> b in stale;
    }
  }

  /** The spared heads, the four anchors among them, keep their commits in every run. */
  lemma SparedHeadsStay(execute: bool, before: Refs, after: Refs, pulls: seq<PullRow>, callsBefore: seq<RefCall>,
                         callsAfter: seq<RefCall>, documents: seq<Document>, errors: seq<string>, run: RollbackRun, b: string)
    requires || Recorded(execute, before, after, pulls, callsBefore, callsAfter, documents)
             || Undone(execute, before, after, callsBefore, callsAfter, errors, run)
    requires IsSpared(b)
    ensures b in after <==> b in before
    ensures b in before ==> after[b] == before[b]
  {
    StaleIff(b);
    hide IsStale, IsSpared, PlanLists;
    if !Recorded(execute, before, after, pulls, callsBefore, callsAfter, documents) {
      LostAreStale(execute, before, after, callsBefore, callsAfter, errors, run);
    }
  }

  lemma LostAreStale(execute: bool, before: Refs, after: Refs, callsBefore: seq<RefCall>, callsAfter: seq<RefCall>,
                     errors: seq<string>, run: RollbackRun)
    requires Undone(execute, before, after, callsBefore, callsAfter, errors, run)
    ensures forall b | b in run.Lost() :: IsStale(b)
  {
    hide IsStale;
    forall b | b in run.Lost() ensures IsStale(b) {
      if b in run.Hidden() {
        var c :| c in run.interrupted && c.applied && c.branch == b;
        assert c in run.Calls();
      } else {
        var row :| row in run.deleted && row.branch == b;
        var i :| 0 <= i < |run.deleted| && run.deleted[i] == row;
        assert CleanDeletes(run.deleted)[i].branch == b && CleanDeletes(run.deleted)[i] in run.Calls();
      }
    }
  }

  /** A committed execution leaves exactly the spared heads. */
  lemma CommittedHeads(before: Refs, after: Refs, pulls: seq<PullRow>, callsBefore: seq<RefCall>,
                       callsAfter: seq<RefCall>, documents: seq<Document>, b: string)
    requires Recorded(true, before, after, pulls, callsBefore, callsAfter, documents)
    ensures b in after <==> b in before && IsSpared(b)
    ensures b in after ==> after[b] == before[b]
  {
    StaleIff(b);
    hide IsStale, IsSpared, PlanLists;
  }

  // ----- the command -----

  /** What `main` reports: whether the transaction committed (with the documents written), the rollback
      errors, and the cleanup errors of each reserved output. */
  datatype Report = Report(
    exitCode: int,
    committed: bool,
    documents: seq<Document>,
    rollbackErrors: seq<string>,
    cleanupErrors: seq<seq<CleanupFault>>)

  /** With no stale open pull request, the plan just made can be executed and committed. */
  lemma PlannedCommits(eligible: bool, refs: Refs, pulls: seq<PullRow>, plan: Plan)
    requires Planned(eligible, refs, pulls, plan) && NoStalePull(pulls)
    ensures GoodPlan(plan, refs) && Committing(eligible, refs, pulls, plan.staleBranches)
  {
    hide IsStale, IsSha40, Listable, Pinned, DistinctBranches;
    SomeElement(plan.stalePulls);
    assert plan.(stalePulls := []) == plan;
  }

  /** The executing half of `run_operation`, on the plan it has just made. */
  method ExecuteOperation(plan: Plan, eligible: bool, gh: GitHub, fs: FileSystem, rs: seq<Reservation>)
    returns (committed: bool, documents: seq<Document>, errors: seq<string>, ghost run: RollbackRun)
    requires fs.disk.Valid() && Separate(rs) && AllReserved(fs.disk, rs) && |rs| == 2
    requires Planned(eligible, gh.refs, gh.pulls, plan)
    modifies gh, fs, rs
    ensures Evolved(old(fs.disk), fs.disk, Mine(rs)) && fs.disk.reserved == old(fs.disk).reserved
    ensures Removable(old(fs.disk), fs.disk, rs)
    ensures |documents| == if committed then |rs| else 0
    ensures committed ==> forall i | 0 <= i < |rs| :: Holds(old(fs.disk), fs.disk, rs[i], documents[i])
    ensures committed ==> Recorded(true, old(gh.refs), gh.refs, gh.pulls, old(gh.calls), gh.calls, documents)
    ensures !committed ==> Undone(true, old(gh.refs), gh.refs, old(gh.calls), gh.calls, errors, run)
    ensures old(gh.faulted) ==> gh.faulted
    ensures !committed && !gh.faulted && fs.disk.faults == old(fs.disk).faults ==>
      !NoStalePull(gh.pulls) || !old(AllReady(rs, fs.disk))
  {
    hide Evolved, Mine, Holds, Removable, Recorded, Undone, IsRollbackRun, Pinned, IsStale, IsSha40, Surviving,
      DistinctBranches, AllReady, NoStalePull, Committing, GoodPlan, Cleanable;
    ghost var start := gh.refs;
    committed, documents, errors := false, [], [];
    NothingUndone(true, start, gh.calls);
    if NoStalePull(gh.pulls) { PlannedCommits(eligible, start, gh.pulls, plan); }
    var r;
    r, run := ExecutePlan(plan, eligible, gh, fs, rs);
    match r {
      case Executed(receipt, verification) =>
        committed, documents := true, [receipt, verification];
        ExecutedIsRecorded(plan, eligible, start, gh.refs, gh.pulls, old(gh.calls), gh.calls, documents);
      case Rejected =>
        run := RollbackRun([], [], []);
      case RolledBack(e) =>
        errors := e;
        RolledBackIsUndone(plan, start, gh.refs, old(gh.calls), gh.calls, run);
    }
  }

  /** The body of `main`'s try block once the outputs are reserved: one operation receipt for a dry
      run, the whole transaction when executing. */
  method Operate(execute: bool, eligible: bool, gh: GitHub, fs: FileSystem, rs: seq<Reservation>)
    returns (committed: bool, documents: seq<Document>, errors: seq<string>, ghost run: RollbackRun)
    requires fs.disk.Valid() && Separate(rs) && AllReserved(fs.disk, rs) && |rs| == if execute then 2 else 1
    modifies gh, fs, rs
    ensures Evolved(old(fs.disk), fs.disk, Mine(rs)) && fs.disk.reserved == old(fs.disk).reserved
    ensures Removable(old(fs.disk), fs.disk, rs)
    ensures |documents| == if committed then |rs| else 0
    ensures committed ==> forall i | 0 <= i < |rs| :: Holds(old(fs.disk), fs.disk, rs[i], documents[i])
    ensures committed ==>
      && Recorded(execute, old(gh.refs), gh.refs, gh.pulls, old(gh.calls), gh.calls, documents)
      && Cleanable(eligible, old(gh.refs), gh.pulls)
    ensures !committed ==> Undone(execute, old(gh.refs), gh.refs, old(gh.calls), gh.calls, errors, run)
    ensures old(gh.faulted) ==> gh.faulted
    ensures !committed && !gh.faulted && fs.disk.faults == old(fs.disk).faults ==>
      || !Cleanable(eligible, old(gh.refs), gh.pulls) || (execute && !NoStalePull(gh.pulls))
      || !old(AllReady(rs, fs.disk))
  {
    hide Evolved, Mine, Holds, Removable, Recorded, Undone, IsStale, IsSha40, Surviving, Planned, AllReady, Cleanable,
      NoStalePull;
    committed, documents, errors, run := false, [], [], RollbackRun([], [], []);
    EvolvedBasics(fs.disk, fs.disk, Mine(rs));
    RemovableStart(fs.disk, rs);
    NothingUndone(execute, gh.refs, gh.calls);
    EvolvedFault(fs.disk, OtherFault, Mine(rs));
    var unread := fs.MayFail(OtherFault);
    if unread { RemovableDisturbed(old(fs.disk), fs.disk, rs); return; }
    var plan := PlanOperation(eligible, gh);
    if plan.Raised? { return; }
    PlannedIsRecorded(plan.value, eligible, gh.refs, gh.pulls, gh.calls);
    if execute {
      committed, documents, errors, run := ExecuteOperation(plan.value, eligible, gh, fs, rs);
    } else {
      var finalized := FinalizeReservedOutputs(fs, rs, [PlanReceipt(plan.value)]);
      RemovableAfter(old(fs.disk), fs.disk, rs, finalized);
      if finalized.Committed? { committed, documents := true, [PlanReceipt(plan.value)]; }
    }
  }

  lemma RemovableDisturbed(a: Disk, b: Disk, rs: seq<Reservation>)
    requires b.faults != a.faults
    ensures Removable(a, b, rs)
  {
  }

  /** What a committed run did: executing removed exactly the stale heads, left no stale open pull
      request, and wrote what it did; a dry run changed nothing and wrote exactly what it would do. */
  ghost predicate Recorded(execute: bool, before: Refs, after: Refs, pulls: seq<PullRow>,
                           callsBefore: seq<RefCall>, callsAfter: seq<RefCall>, documents: seq<Document>)
  {
    if execute then
      && |documents| == 2 && documents[0].OperationReceipt? && PlanLists(before, pulls, documents[0].plan)
      && documents[0].plan.status == Pass && documents[0].plan.mutationExecuted == (documents[0].deleted != [])
      && documents[0].plan.staleBranches == documents[0].deleted && documents[0].plan.stalePulls == []
      && callsAfter == callsBefore + CleanDeletes(documents[0].deleted)
      && after == before - Branches(documents[0].deleted) == Surviving(before)
      && NoStalePull(pulls)
      && documents[1] == VerificationReceipt(|after|, |pulls|)
    else
      && |documents| == 1 && documents[0].PlanReceipt? && PlanLists(before, pulls, documents[0].plan)
      && documents[0].plan.status == DryRun && !documents[0].plan.mutationExecuted
      && after == before && callsAfter == callsBefore
  }

  /** What a run that did not commit did: a rollback run over stale branches only, whose effect on the
      heads and whose named errors are those of `RefTransaction`. */
  ghost predicate Undone(execute: bool, before: Refs, after: Refs, callsBefore: seq<RefCall>,
                         callsAfter: seq<RefCall>, errors: seq<string>, run: RollbackRun)
  {
    && (exists planned :: IsRollbackRun(before, planned, run))
    && (forall c | c in run.Calls() :: IsStale(c.branch))
    && (!execute ==> run.Calls() == [])
    && callsAfter == callsBefore + run.Calls()
    && after == before - run.Lost()
    && errors == run.Errors()
  }

  lemma ExecutedIsRecorded(plan: Plan, eligible: bool, before: Refs, after: Refs, pulls: seq<PullRow>,
                           callsBefore: seq<RefCall>, callsAfter: seq<RefCall>, documents: seq<Document>)
    requires Planned(eligible, before, pulls, plan) && after == Surviving(before)
    requires callsAfter == callsBefore + CleanDeletes(plan.staleBranches)
    requires NoStalePull(pulls)
    requires documents == [Receipt(plan, plan.staleBranches), VerificationReceipt(|after|, |pulls|)]
    ensures Recorded(true, before, after, pulls, callsBefore, callsAfter, documents)
  {
    hide IsStale, IsSha40, LexLe, Surviving, Pinned, DistinctBranches, CleanDeletes, Cleanable;
    SomeElement(plan.stalePulls);
  }

  lemma PlannedIsRecorded(plan: Plan, eligible: bool, refs: Refs, pulls: seq<PullRow>, calls: seq<RefCall>)
    requires Planned(eligible, refs, pulls, plan)
    ensures Recorded(false, refs, refs, pulls, calls, calls, [PlanReceipt(plan)]) && Cleanable(eligible, refs, pulls)
  {
  }

  lemma RolledBackIsUndone(plan: Plan, before: Refs, after: Refs, callsBefore: seq<RefCall>,
                           callsAfter: seq<RefCall>, run: RollbackRun)
    requires IsRollbackRun(before, plan.staleBranches, run)
    requires forall row | row in plan.staleBranches :: IsStale(row.branch)
    requires callsAfter == callsBefore + run.Calls() && after == before - run.Lost()
    ensures Undone(true, before, after, callsBefore, callsAfter, run.Errors(), run)
  {
    forall c | c in run.Calls() ensures IsStale(c.branch) {
      CallsAreOfPlanned(before, plan.staleBranches, run, c);
    }
  }

  lemma NothingUndone(execute: bool, refs: Refs, calls: seq<RefCall>)
    ensures Undone(execute, refs, refs, calls, calls, [], RollbackRun([], [], []))
  {
    var run := RollbackRun([], [], []);
    assert IsRollbackRun(refs, [], run);
    assert run.Lost() == {} && refs - run.Lost() == refs;
    assert run.Calls() == [] && calls + run.Calls() == calls;
  }

  /** The paths a run reserves, in order. */
  function Outputs(execute: bool, output: string, verificationOutput: string): seq<string> {
    if execute then [output, verificationOutput] else [output]
  }

  /** What a caller can check beforehand: a run without faults commits exactly when this holds. */
  ghost predicate Committable(execute: bool, output: string, verificationOutput: string, eligible: bool,
                              refs: Refs, pulls: seq<PullRow>, names: map<string, nat>)
  {
    && Cleanable(eligible, refs, pulls) && (execute ==> NoStalePull(pulls))
    && output != verificationOutput && output !in names && verificationOutput !in names
  }

  /** Why a file of this run is still in place: its own cleanup reported that `lstat` or `unlink` raised,
      and it did; or it is the file of the one reservation that raised, on whose path a call raised. */
  ghost predicate Accounted(a: Disk, b: Disk, paths: seq<string>, rs: seq<Reservation>,
                            errors: seq<seq<CleanupFault>>, left: Option<nat>, p: string)
    requires p in b.names && |errors| == |rs|
  {
    || (exists i | 0 <= i < |rs| ::
          && rs[i].path == p && rs[i].identity == b.names[p]
          && Excused(errors[i]) && Reported(errors[i], a.faults, b.faults, p))
    || (left == Some(b.names[p]) && |rs| < |paths| && p == paths[|rs|] && LeavingFault(a.faults, b.faults, p))
  }

  /** `p` names a file that this run created. */
  ghost predicate Own(a: Disk, b: Disk, p: string) {
    p in b.names && b.names[p] in b.reserved - a.reserved
  }

  lemma NothingLeftBehind(a: Disk, b: Disk, c: Disk, paths: seq<string>, rs: seq<Reservation>, mine: map<nat, string>,
                          left: Option<nat>, errors: seq<seq<CleanupFault>>, p: string)
    requires Tracked(a, c, rs, mine, left) && LeftOver(a, b, paths, rs, mine, left)
    requires a.faults <= b.faults <= c.faults
    requires |errors| == |rs| && forall i | 0 <= i < |rs| :: CleanedUp(b, c, rs[i], errors[i])
    requires Own(a, c, p)
    ensures Accounted(a, c, paths, rs, errors, left, p)
  {
    hide Evolved, Occurred;
    var id := c.names[p];
    if left == Some(id) {
      LeavingFaultLater(a.faults, a.faults, b.faults, c.faults, p);
    } else {
      assert c.Bound(mine[id], id);
      var i :| 0 <= i < |rs| && rs[i].identity == id;
      assert rs[i].Owned(c);
      ReportedLater(errors[i], a.faults, b.faults, c.faults, c.faults, p);
    }
  }

  /** Undisturbed, there is nothing to account for. */
  lemma NothingToAccount(a: Disk, b: Disk, c: Disk, paths: seq<string>, rs: seq<Reservation>, mine: map<nat, string>,
                         left: Option<nat>, errors: seq<seq<CleanupFault>>)
    requires Tracked(a, c, rs, mine, left) && LeftOver(a, b, paths, rs, mine, left)
    requires a.faults == b.faults == c.faults
    requires |errors| == |rs| && forall i | 0 <= i < |rs| :: CleanedUp(b, c, rs[i], errors[i])
    requires forall i | 0 <= i < |rs| :: rs[i].Owned(b) || rs[i].path !in b.names
    ensures left == None && (forall i | 0 <= i < |rs| :: errors[i] == [])
    ensures forall p :: !Own(a, c, p)
  {
    hide Evolved;
  }

  /** The try block of `main`. */
  method Attempt(execute: bool, output: string, verificationOutput: string, eligible: bool, gh: GitHub, fs: FileSystem)
    returns (committed: bool, documents: seq<Document>, errors: seq<string>, rs: seq<Reservation>,
             ghost run: RollbackRun, ghost mine: map<nat, string>, ghost left: Option<nat>)
    requires fs.disk.Valid()
    modifies gh, fs
    ensures Tracked(old(fs.disk), fs.disk, rs, mine, left) && fresh(rs)
    ensures LeftOver(old(fs.disk), fs.disk, Outputs(execute, output, verificationOutput), rs, mine, left)
    ensures committed ==>
      && left == None && output != verificationOutput && Cleanable(eligible, old(gh.refs), gh.pulls)
      && WroteAll(old(fs.disk), fs.disk, Outputs(execute, output, verificationOutput), rs, documents)
      && Recorded(execute, old(gh.refs), gh.refs, gh.pulls, old(gh.calls), gh.calls, documents)
    ensures !committed ==> Undone(execute, old(gh.refs), gh.refs, old(gh.calls), gh.calls, errors, run)
    ensures fs.disk.faults == old(fs.disk).faults ==>
      && (forall i | 0 <= i < |rs| :: rs[i].Owned(fs.disk) || rs[i].path !in fs.disk.names)
      && (committed ==> output !in old(fs.disk).names && verificationOutput !in old(fs.disk).names)
    ensures old(gh.faulted) ==> gh.faulted
    ensures !committed && !gh.faulted && fs.disk.faults == old(fs.disk).faults ==>
      !Committable(execute, output, verificationOutput, eligible, old(gh.refs), gh.pulls, old(fs.disk).names)
  {
    hide Evolved, Tracked, Mine, Holds, Recorded, Undone, IsStale, Cleanable, NoStalePull, LeavingFault, Occurred, LeftOver,
      AllReady, Removable;
    var outputs := Outputs(execute, output, verificationOutput);
    ghost var start := fs.disk;
    run := RollbackRun([], [], []);
    NothingUndone(execute, gh.refs, gh.calls);
    committed, documents, errors := false, [], [];
    var ok;
    ok, rs, mine, left := Reserve(execute, output, verificationOutput, fs);
    ghost var reserved := fs.disk;
    TrackedValid(start, reserved, rs, mine, left);
    if !ok { StillRemovable(start, reserved, reserved, rs); return; }
    committed, documents, errors, run := Operate(execute, eligible, gh, fs, rs);
    EvolvedBasics(reserved, fs.disk, Mine(rs));
    TrackedMine(start, reserved, rs, mine, left);
    TrackedStep(start, reserved, fs.disk, rs, mine, left, Mine(rs));
    NoneLeftOver(start, fs.disk, outputs, rs, mine);
    StillRemovable(start, reserved, fs.disk, rs);
    if committed { WroteAllSince(start, reserved, fs.disk, outputs, rs, documents); }
  }

  /** The checks on the two output paths and their reservations. Undisturbed, they succeed exactly on two
      different free paths. */
  method Reserve(execute: bool, output: string, verificationOutput: string, fs: FileSystem)
    returns (ok: bool, rs: seq<Reservation>, ghost mine: map<nat, string>, ghost left: Option<nat>)
    requires fs.disk.Valid()
    modifies fs
    ensures Tracked(old(fs.disk), fs.disk, rs, mine, left) && fresh(rs)
    ensures LeftOver(old(fs.disk), fs.disk, Outputs(execute, output, verificationOutput), rs, mine, left)
    ensures ok ==> left == None && output != verificationOutput
    ensures ok ==> |rs| == |Outputs(execute, output, verificationOutput)|
    ensures ok ==> forall i | 0 <= i < |rs| :: rs[i].path == Outputs(execute, output, verificationOutput)[i]
    ensures fs.disk.faults == old(fs.disk).faults ==>
      && AllReady(rs, fs.disk) && (forall i | 0 <= i < |rs| :: rs[i].Owned(fs.disk))
      && (ok <==> output != verificationOutput && output !in old(fs.disk).names && verificationOutput !in old(fs.disk).names)
  {
    hide Evolved, Tracked, Mine, LeavingFault, Occurred;
    var outputs := Outputs(execute, output, verificationOutput);
    ghost var start := fs.disk;
    TrackedStart(start);
    ok, rs, mine, left := false, [], map[], None;
    if output == verificationOutput { return; }
    if !execute {
      var present := fs.Lstat(verificationOutput);
      TrackedStep(start, start, fs.disk, rs, mine, left, map[]);
      if !present.Missing? { return; }
    }
    ghost var before := fs.disk;
    TrackedValid(start, before, rs, mine, left);
    ok, rs, mine, left := ReserveOutputs(fs, outputs);
    TrackedValid(before, fs.disk, rs, mine, left);
    TrackedFrom(start, before, fs.disk, rs, mine, left);
    LeftOverSince(start, before, fs.disk, outputs, rs, mine, left);
  }

  lemma NoneLeftOver(a: Disk, b: Disk, paths: seq<string>, rs: seq<Reservation>, mine: map<nat, string>)
    ensures LeftOver(a, b, paths, rs, mine, None)
  {
  }

  lemma StillRemovable(a: Disk, b: Disk, c: Disk, rs: seq<Reservation>)
    requires a.faults <= b.faults <= c.faults && (c == b || Removable(b, c, rs))
    requires b.faults == a.faults ==> forall i | 0 <= i < |rs| :: rs[i].Owned(b)
    ensures c.faults == a.faults ==> forall i | 0 <= i < |rs| :: rs[i].Owned(c) || rs[i].path !in c.names
  {
  }

  /** Every output path holds its document, as `Holds` says. */
  ghost predicate WroteAll(a: Disk, b: Disk, paths: seq<string>, rs: seq<Reservation>, documents: seq<Document>) {
    && |rs| == |documents| == |paths|
    && forall i | 0 <= i < |rs| :: rs[i].path == paths[i] && Holds(a, b, rs[i], documents[i])
  }

  lemma WroteAllSince(a: Disk, b: Disk, c: Disk, paths: seq<string>, rs: seq<Reservation>, documents: seq<Document>)
    requires a.faults <= b.faults <= c.faults && WroteAll(b, c, paths, rs, documents)
    ensures WroteAll(a, c, paths, rs, documents)
  {
    forall i | 0 <= i < |rs| ensures Holds(a, c, rs[i], documents[i]) { HoldsSince(a, b, c, rs[i], documents[i]); }
  }

  lemma LeftOverSince(a: Disk, b: Disk, c: Disk, paths: seq<string>, rs: seq<Reservation>, mine: map<nat, string>,
                      left: Option<nat>)
    requires a.faults <= b.faults <= c.faults && LeftOver(b, c, paths, rs, mine, left)
    ensures LeftOver(a, c, paths, rs, mine, left)
  {
    if left.Some? { LeavingFaultLater(a.faults, b.faults, c.faults, c.faults, paths[|rs|]); }
  }

  /** Standard output. */
  class Console {
    ghost var failures: nat

    method Print() returns (failed: bool)
      modifies this
      ensures failures == old(failures) + if failed then 1 else 0
    {
      failed := *;
      if failed { failures := failures + 1; }
    }
  }

  /** `main`. Every run either commits, or leaves the heads as `Undone` says and none of its own output
      files in place except those `Accounted` for. No run unlinks a name other than one of its own files
      under its own path (`Tracked`). When nothing goes wrong on the disk, a run that does not commit
      leaves no file and reports no cleanup error; when nothing goes wrong on GitHub either, it commits
      exactly when its inputs are `Committable`. The exit code is 0 exactly when the run committed and
      could print so. */
  method RunCommand(execute: bool, output: string, verificationOutput: string, eligible: bool,
                    gh: GitHub, fs: FileSystem, console: Console)
    returns (report: Report, rs: seq<Reservation>, ghost run: RollbackRun,
             ghost mine: map<nat, string>, ghost left: Option<nat>)
    requires fs.disk.Valid()
    modifies gh, fs, console
    ensures Tracked(old(fs.disk), fs.disk, rs, mine, left)
    ensures report.exitCode == 0 <==> report.committed && console.failures == old(console.failures)
    ensures report.committed ==>
      && left == None && output != verificationOutput && Cleanable(eligible, old(gh.refs), gh.pulls)
      && WroteAll(old(fs.disk), fs.disk, Outputs(execute, output, verificationOutput), rs, report.documents)
      && rs[0].path == output && (execute ==> rs[1].path == verificationOutput)
      && Recorded(execute, old(gh.refs), gh.refs, gh.pulls, old(gh.calls), gh.calls, report.documents)
    ensures !report.committed ==>
      && Undone(execute, old(gh.refs), gh.refs, old(gh.calls), gh.calls, report.rollbackErrors, run)
      && |report.cleanupErrors| == |rs|
      && (forall p | Own(old(fs.disk), fs.disk, p) ::
            Accounted(old(fs.disk), fs.disk, Outputs(execute, output, verificationOutput), rs, report.cleanupErrors,
                      left, p))
    ensures fs.disk.faults == old(fs.disk).faults ==>
      if report.committed then
        && (forall i | 0 <= i < |rs| :: rs[i].Owned(fs.disk))
        && output !in old(fs.disk).names && verificationOutput !in old(fs.disk).names
      else
        && left == None && (forall e | e in report.cleanupErrors :: e == [])
        && (forall p :: !Own(old(fs.disk), fs.disk, p))
    ensures !gh.faulted && fs.disk.faults == old(fs.disk).faults ==>
      (report.committed <==>
        Committable(execute, output, verificationOutput, eligible, old(gh.refs), gh.pulls, old(fs.disk).names))
  {
    hide Evolved, Tracked, Mine, Undone, IsStale, Cleanable, CleanedUp, LeftOver, Accounted, Own;
    var outputs := Outputs(execute, output, verificationOutput);
    ghost var start := fs.disk;
    var committed, documents, errors;
    committed, documents, errors, rs, run, mine, left :=
      Attempt(execute, output, verificationOutput, eligible, gh, fs);
    TrackedValid(start, fs.disk, rs, mine, left);
    if committed {
      var unprinted := console.Print();
      report := Report(if unprinted then 1 else 0, true, documents, [], []);
      return;
    }
    ghost var before := fs.disk;
    var faults := CleanupAll(fs, rs);
    EvolvedBasics(before, fs.disk, Mine(rs));
    TrackedMine(start, before, rs, mine, left);
    TrackedStep(start, before, fs.disk, rs, mine, left, Mine(rs));
    report := Report(1, false, [], errors, faults);
    forall p | Own(start, fs.disk, p) ensures p in fs.disk.names && Accounted(start, fs.disk, outputs, rs, faults, left, p) {
      OwnIsNamed(start, fs.disk, p);
      NothingLeftBehind(start, before, fs.disk, outputs, rs, mine, left, faults, p);
    }
    if fs.disk.faults == start.faults {
      NothingToAccount(start, before, fs.disk, outputs, rs, mine, left, faults);
    }
  }

  lemma OwnIsNamed(a: Disk, b: Disk, p: string)
    requires Own(a, b, p)
    ensures p in b.names
  {
  }

  /** Cleanup is atomic: a run that did not commit splits the initial heads into the final heads and
      exactly the branches it named if and only if no call that raised took effect; then, with no error
      named, nothing changed. */
  lemma UncommittedRunIsAtomic(execute: bool, before: Refs, after: Refs, callsBefore: seq<RefCall>,
                               callsAfter: seq<RefCall>, errors: seq<string>, run: RollbackRun)
    requires Undone(execute, before, after, callsBefore, callsAfter, errors, run)
    ensures before.Keys == after.Keys + Elements(errors) && after.Keys !! Elements(errors) <==>
      forall c | c in run.Calls() && c.raised :: !c.applied
    ensures forall b | b in after :: b in before && after[b] == before[b]
    ensures errors == [] && (forall c | c in run.Calls() && c.raised :: !c.applied) ==> after == before
  {
    hide IsRollbackRun;
    var planned :| IsRollbackRun(before, planned, run);
    RollbackNamesEveryLoss(before, planned, run);
    RollbackEffect(before, planned, run);
  }
}
