/** The remote branch heads, and what a run of deletions followed by a rollback does to them. Every
    mutating call may raise, and a call that raised may or may not have taken effect. */
module RefTransaction {
  import opened Collections
  import opened CleanupRecords
  import opened StaleBranches
  import opened Paging

  type Refs = map<string, string>

  datatype RefCall =
    | Delete(branch: string, raised: bool, applied: bool)
    | Create(branch: string, sha: string, raised: bool, applied: bool)

  function Apply(refs: Refs, call: RefCall): Refs {
    if !call.applied then refs
    else match call
      case Delete(b, _, _) => refs - {b}
      case Create(b, sha, _, _) => refs[b := sha]
  }

  ghost function Replay(refs: Refs, calls: seq<RefCall>): Refs {
    if calls == [] then refs else Apply(Replay(refs, calls[..|calls| - 1]), calls[|calls| - 1])
  }

  lemma {:induction false} ReplayConcat(refs: Refs, a: seq<RefCall>, b: seq<RefCall>)
    ensures Replay(refs, a + b) == Replay(Replay(refs, a), b)
  {
    if b == [] {
      assert a + b == a;
    } else {
      assert (a + b)[..|a + b| - 1] == a + b[..|b| - 1];
      ReplayConcat(refs, a, b[..|b| - 1]);
    }
  }

  /** `faulted` says that some request raised although the heads gave no reason to. */
  class GitHub {
    var refs: Refs
    var calls: seq<RefCall>
    var faulted: bool
    const pulls: seq<PullRow>

    /** `_branch_ref`: raises unless the branch resolves to an exact commit. */
    method BranchRef(branch: string) returns (r: Result<string>)
      modifies this`faulted
      ensures old(faulted) ==> faulted
      ensures r.Ok? ==> branch in refs && refs[branch] == r.value && IsSha40(r.value)
      ensures r.Raised? ==> faulted || branch !in refs || !IsSha40(refs[branch])
    {
      var fault: bool := *;
      faulted := faulted || fault;
      if fault || branch !in refs || !IsSha40(refs[branch]) { return Raised; }
      return Ok(refs[branch]);
    }

    method DeleteRef(branch: string) returns (raised: bool)
      modifies this
      ensures |calls| == |old(calls)| + 1 && calls == old(calls) + [calls[|old(calls)|]]
      ensures var c := calls[|old(calls)|];
              && c == Delete(branch, raised, c.applied) && refs == Apply(old(refs), c)
              && (!raised ==> c.applied) && (c.applied ==> branch in old(refs))
      ensures old(faulted) ==> faulted
      ensures raised ==> faulted || branch !in old(refs)
    {
      var applied: bool :| applied ==> branch in refs;
      raised :| !raised ==> applied;
      faulted := faulted || (raised && branch in refs);
      calls := calls + [Delete(branch, raised, applied)];
      refs := Apply(refs, Delete(branch, raised, applied));
    }

    method CreateRef(branch: string, sha: string) returns (raised: bool)
      modifies this
      ensures |calls| == |old(calls)| + 1 && calls == old(calls) + [calls[|old(calls)|]]
      ensures var c := calls[|old(calls)|];
              && c == Create(branch, sha, raised, c.applied) && refs == Apply(old(refs), c)
              && (!raised ==> c.applied) && (c.applied ==> branch !in old(refs))
      ensures old(faulted) ==> faulted
    {
      var applied: bool :| applied ==> branch !in refs;
      raised :| !raised ==> applied;
      faulted := faulted || (raised && branch !in refs);
      calls := calls + [Create(branch, sha, raised, applied)];
      refs := Apply(refs, Create(branch, sha, raised, applied));
    }

    method ListBranches() returns (r: Result<seq<string>>)
      modifies this`faulted
      ensures old(faulted) ==> faulted
      ensures r.Ok? ==> Distinct(r.value) && Elements(r.value) == refs.Keys && |refs| < PER_PAGE * PAGE_LIMIT
      ensures r.Raised? ==> faulted || |refs| >= PER_PAGE * PAGE_LIMIT
    {
      ghost var listing := ListingExists(refs.Keys);
      var rows: seq<string> :| |rows| == |refs.Keys| && Elements(rows) == refs.Keys by {
        CardinalityCountsDistinct(listing);
      }
      CardinalityCountsDistinct(rows);
      var requests, fault;
      r, requests, fault := PagedList(rows);
      faulted := faulted || fault;
      assert |refs| == |refs.Keys|;
    }

    method ListPulls() returns (r: Result<seq<PullRow>>)
      modifies this`faulted
      ensures old(faulted) ==> faulted
      ensures r.Ok? ==> r.value == pulls && |pulls| < PER_PAGE * PAGE_LIMIT
      ensures r.Raised? ==> faulted || |pulls| >= PER_PAGE * PAGE_LIMIT
    {
      var requests, fault;
      r, requests, fault := PagedList(pulls);
      faulted := faulted || fault;
    }
  }

  // ----- the protocol of one failed run -----

  ghost function Branches(rows: seq<BranchTarget>): set<string> {
    set row | row in rows :: row.branch
  }

  ghost predicate DistinctBranches(rows: seq<BranchTarget>) {
    forall i, j :: 0 <= i < j < |rows| ==> rows[i].branch != rows[j].branch
  }

  /** Every row names an existing branch at its recorded commit. */
  ghost predicate Pinned(refs: Refs, rows: seq<BranchTarget>) {
    forall i | 0 <= i < |rows| :: rows[i].branch in refs && refs[rows[i].branch] == rows[i].sha
  }

  function CleanDeletes(rows: seq<BranchTarget>): seq<RefCall> {
    seq(|rows|, i requires 0 <= i < |rows| => Delete(rows[i].branch, false, true))
  }

  /** The deletions that returned, the one that raised (if any), and the restores that followed. */
  datatype RollbackRun = RollbackRun(
    deleted: seq<BranchTarget>,
    interrupted: seq<RefCall>,
    restores: seq<RefCall>)
  {
    function Calls(): seq<RefCall> {
      CleanDeletes(deleted) + interrupted + restores
    }

    /** The branches the operator is told could not be restored, in the order they were tried. */
    function Errors(): seq<string> {
      RaisedBranches(restores)
    }

    /** A deletion that took effect although the call raised; it was never recorded as deleted. */
    ghost function Hidden(): set<string> {
      set c | c in interrupted && c.applied :: c.branch
    }

    ghost function Lost(): set<string> {
      Hidden() + (Branches(deleted) - Restored(restores))
    }
  }

  function RaisedBranches(calls: seq<RefCall>): seq<string> {
    if calls == [] then []
    else RaisedBranches(calls[..|calls| - 1]) +
         if calls[|calls| - 1].raised then [calls[|calls| - 1].branch] else []
  }

  ghost function Restored(restores: seq<RefCall>): set<string> {
    set c | c in restores && c.applied :: c.branch
  }

  ghost predicate IsInterruption(refs: Refs, planned: seq<BranchTarget>, deleted: seq<BranchTarget>, calls: seq<RefCall>) {
    calls == [] || (
      && |calls| == 1 && |deleted| < |planned|
      && calls[0].Delete? && calls[0].raised && calls[0].branch == planned[|deleted|].branch
      && calls[0].branch in refs && calls[0].branch !in Branches(deleted))
  }

  /** One restore per deleted row, last deleted first. */
  ghost predicate IsRestore(deleted: seq<BranchTarget>, calls: seq<RefCall>) {
    && |calls| == |deleted|
    && forall i | 0 <= i < |calls| ::
         var row := deleted[|deleted| - 1 - i];
         calls[i] == Create(row.branch, row.sha, calls[i].raised, calls[i].applied)
         && (!calls[i].raised ==> calls[i].applied)
  }

  ghost predicate IsRollbackRun(refs: Refs, planned: seq<BranchTarget>, run: RollbackRun) {
    && run.deleted <= planned && DistinctBranches(run.deleted) && Pinned(refs, run.deleted)
    && IsInterruption(refs, planned, run.deleted, run.interrupted)
    && IsRestore(run.deleted, run.restores)
  }

  lemma {:induction false} ReplayDeletes(refs: Refs, rows: seq<BranchTarget>)
    ensures Replay(refs, CleanDeletes(rows)) == refs - Branches(rows)
  {
    if rows == [] {
      assert refs - Branches(rows) == refs;
    } else {
      var front, last := rows[..|rows| - 1], rows[|rows| - 1];
      ReplayDeletes(refs, front);
      assert CleanDeletes(rows)[..|rows| - 1] == CleanDeletes(front);
      assert rows == front + [last];
      assert Branches(rows) == Branches(front) + {last.branch};
      assert refs - Branches(front) - {last.branch} == refs - Branches(rows);
    }
  }

  /** Deleting one more row extends the recorded prefix. */
  lemma DeletesExtend(refs: Refs, rows: seq<BranchTarget>, row: BranchTarget)
    requires DistinctBranches(rows) && Pinned(refs, rows)
    requires row.branch in refs - Branches(rows) && refs[row.branch] == row.sha
    ensures CleanDeletes(rows + [row]) == CleanDeletes(rows) + [Delete(row.branch, false, true)]
    ensures refs - Branches(rows + [row]) == refs - Branches(rows) - {row.branch}
    ensures DistinctBranches(rows + [row]) && Pinned(refs, rows + [row])
  {
    assert Branches(rows + [row]) == Branches(rows) + {row.branch};
    assert forall j | 0 <= j < |rows| :: rows[j].branch in Branches(rows);
  }

  lemma ReplayInterrupted(refs: Refs, rows: seq<BranchTarget>, call: RefCall)
    ensures Replay(refs, CleanDeletes(rows) + [call]) == Apply(refs - Branches(rows), call)
  {
    ReplayDeletes(refs, rows);
    var calls := CleanDeletes(rows) + [call];
    assert calls[..|calls| - 1] == CleanDeletes(rows);
  }

  ghost function Restrict(refs: Refs, keys: set<string>): Refs {
    map b | b in refs && b in keys :: refs[b]
  }

  lemma {:induction false} ReplayRestores(refs: Refs, kept: set<string>, restores: seq<RefCall>)
    requires forall c | c in restores :: c.Create? && c.branch in refs && refs[c.branch] == c.sha
    ensures Replay(Restrict(refs, kept), restores) == Restrict(refs, kept + Restored(restores))
  {
    if restores == [] {
      assert kept + Restored(restores) == kept;
    } else {
      var front, last := restores[..|restores| - 1], restores[|restores| - 1];
      ReplayRestores(refs, kept, front);
      assert restores == front + [last];
      assert Restored(restores) == Restored(front) + if last.applied then {last.branch} else {};
    }
  }

  lemma RestoresAreOfDeleted(refs: Refs, run: RollbackRun)
    requires Pinned(refs, run.deleted) && IsRestore(run.deleted, run.restores)
    ensures forall c | c in run.restores ::
      c.Create? && c.branch in refs && refs[c.branch] == c.sha && c.branch in Branches(run.deleted)
    ensures forall b | b in Branches(run.deleted) :: exists c | c in run.restores :: c.branch == b
  {
    forall c | c in run.restores
      ensures c.Create? && c.branch in refs && refs[c.branch] == c.sha && c.branch in Branches(run.deleted)
    {
      var i :| 0 <= i < |run.restores| && run.restores[i] == c;
      assert run.deleted[|run.deleted| - 1 - i] in run.deleted;
    }
    forall b | b in Branches(run.deleted) ensures exists c | c in run.restores :: c.branch == b {
      var row :| row in run.deleted && row.branch == b;
      var j :| 0 <= j < |run.deleted| && run.deleted[j] == row;
      assert run.restores[|run.deleted| - 1 - j].branch == b;
    }
  }

  lemma InterruptionEffect(refs: Refs, planned: seq<BranchTarget>, run: RollbackRun)
    requires IsInterruption(refs, planned, run.deleted, run.interrupted)
    ensures Replay(refs - Branches(run.deleted), run.interrupted)
         == Restrict(refs, refs.Keys - Branches(run.deleted) - run.Hidden())
    ensures run.Hidden() <= refs.Keys && run.Hidden() !! Branches(run.deleted)
  {
    if run.interrupted != [] {
      var c := run.interrupted[0];
      assert run.interrupted == [c] && run.interrupted[..0] == [];
      assert run.Hidden() == if c.applied then {c.branch} else {};
    }
  }

  /** The exact effect of every rollback run: all branches return except those lost. */
  lemma RollbackEffect(refs: Refs, planned: seq<BranchTarget>, run: RollbackRun)
    requires IsRollbackRun(refs, planned, run)
    ensures Replay(refs, run.Calls()) == refs - run.Lost()
    ensures run.Lost() <= refs.Keys
  {
    hide Pinned, IsInterruption, Replay;
    var gone := Branches(run.deleted);
    var kept := refs.Keys - gone - run.Hidden();
    assert Replay(refs, run.Calls()) == Restrict(refs, kept + Restored(run.restores)) by {
      ReplayConcat(refs, CleanDeletes(run.deleted) + run.interrupted, run.restores);
      ReplayConcat(refs, CleanDeletes(run.deleted), run.interrupted);
      ReplayDeletes(refs, run.deleted);
      RestoresAreOfDeleted(refs, run);
      InterruptionEffect(refs, planned, run);
      ReplayRestores(refs, kept, run.restores);
    }
    assert Restored(run.restores) <= gone <= refs.Keys by { RestoresAreOfDeleted(refs, run); }
    InterruptionEffect(refs, planned, run);
    assert refs.Keys - run.Lost() == kept + Restored(run.restores);
  }

  /** Restores are of distinct branches, so one applied restore settles its branch. */
  lemma RestoreOutcome(run: RollbackRun, c: RefCall)
    requires DistinctBranches(run.deleted) && IsRestore(run.deleted, run.restores) && c in run.restores
    ensures c.branch in Restored(run.restores) <==> c.applied
  {
    var i :| 0 <= i < |run.restores| && run.restores[i] == c;
    if c.branch in Restored(run.restores) {
      var e :| e in run.restores && e.applied && e.branch == c.branch;
      var j :| 0 <= j < |run.restores| && run.restores[j] == e;
      assert i == j;
    }
  }

  lemma LostIffUnapplied(refs: Refs, planned: seq<BranchTarget>, run: RollbackRun)
    requires IsRollbackRun(refs, planned, run)
    ensures run.Lost() == {} <==>
      (forall c | c in run.interrupted :: !c.applied) && (forall c | c in run.restores :: c.applied)
  {
    RestoresAreOfDeleted(refs, run);
    if c :| c in run.interrupted && c.applied { assert c.branch in run.Hidden(); }
    if c :| c in run.restores && !c.applied {
      RestoreOutcome(run, c);
      assert c.branch in run.Lost();
    }
  }

  /** The branches come back exactly when no raising deletion had taken effect and every restore did. */
  lemma RollbackIsAtomicIff(refs: Refs, planned: seq<BranchTarget>, run: RollbackRun)
    requires IsRollbackRun(refs, planned, run)
    ensures Replay(refs, run.Calls()) == refs <==>
      (forall c | c in run.interrupted :: !c.applied) && (forall c | c in run.restores :: c.applied)
  {
    RollbackEffect(refs, planned, run);
    LostIffUnapplied(refs, planned, run);
    if b :| b in run.Lost() { assert b in refs && b !in refs - run.Lost(); }
    if run.Lost() == {} { assert refs - run.Lost() == refs; }
  }

  /** Where the named branches stand: a restore that raised is named, and one that did not apply did. */
  lemma NamedRestores(refs: Refs, run: RollbackRun, c: RefCall)
    requires DistinctBranches(run.deleted) && Pinned(refs, run.deleted) && IsRestore(run.deleted, run.restores)
    requires c in run.restores
    ensures c.raised ==> c.branch in run.Errors() && c.branch in Branches(run.deleted)
    ensures !c.applied <==> c.branch in Branches(run.deleted) - Restored(run.restores)
    ensures !c.applied ==> c.raised
  {
    RestoresAreOfDeleted(refs, run);
    RaisedBranchesMembers(run.restores);
    RestoreOutcome(run, c);
    var i :| 0 <= i < |run.restores| && run.restores[i] == c;
  }

  lemma UnrestoredAreNamed(refs: Refs, run: RollbackRun, b: string)
    requires DistinctBranches(run.deleted) && Pinned(refs, run.deleted) && IsRestore(run.deleted, run.restores)
    ensures b in Branches(run.deleted) - Restored(run.restores) ==> b in run.Errors()
    ensures b in run.Errors() ==> b in Branches(run.deleted) && exists c | c in run.restores :: c.raised && c.branch == b
  {
    RestoresAreOfDeleted(refs, run);
    RaisedBranchesMembers(run.restores);
    if b in Branches(run.deleted) - Restored(run.restores) {
      var c :| c in run.restores && c.branch == b;
      NamedRestores(refs, run, c);
    }
  }

  /** Every lost branch is named exactly when no raising deletion had taken effect. */
  lemma LossesAreNamedIff(refs: Refs, planned: seq<BranchTarget>, run: RollbackRun)
    requires IsRollbackRun(refs, planned, run)
    ensures run.Lost() <= Elements(run.Errors()) <==> forall c | c in run.interrupted :: !c.applied
  {
    InterruptionEffect(refs, planned, run);
    forall b | b in run.Lost() || b in run.Errors()
      ensures b in run.Errors() <==> b !in run.Hidden()
    {
      UnrestoredAreNamed(refs, run, b);
    }
    if c :| c in run.interrupted && c.applied { assert c.branch in run.Hidden(); }
  }

  /** The branches named are exactly those lost if and only if no call that raised took effect. */
  lemma NamedExactlyIff(refs: Refs, planned: seq<BranchTarget>, run: RollbackRun)
    requires IsRollbackRun(refs, planned, run)
    ensures run.Lost() == Elements(run.Errors()) <==> forall c | c in run.Calls() && c.raised :: !c.applied
  {
    hide IsInterruption;
    LossesAreNamedIff(refs, planned, run);
    assert forall c | c in run.interrupted || c in run.restores :: c in run.Calls();
    if run.Lost() == Elements(run.Errors()) {
      forall c | c in run.Calls() && c.raised ensures !c.applied { NamedCall(refs, planned, run, c); }
    }
    if forall c | c in run.Calls() && c.raised :: !c.applied {
      forall b | b in run.Errors() ensures b in run.Lost() {
        UnrestoredAreNamed(refs, run, b);
        var c :| c in run.restores && c.raised && c.branch == b;
        NamedRestores(refs, run, c);
      }
      InterruptionRaised(refs, planned, run);
    }
  }

  lemma InterruptionRaised(refs: Refs, planned: seq<BranchTarget>, run: RollbackRun)
    requires IsInterruption(refs, planned, run.deleted, run.interrupted)
    ensures forall c | c in run.interrupted :: c.raised
  {
  }

  /** If exactly the lost branches are named, a call that raised did nothing. */
  lemma NamedCall(refs: Refs, planned: seq<BranchTarget>, run: RollbackRun, c: RefCall)
    requires IsRollbackRun(refs, planned, run) && run.Lost() == Elements(run.Errors())
    requires c in run.Calls() && c.raised
    ensures !c.applied
  {
    LossesAreNamedIff(refs, planned, run);
    if c in run.restores {
      NamedRestores(refs, run, c);
      InterruptionEffect(refs, planned, run);
      assert c.branch in Elements(run.Errors());
    }
  }

  /** The initial heads are the disjoint union of the final heads and exactly the branches named in the
      rollback errors if and only if no call that raised took effect. */
  lemma RollbackNamesEveryLoss(refs: Refs, planned: seq<BranchTarget>, run: RollbackRun)
    requires IsRollbackRun(refs, planned, run)
    ensures var final, named := Replay(refs, run.Calls()), Elements(run.Errors());
            && named <= refs.Keys
            && (refs.Keys == final.Keys + named && final.Keys !! named <==>
                  forall c | c in run.Calls() && c.raised :: !c.applied)
  {
    hide IsInterruption, IsRestore, Replay;
    NamedExactlyIff(refs, planned, run);
    RollbackEffect(refs, planned, run);
    forall b | b in Elements(run.Errors()) ensures b in refs { NamedIsHead(refs, run, b); }
  }

  lemma NamedIsHead(refs: Refs, run: RollbackRun, b: string)
    requires DistinctBranches(run.deleted) && Pinned(refs, run.deleted) && IsRestore(run.deleted, run.restores)
    requires b in run.Errors()
    ensures b in refs
  {
    UnrestoredAreNamed(refs, run, b);
  }

  lemma {:induction false} RaisedBranchesMembers(calls: seq<RefCall>)
    ensures forall b :: b in RaisedBranches(calls) <==> exists c | c in calls :: c.raised && c.branch == b
  {
    if calls != [] {
      var front, last := calls[..|calls| - 1], calls[|calls| - 1];
      RaisedBranchesMembers(front);
      assert calls == front + [last];
    }
  }

  function Raising(): RefCall -> bool {
    (c: RefCall) => c.raised
  }

  function BranchOf(): RefCall -> string {
    (c: RefCall) => c.branch
  }

  /** The errors name the branches of the raised restores, one each, in the order they were tried. */
  lemma {:induction false} ErrorsInOrder(calls: seq<RefCall>)
    ensures Lists(calls, Raising(), BranchOf(), RaisedBranches(calls))
  {
    hide Lists;
    if calls == [] {
      ListsNone(Raising(), BranchOf());
    } else {
      var front, last := calls[..|calls| - 1], calls[|calls| - 1];
      ErrorsInOrder(front);
      ListsOneMore(front, last, Raising(), BranchOf(), RaisedBranches(front));
      assert calls == front + [last];
    }
  }

  /** A deletion that takes effect and then raises (a client timeout) is neither restored nor named. */
  lemma HiddenDeletionIsLostSilently(sha: string)
    ensures var planned := [BranchTarget("work/x", sha)];
            var refs := map["work/x" := sha];
            var run := RollbackRun([], [Delete("work/x", true, true)], []);
            IsRollbackRun(refs, planned, run) && run.Errors() == [] && Replay(refs, run.Calls()) == map[]
  {
    var planned := [BranchTarget("work/x", sha)];
    var refs := map["work/x" := sha];
    var run := RollbackRun([], [Delete("work/x", true, true)], []);
    assert IsRollbackRun(refs, planned, run);
    RollbackEffect(refs, planned, run);
    assert Delete("work/x", true, true) in run.interrupted;
    assert "work/x" in run.Hidden();
  }

  /** The heads that cleanup must leave alone. */
  ghost function Surviving(refs: Refs): Refs {
    map b | b in refs && !IsStale(b) :: refs[b]
  }

  lemma OnlyStaleRemoved(refs: Refs, rows: seq<BranchTarget>)
    requires forall row | row in rows :: IsStale(row.branch)
    requires forall b | b in refs - Branches(rows) :: !IsStale(b)
    ensures refs - Branches(rows) == Surviving(refs)
  {
    forall b | b in refs ensures b in Branches(rows) <==> IsStale(b) {
      if b !in Branches(rows) { assert b in refs - Branches(rows); }
    }
  }

  /** A branch no call names keeps its head through every prefix of the calls. */
  lemma {:induction false} UntouchedAtEveryStep(refs: Refs, calls: seq<RefCall>, b: string, k: nat)
    requires k <= |calls| && forall c | c in calls :: c.branch != b
    ensures b in Replay(refs, calls[..k]) <==> b in refs
    ensures b in refs ==> Replay(refs, calls[..k])[b] == refs[b]
  {
    if k > 0 {
      UntouchedAtEveryStep(refs, calls, b, k - 1);
      assert calls[..k][..k - 1] == calls[..k - 1];
      assert calls[k - 1] in calls;
    }
  }

  /** Allowed and non-stale branches are unchanged at every step of a rollback run. */
  lemma ProtectedAtEveryStep(refs: Refs, planned: seq<BranchTarget>, run: RollbackRun, b: string, k: nat)
    requires IsRollbackRun(refs, planned, run) && (forall row | row in planned :: IsStale(row.branch))
    requires !IsStale(b) && k <= |run.Calls()|
    ensures b in Replay(refs, run.Calls()[..k]) <==> b in refs
    ensures b in refs ==> Replay(refs, run.Calls()[..k])[b] == refs[b]
  {
    hide IsStale;
    forall c | c in run.Calls() ensures c.branch != b { CallsAreOfPlanned(refs, planned, run, c); }
    UntouchedAtEveryStep(refs, run.Calls(), b, k);
  }

  /** And at every step of a committed run, which is one deletion per stale row. */
  lemma ProtectedWhileDeleting(refs: Refs, rows: seq<BranchTarget>, b: string, k: nat)
    requires (forall row | row in rows :: IsStale(row.branch)) && !IsStale(b) && k <= |rows|
    ensures b in Replay(refs, CleanDeletes(rows)[..k]) <==> b in refs
    ensures b in refs ==> Replay(refs, CleanDeletes(rows)[..k])[b] == refs[b]
  {
    hide IsStale;
    forall c | c in CleanDeletes(rows) ensures c.branch != b {
      var i :| 0 <= i < |rows| && CleanDeletes(rows)[i] == c;
      assert rows[i] in rows;
    }
    UntouchedAtEveryStep(refs, CleanDeletes(rows), b, k);
  }

  /** At every step of a run, only planned branches are touched. */
  lemma CallsAreOfPlanned(refs: Refs, planned: seq<BranchTarget>, run: RollbackRun, c: RefCall)
    requires IsRollbackRun(refs, planned, run) && c in run.Calls()
    ensures c.branch in Branches(planned)
  {
    RestoresAreOfDeleted(refs, run);
    assert forall row | row in run.deleted :: row in planned;
    if c in run.restores {
      assert c.branch in Branches(run.deleted);
    } else if c in run.interrupted {
      assert planned[|run.deleted|] in planned;
    } else {
      assert c in CleanDeletes(run.deleted);
      var i :| 0 <= i < |run.deleted| && CleanDeletes(run.deleted)[i] == c;
      assert run.deleted[i] in planned;
    }
  }
}
