/** The immutable-release publication transaction (`execute_plan` of
    scripts/ga/_publish_final_immutable_release_nine_asset.py over the helpers of
    scripts/ga/_publish_final_immutable_release_impl.py).

    The remote is trusted only to answer queries truthfully. A mutating call may raise or return, may
    or may not take effect either way, and may leave fields other than those asked for; what the
    program relies on is what it has read back. */
module ReleasePublication {
  import opened Collections
  import opened PublicationAssets

  const REPOSITORY := "Naveax/PSMatrix"
  const TAG := "v2.0.0"

  datatype Release = Release(
    id: int, tagName: string, name: string, prerelease: bool, target: string,
    draft: bool, immutable: bool, publishedAt: string, assets: seq<RemoteAsset>)

  datatype Remote = Remote(immutableEnabled: bool, release: Option<Release>, tag: Option<string>)
  {
    predicate Clear() {
      release.None? && tag.None?
    }
  }

  datatype Plan = Plan(
    status: string, repository: string, tag: string, releaseName: string, targetCommit: string,
    mutationExecuted: bool, bundleReverified: bool, attestationReverified: bool, attestationHeadVerified: bool,
    assetCount: int, assets: seq<PlannedAsset>)
  {
    predicate Executable() {
      && status == "DRY_RUN" && repository == REPOSITORY && tag == TAG && !mutationExecuted
      && bundleReverified && attestationReverified && attestationHeadVerified
      && assetCount == 9 && |assets| == 9
    }
  }

  /** A mutating call, with the remote as it stood when a dangerous one was issued. */
  datatype Call =
    | Enable
    | CreateDraft(raised: bool)
    | Upload
    | Publish(before: Remote, raised: bool)
    | DeleteRelease(before: Remote)
    | Disable(before: Remote)
  {
    predicate Preparing() {
      Enable? || CreateDraft? || Upload?
    }
  }

  /** `_verify_release_identity`. */
  predicate Identified(rel: Release, plan: Plan, published: bool) {
    && rel.id > 0 && rel.tagName == TAG && rel.name == plan.releaseName && !rel.prerelease
    && rel.target == plan.targetCommit
    && if published then !rel.draft && rel.immutable && rel.publishedAt != ""
       else rel.draft && !rel.immutable && rel.publishedAt == ""
  }

  /** The draft of this plan, holding exactly its assets. */
  ghost predicate VerifiedDraft(fold: string -> string, remote: Remote, plan: Plan, id: int) {
    && remote.release.Some? && remote.release.value.id == id
    && Identified(remote.release.value, plan, false)
    && ExactAssets(fold, remote.release.value.assets, plan.assets)
  }

  /** What a PASS receipt claims about the remote. */
  ghost predicate PublishedExactly(fold: string -> string, remote: Remote, plan: Plan, id: int) {
    && remote.immutableEnabled && remote.tag == Some(plan.targetCommit)
    && remote.release.Some? && remote.release.value.id == id
    && Identified(remote.release.value, plan, true)
    && ExactAssets(fold, remote.release.value.assets, plan.assets)
  }

  /** The same, field by field: a published, immutable release of the plan's name at its commit, the tag at
      that commit, and exactly the planned assets. */
  ghost predicate ReleasedAs(fold: string -> string, remote: Remote, plan: Plan, id: int) {
    && remote.immutableEnabled && remote.tag == Some(plan.targetCommit) && remote.release.Some?
    && var rel := remote.release.value;
       && rel.id == id > 0 && !rel.draft && !rel.prerelease && rel.immutable && rel.publishedAt != ""
       && rel.tagName == "v2.0.0" && rel.name == plan.releaseName && rel.target == plan.targetCommit
       && SameRows(rel.assets, plan.assets) && FoldDistinct(fold, plan.assets)
  }

  lemma PublishedMeans(fold: string -> string, remote: Remote, plan: Plan, id: int)
    ensures PublishedExactly(fold, remote, plan, id) <==> ReleasedAs(fold, remote, plan, id)
  {
    if remote.release.Some? { ExactIff(fold, remote.release.value.assets, plan.assets); }
  }

  /** A plan that may be executed, field by field. */
  lemma ExecutableMeans(plan: Plan)
    ensures plan.Executable() <==>
      && plan.status == "DRY_RUN" && !plan.mutationExecuted && plan.repository == "Naveax/PSMatrix" && plan.tag == "v2.0.0"
      && plan.bundleReverified && plan.attestationReverified && plan.attestationHeadVerified
      && plan.assetCount == 9 && |plan.assets| == 9
  {
  }

  /** The release a faithful remote makes of a plan: first the empty draft, then the published one. */
  function DraftOf(plan: Plan, id: int): Release {
    Release(id, TAG, plan.releaseName, false, plan.targetCommit, true, false, "", [])
  }

  /** The parts of a run. */
  datatype Phase = Preparation | Publication | Rollback | Reconciliation

  /** `faults` are the phases in which some request did not do, or did not answer, what it was asked. */
  class Hub {
    var remote: Remote
    var calls: seq<Call>
    ghost var phase: Phase
    ghost var faults: set<Phase>

    // ----- queries: truthful, but any of them may raise -----

    method MayFail() returns (failed: bool)
      modifies this`faults
      ensures faults == old(faults) + if failed then {phase} else {}
    {
      failed := *;
      if failed { faults := faults + {phase}; }
    }

    method ReleaseAbsent() returns (r: Result<bool>)
      modifies this`faults
      ensures faults == old(faults) + if r.Raised? then {phase} else {}
      ensures r.Ok? ==> r.value == remote.release.None?
    {
      var failed := MayFail();
      r := if failed then Raised else Ok(remote.release.None?);
    }

    method TagAbsent() returns (r: Result<bool>)
      modifies this`faults
      ensures faults == old(faults) + if r.Raised? then {phase} else {}
      ensures r.Ok? ==> r.value == remote.tag.None?
    {
      var failed := MayFail();
      r := if failed then Raised else Ok(remote.tag.None?);
    }

    method ImmutableEnabled() returns (r: Result<bool>)
      modifies this`faults
      ensures faults == old(faults) + if r.Raised? then {phase} else {}
      ensures r.Ok? ==> r.value == remote.immutableEnabled
    {
      var failed := MayFail();
      r := if failed then Raised else Ok(remote.immutableEnabled);
    }

    method View() returns (r: Result<Release>)
      modifies this`faults
      ensures old(faults) <= faults <= old(faults) + {phase}
      ensures r.Ok? ==> remote.release == Some(r.value)
      ensures r.Raised? ==> phase in faults || remote.release.None?
    {
      var failed := MayFail();
      r := if failed || remote.release.None? then Raised else Ok(remote.release.value);
    }

    method TagTarget() returns (r: Result<string>)
      modifies this`faults
      ensures old(faults) <= faults <= old(faults) + {phase}
      ensures r.Ok? ==> remote.tag == Some(r.value)
      ensures r.Raised? ==> phase in faults || remote.tag.None?
    {
      var failed := MayFail();
      r := if failed || remote.tag.None? then Raised else Ok(remote.tag.value);
    }

    method ListAssets(id: int) returns (r: Result<seq<RemoteAsset>>)
      modifies this`faults
      ensures old(faults) <= faults <= old(faults) + {phase}
      ensures r.Ok? ==> remote.release.Some? && remote.release.value.id == id && r.value == remote.release.value.assets
      ensures r.Raised? ==> phase in faults || remote.release.None? || remote.release.value.id != id
    {
      var failed := MayFail();
      if failed || remote.release.None? || remote.release.value.id != id { return Raised; }
      return Ok(remote.release.value.assets);
    }

    // ----- mutations: each may raise, with or without effect -----

    method PutImmutable() returns (raised: bool)
      modifies this
      ensures calls == old(calls) + [Enable]
      ensures remote == old(remote) || remote == old(remote).(immutableEnabled := true)
      ensures old(faults) <= faults <= old(faults) + {phase} && phase == old(phase)
      ensures phase !in faults ==> !raised && remote.immutableEnabled
    {
      calls := calls + [Enable];
      var failed := MayFail();
      var applied: bool :| failed || applied;
      raised :| failed || !raised;
      if applied { remote := remote.(immutableEnabled := true); }
    }

    method DeleteImmutable() returns (raised: bool)
      modifies this
      ensures calls == old(calls) + [Disable(old(remote))]
      ensures remote == old(remote) || remote == old(remote).(immutableEnabled := false)
      ensures old(faults) <= faults <= old(faults) + {phase} && phase == old(phase)
      ensures phase !in faults ==> !raised && !remote.immutableEnabled
    {
      calls := calls + [Disable(remote)];
      var failed := MayFail();
      var applied: bool :| failed || applied;
      raised :| failed || !raised;
      if applied { remote := remote.(immutableEnabled := false); }
    }

    method CreateDraftRelease(plan: Plan) returns (raised: bool)
      modifies this
      ensures calls == old(calls) + [CreateDraft(raised)]
      ensures remote.immutableEnabled == old(remote).immutableEnabled
      ensures old(faults) <= faults <= old(faults) + {phase} && phase == old(phase)
      ensures phase !in faults ==> !raised && exists id | id > 0 :: remote.release == Some(DraftOf(plan, id))
    {
      var failed := MayFail();
      raised :| failed || !raised;
      calls := calls + [CreateDraft(raised)];
      var release: Option<Release>, tag: Option<string> := *, *;
      if !failed {
        var id: int :| id > 0;
        release, tag := Some(DraftOf(plan, id)), remote.tag;
      }
      remote := remote.(release := release, tag := tag);
    }

    /** Adds at most one asset row; nothing else about the release changes. */
    method UploadAsset(asset: PlannedAsset) returns (raised: bool)
      modifies this
      ensures calls == old(calls) + [Upload]
      ensures remote == old(remote) || (
        && old(remote).release.Some? && remote.release.Some?
        && remote == old(remote).(release := Some(old(remote).release.value.(assets := remote.release.value.assets))))
      ensures old(faults) <= faults <= old(faults) + {phase} && phase == old(phase)
      ensures phase !in faults && old(remote).release.Some? ==>
        !raised && remote.release.value.assets == old(remote).release.value.assets + [UploadedRow(asset)]
    {
      calls := calls + [Upload];
      var failed := MayFail();
      raised :| failed || !raised;
      var applied: bool :| failed || applied;
      var row: RemoteAsset := *;
      if !failed { row := UploadedRow(asset); }
      if applied && remote.release.Some? {
        remote := remote.(release := Some(remote.release.value.(assets := remote.release.value.assets + [row])));
      }
    }

    method PublishRelease() returns (raised: bool)
      modifies this
      ensures calls == old(calls) + [Publish(old(remote), raised)]
      ensures remote.immutableEnabled == old(remote).immutableEnabled
      ensures old(faults) <= faults <= old(faults) + {phase} && phase == old(phase)
      ensures phase !in faults && old(remote).release.Some? ==>
        var rel := old(remote).release.value;
        && !raised && remote.tag == Some(rel.target)
        && exists at | at != "" ::
             remote.release == Some(rel.(draft := false, immutable := old(remote).immutableEnabled, publishedAt := at))
    {
      var failed := MayFail();
      raised :| failed || !raised;
      calls := calls + [Publish(remote, raised)];
      var release: Option<Release>, tag: Option<string> := *, *;
      if !failed && remote.release.Some? {
        var at: string :| at != "" by { assert "now" != ""; }
        var rel := remote.release.value;
        release := Some(rel.(draft := false, immutable := remote.immutableEnabled, publishedAt := at));
        tag := Some(rel.target);
      }
      remote := remote.(release := release, tag := tag);
    }

    method DeleteReleaseAndTag() returns (raised: bool)
      modifies this
      ensures calls == old(calls) + [DeleteRelease(old(remote))]
      ensures remote.immutableEnabled == old(remote).immutableEnabled
      ensures old(faults) <= faults <= old(faults) + {phase} && phase == old(phase)
      ensures phase !in faults ==> !raised && remote.Clear()
    {
      calls := calls + [DeleteRelease(remote)];
      var failed := MayFail();
      raised :| failed || !raised;
      var release: Option<Release>, tag: Option<string> := *, *;
      if !failed { release, tag := None, None; }
      remote := remote.(release := release, tag := tag);
    }
  }

  method EnableImmutable(hub: Hub) returns (ok: bool)
    modifies hub
    ensures hub.calls == old(hub.calls) + [Enable]
    ensures hub.remote.(immutableEnabled := old(hub.remote).immutableEnabled) == old(hub.remote)
    ensures ok ==> hub.remote.immutableEnabled
    ensures old(hub.faults) <= hub.faults <= old(hub.faults) + {hub.phase} && hub.phase == old(hub.phase)
    ensures !ok ==> hub.phase in hub.faults
  {
    var raised := hub.PutImmutable();
    if raised { return false; }
    var now := hub.ImmutableEnabled();
    return now == Ok(true);
  }

  method DisableImmutable(hub: Hub) returns (ok: bool)
    modifies hub
    ensures hub.calls == old(hub.calls) + [Disable(old(hub.remote))]
    ensures hub.remote.(immutableEnabled := old(hub.remote).immutableEnabled) == old(hub.remote)
    ensures ok ==> !hub.remote.immutableEnabled
    ensures old(hub.faults) <= hub.faults <= old(hub.faults) + {hub.phase} && hub.phase == old(hub.phase)
    ensures !ok ==> hub.phase in hub.faults
  {
    var raised := hub.DeleteImmutable();
    if raised { return false; }
    var now := hub.ImmutableEnabled();
    return now == Ok(false);
  }

  method RemoteClear(hub: Hub) returns (r: Result<bool>)
    modifies hub`faults
    ensures old(hub.faults) <= hub.faults <= old(hub.faults) + {hub.phase}
    ensures r.Raised? ==> hub.phase in hub.faults
    ensures r.Ok? ==> r.value == hub.remote.Clear()
  {
    var release := hub.ReleaseAbsent();
    if release.Raised? { return Raised; }
    var tag := hub.TagAbsent();
    if tag.Raised? { return Raised; }
    return Ok(release.value && tag.value);
  }

  /** Every dangerous call is justified by what had been read: a release is published only as the
      verified draft, deleted only as this run's own draft, and the setting is disabled only when
      neither release nor tag exists. */
  ghost predicate SafeAt(fold: string -> string, plan: Plan, calls: seq<Call>, i: nat)
    requires i < |calls|
  {
    match calls[i]
    case Publish(before, _) => exists id :: VerifiedDraft(fold, before, plan, id)
    case DeleteRelease(before) =>
      && before.release.Some? && Identified(before.release.value, plan, false)
      && CreateDraft(false) in calls[..i]
    case Disable(before) => before.Clear()
    case _ => true
  }

  ghost predicate Safe(fold: string -> string, plan: Plan, calls: seq<Call>) {
    forall i | 0 <= i < |calls| :: SafeAt(fold, plan, calls, i)
  }

  /** What the discipline means, call by call: publishing and deleting meet only an unpublished draft of
      this plan, the former holding exactly the planned assets; disabling meets neither release nor tag. */
  lemma SafeMeans(fold: string -> string, plan: Plan, calls: seq<Call>, i: nat)
    requires Safe(fold, plan, calls) && i < |calls|
    ensures calls[i].Publish? || calls[i].DeleteRelease? ==>
      && calls[i].before.release.Some?
      && var rel := calls[i].before.release.value;
         && rel.draft && !rel.immutable && !rel.prerelease && rel.publishedAt == "" && rel.tagName == "v2.0.0"
         && rel.name == plan.releaseName && rel.target == plan.targetCommit
         && (calls[i].Publish? ==> SameRows(rel.assets, plan.assets))
    ensures calls[i].DeleteRelease? ==> exists j | 0 <= j < i :: calls[j] == CreateDraft(false)
    ensures calls[i].Disable? ==> calls[i].before.release == None && calls[i].before.tag == None
  {
    assert SafeAt(fold, plan, calls, i);
    if calls[i].Publish? {
      var id :| VerifiedDraft(fold, calls[i].before, plan, id);
      ExactIff(fold, calls[i].before.release.value.assets, plan.assets);
    }
    if calls[i].DeleteRelease? {
      assert CreateDraft(false) in calls[..i];
      var j :| 0 <= j < i && calls[..i][j] == CreateDraft(false);
    }
  }

  lemma SafeAppend(fold: string -> string, plan: Plan, calls: seq<Call>, c: Call)
    requires Safe(fold, plan, calls) && SafeAt(fold, plan, calls + [c], |calls|)
    ensures Safe(fold, plan, calls + [c])
  {
    forall i | 0 <= i < |calls + [c]| ensures SafeAt(fold, plan, calls + [c], i) {
      if i < |calls| {
        assert SafeAt(fold, plan, calls, i) && (calls + [c])[..i] == calls[..i];
      }
    }
  }

  predicate HoldsDraft(remote: Remote, plan: Plan) {
    remote.release.Some? && Identified(remote.release.value, plan, false)
  }

  /** `_rollback_draft`: deletes only what re-verifies as this plan's draft, then proves it gone. */
  method RollbackDraft(fold: string -> string, hub: Hub, plan: Plan) returns (ok: bool)
    requires Safe(fold, plan, hub.calls) && CreateDraft(false) in hub.calls
    modifies hub
    ensures Safe(fold, plan, hub.calls)
    ensures hub.calls == old(hub.calls) || hub.calls == old(hub.calls) + [DeleteRelease(old(hub.remote))]
    ensures hub.remote.immutableEnabled == old(hub.remote).immutableEnabled
    ensures ok ==> hub.remote.Clear()
    ensures old(hub.faults) <= hub.faults <= old(hub.faults) + {hub.phase} && hub.phase == old(hub.phase)
    ensures !ok ==> hub.phase in hub.faults || (!HoldsDraft(old(hub.remote), plan) && hub.remote == old(hub.remote))
  {
    var current := hub.View();
    if current.Raised? || !Identified(current.value, plan, false) { return false; }
    assert (hub.calls + [DeleteRelease(hub.remote)])[..|hub.calls|] == hub.calls;
    SafeAppend(fold, plan, hub.calls, DeleteRelease(hub.remote));
    var raised := hub.DeleteReleaseAndTag();
    if raised { return false; }
    var clear := RemoteClear(hub);
    return clear == Ok(true);
  }

  /** `_rollback_pre_publish`. A normal return leaves no release, no tag and, if the run had to enable
      it, the setting disabled. When the draft's creation is in doubt and something exists, nothing
      is touched. It fails only if one of its own requests does, or if what it finds is not its draft. */
  method RollbackPrePublish(fold: string -> string, hub: Hub, plan: Plan, draftCreated: bool, immutableChanged: bool)
    returns (ok: bool)
    requires Safe(fold, plan, hub.calls) && (draftCreated ==> CreateDraft(false) in hub.calls)
    modifies hub
    ensures Safe(fold, plan, hub.calls) && old(hub.calls) <= hub.calls
    ensures forall i | |old(hub.calls)| <= i < |hub.calls| :: hub.calls[i].DeleteRelease? || hub.calls[i].Disable?
    ensures ok ==> hub.remote.Clear()
    ensures ok && immutableChanged ==> !hub.remote.immutableEnabled
    ensures !immutableChanged ==> hub.remote.immutableEnabled == old(hub.remote).immutableEnabled
    ensures !draftCreated && !old(hub.remote).Clear() ==>
      !ok && hub.remote == old(hub.remote) && hub.calls == old(hub.calls)
    ensures old(hub.faults) <= hub.faults <= old(hub.faults) + {Rollback} && hub.phase == Rollback
    ensures !ok && Rollback !in hub.faults ==>
      hub.remote == old(hub.remote) && if draftCreated then !HoldsDraft(hub.remote, plan) else !hub.remote.Clear()
  {
    hub.phase := Rollback;
    var clean;
    if draftCreated {
      clean := RollbackDraft(fold, hub, plan);
    } else {
      var clear := RemoteClear(hub);
      clean := clear == Ok(true);
    }
    if !clean { return false; }
    if immutableChanged {
      var enabled := hub.ImmutableEnabled();
      if enabled.Raised? { return false; }
      if enabled.value {
        SafeAppend(fold, plan, hub.calls, Disable(hub.remote));
        var disabled := DisableImmutable(hub);
        return disabled;
      }
    }
    return true;
  }

  /** Everything `execute_plan` does in its try block before `publish_attempted` is set. */
  method Prepare(fold: string -> string, hub: Hub, plan: Plan, immutableChanged: bool)
    returns (ready: bool, draftCreated: bool, releaseId: Option<int>)
    requires |plan.assets| == 9 && hub.calls == [] && hub.remote.immutableEnabled == !immutableChanged
    modifies hub
    ensures forall i | 0 <= i < |hub.calls| :: hub.calls[i].Preparing()
    ensures forall i, j | 0 <= i < j < |hub.calls| :: !(hub.calls[i].CreateDraft? && hub.calls[j].CreateDraft?)
    ensures draftCreated <==> CreateDraft(false) in hub.calls
    ensures !immutableChanged ==> hub.remote.immutableEnabled
    ensures ready ==> releaseId.Some? && VerifiedDraft(fold, hub.remote, plan, releaseId.value) && hub.remote.immutableEnabled
    ensures old(hub.faults) <= hub.faults <= old(hub.faults) + {hub.phase} && hub.phase == old(hub.phase)
    ensures hub.phase !in hub.faults ==> (ready <==> Distinct(Folded(fold, Uploaded(plan.assets))))
    ensures hub.phase !in hub.faults || Upload in hub.calls ==> draftCreated
    ensures hub.phase !in hub.faults || Upload in hub.calls ==> HoldsDraft(hub.remote, plan)
  {
    ready, draftCreated, releaseId := false, false, None;
    if immutableChanged {
      var enabled := EnableImmutable(hub);
      if !enabled { return; }
    }
    var raised := hub.CreateDraftRelease(plan);
    if raised { return; }
    draftCreated := true;
    assert hub.calls[|hub.calls| - 1] == CreateDraft(false);
    var draft := hub.View();
    if draft.Raised? || !Identified(draft.value, plan, false) { return; }
    releaseId := Some(draft.value.id);
    ready := UploadAndVerify(fold, hub, plan, draft.value.id);
  }

  /** The uploads onto the verified draft, and the check of what is there afterwards. */
  method UploadAndVerify(fold: string -> string, hub: Hub, plan: Plan, releaseId: int) returns (ready: bool)
    requires |plan.assets| == 9 && hub.remote.immutableEnabled
    requires HoldsDraft(hub.remote, plan) && hub.remote.release.value.id == releaseId
    modifies hub
    ensures old(hub.calls) <= hub.calls && forall i | |old(hub.calls)| <= i < |hub.calls| :: hub.calls[i].Upload?
    ensures hub.remote.immutableEnabled && HoldsDraft(hub.remote, plan)
    ensures ready ==> VerifiedDraft(fold, hub.remote, plan, releaseId)
    ensures old(hub.faults) <= hub.faults <= old(hub.faults) + {hub.phase} && hub.phase == old(hub.phase)
    ensures hub.phase !in hub.faults && old(hub.remote).release.value.assets == [] ==>
      (ready <==> Distinct(Folded(fold, Uploaded(plan.assets))))
  {
    for n := 0 to |plan.assets|
      invariant old(hub.calls) <= hub.calls && forall i | |old(hub.calls)| <= i < |hub.calls| :: hub.calls[i].Upload?
      invariant hub.remote.immutableEnabled && HoldsDraft(hub.remote, plan) && hub.remote.release.value.id == releaseId
      invariant old(hub.faults) <= hub.faults <= old(hub.faults) + {hub.phase} && hub.phase == old(hub.phase)
      invariant hub.phase !in hub.faults && old(hub.remote).release.value.assets == [] ==>
        hub.remote.release.value.assets == Uploaded(plan.assets)[..n]
    {
      assert Uploaded(plan.assets)[..n + 1] == Uploaded(plan.assets)[..n] + [UploadedRow(plan.assets[n])];
      var raised := hub.UploadAsset(plan.assets[n]);
      if raised { return false; }
    }
    var assets := hub.ListAssets(releaseId);
    if assets.Raised? { return false; }
    assert Uploaded(plan.assets)[..|plan.assets|] == Uploaded(plan.assets);
    ready := VerifyRemoteAssets(fold, assets.value, plan.assets);
  }

  /** `verify_published_remote`. */
  method VerifyPublishedRemote(fold: string -> string, hub: Hub, plan: Plan, releaseId: int) returns (ok: bool)
    requires |plan.assets| == 9
    modifies hub`faults
    ensures old(hub.faults) <= hub.faults <= old(hub.faults) + {hub.phase}
    ensures ok && hub.remote.immutableEnabled ==> PublishedExactly(fold, hub.remote, plan, releaseId)
    ensures !ok ==> hub.phase in hub.faults || !PublishedExactly(fold, hub.remote, plan, releaseId)
  {
    var published := hub.View();
    if published.Raised? || !Identified(published.value, plan, true) { return false; }
    if published.value.id != releaseId { return false; }
    var target := hub.TagTarget();
    if target != Ok(plan.targetCommit) { return false; }
    var assets := hub.ListAssets(releaseId);
    if assets.Raised? { return false; }
    ok := VerifyRemoteAssets(fold, assets.value, plan.assets);
  }

  datatype Outcome =
    | Refused
    | RolledBack
    | RollbackIncomplete
    | Unresolved
    | Pass(releaseId: int, initiallyEnabled: bool, reconciled: bool)

  /** `execute_plan`. Over every run: a failure before the publish attempt whose rollback returns leaves
      the remote exactly as it was; PASS means the plan is published exactly; and the calls made are
      `Safe`, with publish issued at most once and nothing after it.

      Every failure is followed up, whatever failed before: a rollback is incomplete only if one of its
      own requests failed or what exists is not this run's verified draft, so a run that reached its
      uploads rolls back whenever the rollback's requests work; and a publication stays unresolved only
      if a reconciling request failed or the release is not published exactly. */
  method ExecutePlan(fold: string -> string, hub: Hub, plan: Plan) returns (r: Outcome)
    modifies hub
    ensures Safe(fold, plan, hub.calls)
    ensures forall i | 0 <= i < |hub.calls| && hub.calls[i].Publish? :: i == |hub.calls| - 1
    ensures forall i, j | 0 <= i < j < |hub.calls| :: !(hub.calls[i].CreateDraft? && hub.calls[j].CreateDraft?)
    ensures hub.calls != [] ==> plan.Executable() && old(hub.remote).Clear()
    ensures old(hub.remote).immutableEnabled ==> hub.remote.immutableEnabled
    ensures r.Refused? ==> hub.remote == old(hub.remote) && hub.calls == []
    ensures r.RolledBack? ==> hub.remote == old(hub.remote)
    ensures r.Unresolved? || r.Pass? <==> hub.calls != [] && hub.calls[|hub.calls| - 1].Publish?
    ensures r.RollbackIncomplete? && Rollback !in hub.faults ==>
      if CreateDraft(false) in hub.calls then !HoldsDraft(hub.remote, plan) else !hub.remote.Clear()
    ensures Upload in hub.calls && Rollback !in hub.faults ==> r.RolledBack? || r.Unresolved? || r.Pass?
    ensures r.Unresolved? && Reconciliation !in hub.faults ==>
      forall id | VerifiedDraft(fold, hub.calls[|hub.calls| - 1].before, plan, id) ::
        !PublishedExactly(fold, hub.remote, plan, id)
    ensures r.Pass? ==>
      && PublishedExactly(fold, hub.remote, plan, r.releaseId)
      && VerifiedDraft(fold, hub.calls[|hub.calls| - 1].before, plan, r.releaseId)
      && r.initiallyEnabled == old(hub.remote).immutableEnabled
      && (r.reconciled ==> Publication in hub.faults)
      && (hub.calls[|hub.calls| - 1].raised ==> r.reconciled)
    ensures r.Pass? ==> ReleasedAs(fold, hub.remote, plan, r.releaseId)
    ensures hub.phase == match r
                         case Refused => Preparation
                         case RolledBack => Rollback
                         case RollbackIncomplete => Rollback
                         case Unresolved => Reconciliation
                         case Pass(_, _, reconciled) => if reconciled then Reconciliation else Publication
    ensures hub.faults == {} ==> (r.Refused? <==> !(plan.Executable() && old(hub.remote).Clear()))
    ensures hub.faults == {} && !r.Refused? ==>
      if Distinct(Folded(fold, Uploaded(plan.assets))) then r.Pass? && !r.reconciled else r.RolledBack?
  {
    hide ReleasedAs, PublishedExactly, HoldsDraft;
    hub.calls, hub.faults, hub.phase := [], {}, Preparation;
    if !plan.Executable() { return Refused; }
    var clear := RemoteClear(hub);
    if clear != Ok(true) { return Refused; }
    var initial := hub.ImmutableEnabled();
    if initial.Raised? { return Refused; }
    var immutableChanged := !initial.value;
    var ready, draftCreated, releaseId := Prepare(fold, hub, plan, immutableChanged);
    if !ready {
      ghost var prepared := hub.calls;
      var restored := RollbackPrePublish(fold, hub, plan, draftCreated, immutableChanged);
      assert forall c | c in hub.calls && c.Preparing() :: c in prepared;
      return if restored then RolledBack else RollbackIncomplete;
    }
    if releaseId.None? {
      assert false;
    }
    r := PublishAndVerify(fold, hub, plan, releaseId.value, initial.value);
    if r.Pass? { PublishedMeans(fold, hub.remote, plan, r.releaseId); }
  }

  /** From the publish attempt on. */
  method PublishAndVerify(fold: string -> string, hub: Hub, plan: Plan, releaseId: int, initiallyEnabled: bool)
    returns (r: Outcome)
    requires Safe(fold, plan, hub.calls) && |plan.assets| == 9
    requires VerifiedDraft(fold, hub.remote, plan, releaseId) && hub.remote.immutableEnabled
    requires hub.faults <= {Preparation}
    modifies hub
    ensures |hub.calls| == |old(hub.calls)| + 1 && old(hub.calls) <= hub.calls && Safe(fold, plan, hub.calls)
    ensures hub.calls[|old(hub.calls)|].Publish? && hub.calls[|old(hub.calls)|].before == old(hub.remote)
    ensures hub.remote.immutableEnabled
    ensures old(hub.faults) <= hub.faults && Rollback !in hub.faults
    ensures r.Unresolved? || (r.Pass? && r.releaseId == releaseId && r.initiallyEnabled == initiallyEnabled)
    ensures r.Unresolved? ==> Reconciliation in hub.faults || !PublishedExactly(fold, hub.remote, plan, releaseId)
    ensures r.Pass? ==> PublishedExactly(fold, hub.remote, plan, releaseId)
    ensures r.Pass? ==>
      && (r.reconciled <==> hub.phase == Reconciliation) && (r.reconciled ==> Publication in hub.faults)
      && (hub.calls[|old(hub.calls)|].raised ==> r.reconciled)
    ensures hub.phase == if r.Pass? && !r.reconciled then Publication else Reconciliation
    ensures hub.faults == {} ==> r.Pass? && !r.reconciled
  {
    hub.phase := Publication;
    ghost var remote, calls := hub.remote, hub.calls;
    var raised := hub.PublishRelease();
    SafeAppend(fold, plan, calls, Publish(remote, raised));
    if !raised {
      var verified := VerifyPublishedRemote(fold, hub, plan, releaseId);
      if verified { return Pass(releaseId, initiallyEnabled, false); }
    }
    hub.phase := Reconciliation;
    var reconciled := VerifyPublishedRemote(fold, hub, plan, releaseId);
    if !reconciled { return Unresolved; }
    return Pass(releaseId, initiallyEnabled, true);
  }
}
