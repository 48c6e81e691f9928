/** The nine publication assets and the test that a release holds exactly them. */
module PublicationAssets {
  import opened Collections

  datatype PlannedAsset = PlannedAsset(name: string, path: string, size: int, digest: string)

  datatype RemoteAsset = RemoteAsset(name: string, size: int, digest: string, state: string)

  /** The remote row an asset should have become. */
  function UploadedRow(asset: PlannedAsset): RemoteAsset {
    RemoteAsset(asset.name, asset.size, asset.digest, "uploaded")
  }

  function Uploaded(assets: seq<PlannedAsset>): seq<RemoteAsset> {
    seq(|assets|, i requires 0 <= i < |assets| => UploadedRow(assets[i]))
  }

  function RemoteNames(remote: seq<RemoteAsset>): set<string> {
    set r | r in remote :: r.name
  }

  function PlannedNames(assets: seq<PlannedAsset>): set<string> {
    set a | a in assets :: a.name
  }

  function Folded(fold: string -> string, rows: seq<RemoteAsset>): seq<string> {
    seq(|rows|, i requires 0 <= i < |rows| => fold(rows[i].name))
  }

  /** What verification is for: the remote rows are the planned rows in some order, and no two names
      differ only by case. */
  ghost predicate ExactAssets(fold: string -> string, remote: seq<RemoteAsset>, assets: seq<PlannedAsset>) {
    multiset(remote) == multiset(Uploaded(assets)) && Distinct(Folded(fold, Uploaded(assets)))
  }

  /** The remote rows are the planned ones, each once, in any order: name, size, digest, uploaded. */
  ghost predicate SameRows(remote: seq<RemoteAsset>, assets: seq<PlannedAsset>) {
    multiset(remote) == multiset(seq(|assets|, i requires 0 <= i < |assets| =>
      RemoteAsset(assets[i].name, assets[i].size, assets[i].digest, "uploaded")))
  }

  /** No two planned names differ only by case. */
  ghost predicate FoldDistinct(fold: string -> string, assets: seq<PlannedAsset>) {
    forall i, j :: 0 <= i < j < |assets| ==> fold(assets[i].name) != fold(assets[j].name)
  }

  lemma ExactIff(fold: string -> string, remote: seq<RemoteAsset>, assets: seq<PlannedAsset>)
    ensures ExactAssets(fold, remote, assets) <==> SameRows(remote, assets) && FoldDistinct(fold, assets)
    ensures Distinct(Folded(fold, Uploaded(assets))) <==> FoldDistinct(fold, assets)
  {
    assert Uploaded(assets) == seq(|assets|, i requires 0 <= i < |assets| =>
      RemoteAsset(assets[i].name, assets[i].size, assets[i].digest, "uploaded"));
    var names := Folded(fold, Uploaded(assets));
    assert forall i | 0 <= i < |assets| :: names[i] == fold(assets[i].name);
  }

  lemma FoldedElements(fold: string -> string, a: seq<RemoteAsset>, b: seq<RemoteAsset>)
    requires |a| == |b|
    requires forall r | r in a :: exists q | q in b :: q.name == r.name
    requires forall r | r in b :: exists q | q in a :: q.name == r.name
    ensures Distinct(Folded(fold, a)) <==> Distinct(Folded(fold, b))
  {
    FoldedWithin(fold, a, b);
    FoldedWithin(fold, b, a);
    assert Elements(Folded(fold, a)) == Elements(Folded(fold, b));
    CardinalityCountsDistinct(Folded(fold, a));
    CardinalityCountsDistinct(Folded(fold, b));
  }

  lemma FoldedWithin(fold: string -> string, a: seq<RemoteAsset>, b: seq<RemoteAsset>)
    requires forall r | r in a :: exists q | q in b :: q.name == r.name
    ensures Elements(Folded(fold, a)) <= Elements(Folded(fold, b))
  {
    forall x | x in Folded(fold, a) ensures x in Folded(fold, b) {
      var i :| 0 <= i < |a| && Folded(fold, a)[i] == x;
      assert a[i] in a;
      var q :| q in b && q.name == a[i].name;
      var j :| 0 <= j < |b| && b[j] == q;
      assert Folded(fold, b)[j] == x;
    }
  }

  /** Equal rows under case-distinct names: containment one way is a permutation. */
  lemma ContainedIsPermutation(fold: string -> string, part: seq<RemoteAsset>, whole: seq<RemoteAsset>)
    requires |part| == |whole| && Distinct(Folded(fold, part)) && Distinct(Folded(fold, whole))
    requires forall r | r in part :: r in whole
    ensures multiset(part) == multiset(whole)
  {
    forall i, j | 0 <= i < j < |part| ensures part[i] != part[j] {
      assert Folded(fold, part)[i] != Folded(fold, part)[j];
    }
    forall i, j | 0 <= i < j < |whole| ensures whole[i] != whole[j] {
      assert Folded(fold, whole)[i] != Folded(fold, whole)[j];
    }
    CardinalityCountsDistinct(part);
    CardinalityCountsDistinct(whole);
    FullSubset(Elements(part), Elements(whole));
    DistinctSameElements(part, whole);
  }

  lemma NamesAreUnique(fold: string -> string, rows: seq<RemoteAsset>)
    requires Distinct(Folded(fold, rows))
    ensures forall r, q | r in rows && q in rows && r.name == q.name :: r == q
  {
    forall r, q | r in rows && q in rows && r.name == q.name ensures r == q {
      var i :| 0 <= i < |rows| && rows[i] == r;
      var j :| 0 <= j < |rows| && rows[j] == q;
      assert Folded(fold, rows)[i] == Folded(fold, rows)[j];
    }
  }

  /** The tests the code makes, one by one. */
  ghost predicate Passes(fold: string -> string, remote: seq<RemoteAsset>, assets: seq<PlannedAsset>) {
    && |remote| == 9 && Distinct(Folded(fold, remote))
    && RemoteNames(remote) == PlannedNames(assets)
    && forall i | 0 <= i < |assets| :: Uploaded(assets)[i] in remote
  }

  lemma NameSets(remote: seq<RemoteAsset>, assets: seq<PlannedAsset>)
    requires RemoteNames(remote) == PlannedNames(assets)
    ensures forall r | r in remote :: exists q | q in Uploaded(assets) :: q.name == r.name
    ensures forall r | r in Uploaded(assets) :: exists q | q in remote :: q.name == r.name
  {
    forall r | r in remote ensures exists q | q in Uploaded(assets) :: q.name == r.name {
      assert r.name in RemoteNames(remote);
      var a :| a in assets && a.name == r.name;
      var i :| 0 <= i < |assets| && assets[i] == a;
      assert Uploaded(assets)[i].name == r.name;
    }
    forall r | r in Uploaded(assets) ensures exists q | q in remote :: q.name == r.name {
      var i :| 0 <= i < |assets| && Uploaded(assets)[i] == r;
      assert assets[i] in assets;
      assert r.name in PlannedNames(assets);
    }
  }

  lemma PassesIsExact(fold: string -> string, remote: seq<RemoteAsset>, assets: seq<PlannedAsset>)
    requires |assets| == 9 && Passes(fold, remote, assets)
    ensures ExactAssets(fold, remote, assets)
  {
    var wanted := Uploaded(assets);
    NameSets(remote, assets);
    FoldedElements(fold, wanted, remote);
    ContainedIsPermutation(fold, wanted, remote);
  }

  lemma SameRowsSameNames(remote: seq<RemoteAsset>, assets: seq<PlannedAsset>)
    requires forall r :: r in remote <==> r in Uploaded(assets)
    ensures RemoteNames(remote) == PlannedNames(assets)
  {
    forall n | n in RemoteNames(remote) ensures n in PlannedNames(assets) {
      var r :| r in remote && r.name == n;
      var i :| 0 <= i < |assets| && Uploaded(assets)[i] == r;
      assert assets[i] in assets;
    }
    forall n | n in PlannedNames(assets) ensures n in RemoteNames(remote) {
      var a :| a in assets && a.name == n;
      var i :| 0 <= i < |assets| && assets[i] == a;
      assert Uploaded(assets)[i] in remote;
    }
  }

  lemma ExactPasses(fold: string -> string, remote: seq<RemoteAsset>, assets: seq<PlannedAsset>)
    requires |assets| == 9 && ExactAssets(fold, remote, assets)
    ensures Passes(fold, remote, assets)
  {
    var wanted := Uploaded(assets);
    PermutationKeepsElements(remote, wanted);
    forall r ensures r in remote <==> r in wanted {
      assert r in remote <==> r in Elements(remote);
      assert r in wanted <==> r in Elements(wanted);
    }
    SameRowsSameNames(remote, assets);
    assert Distinct(Folded(fold, remote)) by {
      NameSets(remote, assets);
      FoldedElements(fold, remote, wanted);
    }
  }

  /** `verify_remote_assets`, for any case-folding function: accepts exactly when the remote rows are a
      permutation of the planned ones. */
  method VerifyRemoteAssets(fold: string -> string, remote: seq<RemoteAsset>, assets: seq<PlannedAsset>)
    returns (ok: bool)
    requires |assets| == 9
    ensures ok <==> ExactAssets(fold, remote, assets)
    ensures ok <==> SameRows(remote, assets) && FoldDistinct(fold, assets)
  {
    hide SameRows, FoldDistinct, ExactAssets, Passes;
    PassesIff(fold, remote, assets);
    ok := MeetsTests(fold, remote, assets);
  }

  lemma PassesIff(fold: string -> string, remote: seq<RemoteAsset>, assets: seq<PlannedAsset>)
    requires |assets| == 9
    ensures Passes(fold, remote, assets) <==> ExactAssets(fold, remote, assets)
    ensures Passes(fold, remote, assets) <==> SameRows(remote, assets) && FoldDistinct(fold, assets)
  {
    hide SameRows, FoldDistinct, ExactAssets, Passes;
    ExactIff(fold, remote, assets);
    if Passes(fold, remote, assets) { PassesIsExact(fold, remote, assets); }
    if ExactAssets(fold, remote, assets) { ExactPasses(fold, remote, assets); }
  }

  /** The tests themselves: nine rows, nine folded names, the planned names, and each row as planned. */
  method MeetsTests(fold: string -> string, remote: seq<RemoteAsset>, assets: seq<PlannedAsset>) returns (ok: bool)
    requires |assets| == 9
    ensures ok <==> Passes(fold, remote, assets)
  {
    var names := Folded(fold, remote);
    CardinalityCountsDistinct(names);
    if |remote| != 9 || |Elements(names)| != 9 { return false; }
    NamesAreUnique(fold, remote);
    var observed := map r | r in remote :: r.name := r;
    assert observed.Keys == RemoteNames(remote);
    if observed.Keys != PlannedNames(assets) { return false; }
    hide Folded;
    for i := 0 to |assets|
      invariant forall j | 0 <= j < i :: Uploaded(assets)[j] in remote
    {
      assert assets[i] in assets && assets[i].name in observed.Keys;
      var row := observed[assets[i].name];
      if row.state != "uploaded" || row.size != assets[i].size || row.digest != assets[i].digest {
        assert Uploaded(assets)[i] !in remote;
        return false;
      }
      assert row == Uploaded(assets)[i];
    }
    return true;
  }
}
