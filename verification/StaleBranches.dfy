/** Which branches and pull requests count as stale release work, and the repository-owned verifier
    (scripts/ga/verify_stale_release_work_cleanup.py) that decides whether any are left. */
module StaleBranches {
  import opened Collections
  import opened CleanupRecords
  import opened Sorting

  const REPOSITORY := "Naveax/PSMatrix"
  const STALE_PREFIXES := ["prod/", "ops/", "cleanup/", "work/", "agent/", "final/2.0.0-"]
  const ALLOWED_BRANCHES := {
    "main",
    "final/2.0.0-production-control-plane-publication-anchor",
    "final/2.0.0-verification-hardening-publication-anchor",
    "final/2.0.0-ga-publication-anchor"
  }

  predicate IsStale(name: string) {
    name !in ALLOWED_BRANCHES && exists i | 0 <= i < |STALE_PREFIXES| :: STALE_PREFIXES[i] <= name
  }

  predicate IsAnchor(name: string) {
    name in {"main", "final/2.0.0-production-control-plane-publication-anchor",
             "final/2.0.0-verification-hardening-publication-anchor", "final/2.0.0-ga-publication-anchor"}
  }

  /** Names cleanup must leave alone, spelled out. */
  predicate IsSpared(name: string) {
    IsAnchor(name) ||
    !("prod/" <= name || "ops/" <= name || "cleanup/" <= name || "work/" <= name || "agent/" <= name
      || "final/2.0.0-" <= name)
  }

  lemma StaleIff(name: string)
    ensures IsStale(name) <==> !IsSpared(name)
  {
    assert STALE_PREFIXES[0] == "prod/" && STALE_PREFIXES[1] == "ops/" && STALE_PREFIXES[2] == "cleanup/";
    assert STALE_PREFIXES[3] == "work/" && STALE_PREFIXES[4] == "agent/" && STALE_PREFIXES[5] == "final/2.0.0-";
  }

  predicate IsSha40(sha: string) {
    |sha| == 40 && forall i | 0 <= i < 40 :: '0' <= sha[i] <= '9' || 'a' <= sha[i] <= 'f'
  }

  lemma ShaIff(sha: string)
    ensures IsSha40(sha) <==> |sha| == 40 && forall c | c in sha :: c in "0123456789abcdef"
  {
    HexDigits();
    if IsSha40(sha) {
      forall c | c in sha ensures c in "0123456789abcdef" {
        var i :| 0 <= i < |sha| && sha[i] == c;
      }
    }
    if |sha| == 40 && forall c | c in sha :: c in "0123456789abcdef" {
      forall i | 0 <= i < 40 ensures '0' <= sha[i] <= '9' || 'a' <= sha[i] <= 'f' { assert sha[i] in sha; }
    }
  }

  lemma HexDigits()
    ensures forall c: char :: c in "0123456789abcdef" <==> '0' <= c <= '9' || 'a' <= c <= 'f'
  {
    var hex := "0123456789abcdef";
    forall c: char | '0' <= c <= '9' ensures c in hex { assert hex[c as int - '0' as int] == c; }
    forall c: char | 'a' <= c <= 'f' ensures c in hex { assert hex[c as int - 'a' as int + 10] == c; }
  }

  predicate GoodPull(row: PullRow) {
    row.number > 0 && row.open && row.head != ""
  }

  lemma GoodPullIff(row: PullRow)
    ensures GoodPull(row) <==> row.number > 0 && row.open && |row.head| > 0
  {
  }

  function Numbers(pulls: seq<PullRow>): seq<int> {
    seq(|pulls|, i requires 0 <= i < |pulls| => pulls[i].number)
  }

  /** `verifier.verify`; `eligible` is its judgement of the two release receipts. */
  function Verify(eligible: bool, branches: seq<string>, pulls: seq<PullRow>): (r: Result<Document>)
    ensures r.Ok? <==>
      && eligible && Distinct(branches) && Distinct(Numbers(pulls)) && (forall p | p in pulls :: GoodPull(p))
      && (forall b | b in branches :: !IsStale(b)) && (forall p | p in pulls :: !IsStale(p.head))
    ensures r.Ok? ==> r.value == VerificationReceipt(|branches|, |pulls|)
  {
    CardinalityCountsDistinct(branches);
    CardinalityCountsDistinct(Numbers(pulls));
    if && eligible
       && |Elements(branches)| == |branches| && (forall b | b in branches :: !IsStale(b))
       && |Elements(Numbers(pulls))| == |pulls|
       && (forall p | p in pulls :: GoodPull(p) && !IsStale(p.head))
    then Ok(VerificationReceipt(|branches|, |pulls|))
    else Raised
  }

  function ByNumber(): (PullRow, PullRow) -> bool {
    (p: PullRow, q: PullRow) => p.number <= q.number
  }

  /** Listings without malformed or repeated rows. */
  ghost predicate WellFormed(branches: seq<string>, pulls: seq<PullRow>) {
    Distinct(branches) && "" !in branches && GoodPulls(pulls)
  }

  ghost predicate GoodPulls(pulls: seq<PullRow>) {
    (forall p | p in pulls :: GoodPull(p)) && Distinct(Numbers(pulls))
  }

  /** `_collect_stale`: exactly the stale branches in code-point order and exactly the stale pull
      requests by number; raises exactly on a malformed or repeated row. */
  method CollectStale(branches: seq<string>, pulls: seq<PullRow>)
    returns (r: Result<(seq<string>, seq<PullRow>)>)
    ensures r.Ok? <==> WellFormed(branches, pulls)
    ensures r.Ok? ==>
      && Distinct(r.value.0) && Sorted(r.value.0, LexLe)
      && (forall b :: b in r.value.0 <==> b in branches && IsStale(b))
      && Distinct(Numbers(r.value.1)) && Sorted(r.value.1, ByNumber())
      && (forall p :: p in r.value.1 <==> p in pulls && IsStale(p.head))
  {
    var stale: seq<string> := [];
    for i := 0 to |branches|
      invariant Distinct(branches[..i]) && Distinct(stale) && "" !in branches[..i]
      invariant forall b :: b in stale <==> b in branches[..i] && IsStale(b)
    {
      var name := branches[i];
      if name == "" || name in branches[..i] { return Raised; }
      if IsStale(name) { stale := stale + [name]; }
      assert branches[..i + 1] == branches[..i] + [name];
    }
    assert branches[..|branches|] == branches;
    var stalePulls := CollectStalePulls(pulls);
    if stalePulls.Raised? { return Raised; }
    var sorted := Sort(stale, LexLe);
    LexOrders();
    SortSorted(stale, LexLe);
    PermutationKeepsElements(stale, sorted);
    assert forall b :: b in sorted <==> b in Elements(sorted);
    assert forall b :: b in stale <==> b in Elements(stale);
    SortByNumber(stalePulls.value);
    return Ok((sorted, Sort(stalePulls.value, ByNumber())));
  }

  lemma DistinctNumbers(rows: seq<PullRow>)
    ensures Distinct(Numbers(rows)) <==> NoTies(rows, ByNumber())
    ensures Distinct(Numbers(rows)) ==> Distinct(rows)
  {
    forall i, j | 0 <= i < j < |rows|
      ensures Numbers(rows)[i] != Numbers(rows)[j] <==> !(ByNumber()(rows[i], rows[j]) && ByNumber()(rows[j], rows[i]))
    {
    }
    assert forall i | 0 <= i < |rows| :: Numbers(rows)[i] == rows[i].number;
  }

  lemma SortByNumber(rows: seq<PullRow>)
    requires Distinct(Numbers(rows))
    ensures var sorted := Sort(rows, ByNumber());
            Sorted(sorted, ByNumber()) && Distinct(Numbers(sorted)) && forall p :: p in sorted <==> p in rows
  {
    hide Distinct, NoTies, Sort, Numbers;
    var sorted := Sort(rows, ByNumber());
    SortSorted(rows, ByNumber());
    forall p ensures p in sorted <==> p in rows { assert p in multiset(sorted) <==> p in multiset(rows); }
    DistinctNumbers(rows);
    DistinctNumbers(sorted);
    NoTiesPermutation(rows, sorted, ByNumber());
  }

  lemma OneMoreNumber(pulls: seq<PullRow>, stale: seq<PullRow>, row: PullRow)
    requires Distinct(Numbers(stale)) && (forall p | p in stale :: p in pulls)
    requires row.number !in Numbers(pulls)
    ensures Distinct(Numbers(stale + [row]))
  {
    assert Numbers(stale + [row]) == Numbers(stale) + [row.number];
    forall k | 0 <= k < |stale| ensures stale[k].number != row.number {
      assert stale[k] in pulls;
      var j :| 0 <= j < |pulls| && pulls[j] == stale[k];
      assert Numbers(pulls)[j] in Numbers(pulls);
    }
  }

  method CollectStalePulls(pulls: seq<PullRow>) returns (r: Result<seq<PullRow>>)
    ensures r.Ok? <==> GoodPulls(pulls)
    ensures r.Ok? ==> Distinct(Numbers(r.value)) && forall p :: p in r.value <==> p in pulls && IsStale(p.head)
  {
    hide IsStale, GoodPulls;
    var stale: seq<PullRow> := [];
    var seen: seq<int> := [];
    NoPulls();
    for i := 0 to |pulls|
      invariant GoodPulls(pulls[..i]) && seen == Numbers(pulls[..i])
      invariant Distinct(Numbers(stale)) && forall p :: p in stale <==> p in pulls[..i] && IsStale(p.head)
    {
      var row := pulls[i];
      GoodPullsStep(pulls, i);
      if !GoodPull(row) || row.number in seen { return Raised; }
      if IsStale(row.head) {
        OneMoreNumber(pulls[..i], stale, row);
        stale := stale + [row];
      }
      seen := seen + [row.number];
      assert pulls[..i + 1] == pulls[..i] + [row];
    }
    assert pulls[..|pulls|] == pulls;
    return Ok(stale);
  }

  lemma NoPulls()
    ensures GoodPulls([]) && Numbers([]) == []
  {
  }

  lemma GoodPullsStep(pulls: seq<PullRow>, i: nat)
    requires i < |pulls| && GoodPulls(pulls[..i])
    ensures GoodPulls(pulls[..i + 1]) <==> GoodPull(pulls[i]) && pulls[i].number !in Numbers(pulls[..i])
    ensures GoodPulls(pulls) ==> GoodPulls(pulls[..i + 1])
    ensures Numbers(pulls[..i + 1]) == Numbers(pulls[..i]) + [pulls[i].number]
  {
    var front, more := pulls[..i], pulls[..i + 1];
    assert more == front + [pulls[i]];
    assert Numbers(more) == Numbers(front) + [pulls[i].number];
    assert Numbers(more) == Numbers(pulls)[..i + 1];
    if pulls[i].number in Numbers(front) {
      var j :| 0 <= j < i && Numbers(front)[j] == pulls[i].number;
      assert Numbers(more)[j] == Numbers(more)[i];
    }
    assert forall p | p in more :: p in pulls;
  }
}
