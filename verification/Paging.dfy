/** The three paging loops over the GitHub API: one driven by short pages, two by `total_count`. */
module Paging {
  import opened Collections

  const PER_PAGE := 100
  const PAGE_LIMIT := 100

  function Min(a: nat, b: nat): nat {
    if a < b then a else b
  }

  /** What a server holding `rows` answers for a page, counted from one. */
  function PageOf<T>(rows: seq<T>, page: nat): seq<T>
    requires page >= 1
  {
    rows[Min((page - 1) * PER_PAGE, |rows|)..Min(page * PER_PAGE, |rows|)]
  }

  /** `_paged_list`: stops at the first short page, gives up after a hundred full ones. `faulted`
      says that a request raised. */
  method PagedList<T>(rows: seq<T>) returns (r: Result<seq<T>>, requests: nat, faulted: bool)
    ensures requests <= 100
    ensures r.Ok? ==> r.value == rows && |rows| < PER_PAGE * PAGE_LIMIT == 10_000
    ensures !faulted ==> (r.Ok? <==> |rows| < PER_PAGE * PAGE_LIMIT)
  {
    var collected: seq<T> := [];
    var page := 1;
    requests, faulted := 0, false;
    while true
      invariant 1 <= page <= PAGE_LIMIT && requests == page - 1
      invariant (page - 1) * PER_PAGE <= |rows|
      invariant collected == rows[..(page - 1) * PER_PAGE]
      decreases PAGE_LIMIT - page
    {
      requests := requests + 1;
      faulted := *;
      if faulted { return Raised, requests, true; }
      var value := PageOf(rows, page);
      collected := collected + value;
      if |value| < PER_PAGE { return Ok(collected), requests, false; }
      page := page + 1;
      if page > PAGE_LIMIT { return Raised, requests, false; }
    }
  }

  /** One answer of a counted listing; `Failed` is a request that raised or had the wrong shape. */
  datatype Response<+T> = Failed | Page(total: int, rows: seq<T>)

  function PageCount(total: nat): (n: nat)
    ensures n >= 1 && (n - 1) * PER_PAGE <= total <= n * PER_PAGE
  {
    if total == 0 then 1 else (total + PER_PAGE - 1) / PER_PAGE
  }

  ghost predicate Steady<T>(server: nat -> Response<T>, total: int, pages: nat) {
    forall p | 1 <= p <= pages :: server(p).Page? && server(p).total == total
  }

  /** The rows of pages one to `pages`, in order. */
  ghost function Joined<T>(server: nat -> Response<T>, pages: nat): seq<T>
    requires forall p | 1 <= p <= pages :: server(p).Page?
  {
    if pages == 0 then [] else Joined(server, pages - 1) + server(pages).rows
  }

  /** What a counted listing accepts: every page present, one total throughout, and as many rows as it. */
  ghost predicate Accepts<T>(server: nat -> Response<T>, rows: seq<T>) {
    && server(1).Page? && server(1).total >= 0
    && Steady(server, server(1).total, PageCount(server(1).total))
    && rows == Joined(server, PageCount(server(1).total))
    && |rows| == server(1).total
  }

  /** `_paged_listing` (and the paging part of `_collect_workflow_runs`), against any server. */
  method PagedListing<T>(server: nat -> Response<T>) returns (r: Result<seq<T>>)
    ensures r.Ok? ==> Accepts(server, r.value)
    ensures r.Raised? ==> forall rows: seq<T> :: !Accepts(server, rows)
  {
    var first := server(1);
    if first.Failed? || first.total < 0 { return Raised; }
    var total := first.total;
    var collected := first.rows;
    assert collected == Joined(server, 0) + server(1).rows;
    var pages := PageCount(total);
    for page := 2 to pages + 1
      invariant Steady(server, total, page - 1)
      invariant collected == Joined(server, page - 1)
    {
      var value := server(page);
      if value.Failed? || value.total != total { return Raised; }
      collected := collected + value.rows;
    }
    if |collected| != total { return Raised; }
    return Ok(collected);
  }

  /** A server that holds `rows` still while they are paged. */
  ghost predicate Serves<T>(server: nat -> Response<T>, rows: seq<T>) {
    forall p | p >= 1 :: server(p) == Page(|rows|, PageOf(rows, p))
  }

  lemma {:induction false} JoinedPrefix<T>(server: nat -> Response<T>, rows: seq<T>, pages: nat)
    requires Serves(server, rows)
    ensures Joined(server, pages) == rows[..Min(pages * PER_PAGE, |rows|)]
  {
    if pages > 0 {
      JoinedPrefix(server, rows, pages - 1);
      assert rows[..Min(pages * PER_PAGE, |rows|)]
          == rows[..Min((pages - 1) * PER_PAGE, |rows|)] + PageOf(rows, pages);
    }
  }

  /** Against a fixed server a counted listing is accepted and is exactly the server's sequence. */
  lemma FixedServer<T>(server: nat -> Response<T>, rows: seq<T>)
    requires Serves(server, rows)
    ensures Accepts(server, rows)
    ensures forall other: seq<T> | Accepts(server, other) :: other == rows
  {
    assert server(1) == Page(|rows|, PageOf(rows, 1));
    JoinedPrefix(server, rows, PageCount(|rows|));
    assert rows[..|rows|] == rows;
  }

  /** A server that may reorder its rows between requests but whose set of rows, as large as the
      total it reports, stays the same. */
  ghost predicate Reorders<T>(server: nat -> Response<T>, runs: set<T>) {
    forall p | p >= 1 && server(p).Page? :: server(p).total == |runs| && Elements(server(p).rows) <= runs
  }

  lemma {:induction false} JoinedWithin<T>(server: nat -> Response<T>, runs: set<T>, pages: nat)
    requires Reorders(server, runs) && forall p | 1 <= p <= pages :: server(p).Page?
    ensures Elements(Joined(server, pages)) <= runs
  {
    if pages > 0 {
      JoinedWithin(server, runs, pages - 1);
      assert Elements(server(pages).rows) <= runs;
    }
  }

  /** Under reordering, an accepted listing is the whole set exactly when it repeats nothing. */
  lemma ReorderedListing<T>(server: nat -> Response<T>, runs: set<T>, rows: seq<T>)
    requires Reorders(server, runs) && Accepts(server, rows)
    ensures Elements(rows) == runs <==> Distinct(rows)
  {
    JoinedWithin(server, runs, PageCount(server(1).total));
    CardinalityCountsDistinct(rows);
    if Distinct(rows) { FullSubset(Elements(rows), runs); }
  }

  datatype RunRow = RunRow(id: int, conclusion: string)

  /** `_collect_workflow_runs`: the counted listing plus the test that all ids are positive and unique. */
  method CollectWorkflowRuns(server: nat -> Response<RunRow>) returns (r: Result<seq<RunRow>>)
    ensures r.Ok? <==> exists rows :: Accepts(server, rows) && GoodIds(rows)
    ensures r.Ok? ==> Accepts(server, r.value) && GoodIds(r.value)
    ensures r.Ok? ==>
      && (forall i | 0 <= i < |r.value| :: r.value[i].id > 0)
      && (forall i, j :: 0 <= i < j < |r.value| ==> r.value[i].id != r.value[j].id)
  {
    var listing := PagedListing(server);
    if listing.Raised? { return Raised; }
    var runs := listing.value;
    assert forall rows | Accepts(server, rows) :: rows == runs;
    var ids := seq(|runs|, i requires 0 <= i < |runs| => runs[i].id);
    assert ids == Ids(runs);
    CardinalityCountsDistinct(ids);
    if (exists i | 0 <= i < |ids| :: ids[i] <= 0) || |Elements(ids)| != |ids| { return Raised; }
    assert forall i | 0 <= i < |runs| :: ids[i] == runs[i].id;
    assert GoodIds(runs);
    return Ok(runs);
  }

  ghost function Ids(rows: seq<RunRow>): seq<int> {
    seq(|rows|, i requires 0 <= i < |rows| => rows[i].id)
  }

  ghost predicate GoodIds(rows: seq<RunRow>) {
    (forall i | 0 <= i < |rows| :: rows[i].id > 0) && Distinct(Ids(rows))
  }

  /** Whatever order the server used, runs accepted by `_collect_workflow_runs` are exactly its set. */
  lemma CollectedRunsAreTheSet(server: nat -> Response<RunRow>, runs: set<RunRow>, rows: seq<RunRow>)
    requires Reorders(server, runs) && Accepts(server, rows) && GoodIds(rows)
    ensures Elements(rows) == runs && |rows| == |runs|
  {
    forall i, j | 0 <= i < j < |rows| ensures rows[i] != rows[j] {
      assert Ids(rows)[i] != Ids(rows)[j];
    }
    ReorderedListing(server, runs, rows);
    CardinalityCountsDistinct(rows);
  }

  function Upto(n: nat): seq<int> {
    seq(n, i => i)
  }

  function DriftingPage(p: nat): Response<int> {
    if p == 1 then Page(101, Upto(100)) else Page(101, [0])
  }

  lemma DriftingPageReorders()
    ensures Reorders(DriftingPage, Elements(Upto(101)))
  {
    CardinalityCountsDistinct(Upto(101));
    forall p | p >= 1 ensures Elements(DriftingPage(p).rows) <= Elements(Upto(101)) {
      forall x | x in DriftingPage(p).rows ensures x in Upto(101) {
        assert Upto(101)[x] == x;
      }
    }
  }

  /** Without the id test (`_paged_listing`) a reordering server can repeat one row and hide another. */
  lemma ListingMayMissARow()
    ensures Reorders(DriftingPage, Elements(Upto(101)))
    ensures Accepts(DriftingPage, Upto(100) + [0])
    ensures 100 in Elements(Upto(101)) && 100 !in Upto(100) + [0]
  {
    DriftingPageReorders();
    assert Upto(101)[100] == 100;
    assert PageCount(101) == 2;
    assert Joined(DriftingPage, 0) + DriftingPage(1).rows == Upto(100);
    assert Joined(DriftingPage, 2) == Joined(DriftingPage, 1) + [0];
  }
}
