/** The eleven-gate content closure of scripts/ga/build_final_evidence_content_closure.py. */
module ContentClosure {
  import opened Collections
  import opened Sorting

  const SINGLE_GATES := {
    "validation-summary", "signed-release", "authoritative-windows", "complete-runtime-matrix", "external-otlp",
    "key-rotation", "disaster-recovery", "security-review", "vulnerability-scan"
  }
  const PUBLIC_GATES := {"public-oauth", "public-mtls"}
  const PUBLIC_ORDER := ["public-mtls", "public-oauth"]
  const GATE_COUNT := 11
  const SINGLE_FLAGS := {
    "api_artifact_origin_verified", "materialized_tree_verified", "semantic_verifier_repository_owned",
    "content_semantics_verified"
  }
  const PUBLIC_FLAGS := {
    "api_artifact_origin_verified", "both_materialized_trees_verified", "semantic_verifier_repository_owned",
    "content_semantics_verified", "cross_gate_semantics_verified"
  }
  const PUBLIC_RECEIPT_KIND := "psmatrix.public-auth-cross-gate-bundle-verification"

  datatype ApiRow = ApiRow(gate: string, verified: bool, runId: int, artifactId: int, artifact: string)

  /** `genuine` stands for the schema, kind, version and status tests, `flags` for the fields that are
      true, `contained` for the three boundary fields being false. */
  datatype Binding = Binding(
    genuine: bool, gate: string, head: string, runId: int, artifactId: int, artifact: string,
    flags: set<string>, contained: bool, tree: string, receiptKind: string, receiptSha: string)

  datatype PublicBinding = PublicBinding(
    genuine: bool, head: string, gates: set<string>, flags: set<string>, contained: bool,
    runIds: map<string, int>, artifactIds: map<string, int>, trees: map<string, string>, receiptSha: string)

  datatype Row = Row(
    gate: string, runId: int, artifact: string, artifactId: int, tree: Option<string>, receiptKind: string,
    receiptSha: string)

  function ApiGate(): ApiRow -> string { (r: ApiRow) => r.gate }

  function BindingGate(): Binding -> string { (b: Binding) => b.gate }

  // ----- API rows -----

  predicate GoodApiRow(required: seq<string>, r: ApiRow) {
    r.gate in required && r.verified && r.runId > 0 && r.artifactId > 0
  }

  ghost predicate GoodApi(required: seq<string>, rows: seq<ApiRow>) {
    && |required| == GATE_COUNT && Elements(required) == SINGLE_GATES + PUBLIC_GATES
    && |rows| == GATE_COUNT && (forall r | r in rows :: GoodApiRow(required, r)) && DistinctBy(rows, ApiGate())
    && TableBy(rows, ApiGate()).Keys == Elements(required)
  }

  lemma TableStep<T>(rows: seq<T>, key: T -> string, i: nat)
    requires i < |rows|
    ensures TableBy(rows[..i + 1], key) == TableBy(rows[..i], key)[key(rows[i]) := rows[i]]
  {
    assert rows[..i + 1][..i] == rows[..i];
  }

  lemma DistinctByStep<T>(rows: seq<T>, key: T -> string, i: nat)
    requires i < |rows|
    ensures DistinctBy(rows[..i + 1], key) <==> DistinctBy(rows[..i], key) && key(rows[i]) !in TableBy(rows[..i], key)
    ensures DistinctBy(rows, key) ==> DistinctBy(rows[..i + 1], key)
    ensures TableBy(rows[..i + 1], key) == TableBy(rows[..i], key)[key(rows[i]) := rows[i]]
  {
    var front, more := rows[..i], rows[..i + 1];
    assert more[..i] == front && more == front + [rows[i]];
    TableRows(front, key);
    hide TableBy;
    TableStep(rows, key, i);
    assert forall j | 0 <= j < i :: more[j] == front[j] && front[j] in front;
    if key(rows[i]) in TableBy(front, key) {
      var x := TableBy(front, key)[key(rows[i])];
      var j :| 0 <= j < i && front[j] == x;
      assert key(more[j]) == key(more[i]);
    }
  }

  /** `_api_rows`. */
  method ApiRows(required: seq<string>, rows: seq<ApiRow>) returns (r: Result<map<string, ApiRow>>)
    ensures r.Ok? <==> GoodApi(required, rows)
    ensures r.Ok? ==> r.value == TableBy(rows, ApiGate())
  {
    hide DistinctBy, TableBy;
    if |required| != GATE_COUNT || Elements(required) != SINGLE_GATES + PUBLIC_GATES { return Raised; }
    if |rows| != GATE_COUNT { return Raised; }
    var mapped: map<string, ApiRow> := map[];
    EmptyTable(rows, ApiGate());
    for i := 0 to |rows|
      invariant mapped == TableBy(rows[..i], ApiGate()) && DistinctBy(rows[..i], ApiGate())
      invariant forall j | 0 <= j < i :: GoodApiRow(required, rows[j])
    {
      DistinctByStep(rows, ApiGate(), i);
      if !GoodApiRow(required, rows[i]) || rows[i].gate in mapped { return Raised; }
      mapped := mapped[rows[i].gate := rows[i]];
    }
    assert rows[..|rows|] == rows;
    if mapped.Keys != Elements(required) { return Raised; }
    return Ok(mapped);
  }

  lemma EmptyTable<T>(rows: seq<T>, key: T -> string)
    ensures TableBy(rows[..0], key) == map[] && DistinctBy(rows[..0], key)
  {
  }

  // ----- bindings -----

  /** `_single_binding` accepts the binding against the API rows. */
  predicate Binds(head: string, api: map<string, ApiRow>, b: Binding) {
    && b.genuine && b.gate in SINGLE_GATES && b.head == head && b.gate in api
    && b.runId == api[b.gate].runId && b.artifactId == api[b.gate].artifactId && b.artifact == api[b.gate].artifact
    && SINGLE_FLAGS <= b.flags && b.contained
  }

  function SingleRow(a: ApiRow, b: Binding): Row {
    Row(b.gate, a.runId, a.artifact, a.artifactId, Some(b.tree), b.receiptKind, b.receiptSha)
  }

  predicate PublicBinds(head: string, api: map<string, ApiRow>, p: PublicBinding) {
    && p.genuine && p.head == head && p.gates == PUBLIC_GATES && PUBLIC_FLAGS <= p.flags && p.contained
    && forall g | g in PUBLIC_GATES ::
         && g in api && g in p.runIds && p.runIds[g] == api[g].runId
         && g in p.artifactIds && p.artifactIds[g] == api[g].artifactId
  }

  function PublicRow(a: ApiRow, p: PublicBinding, gate: string): Row {
    Row(gate, a.runId, a.artifact, a.artifactId, if gate in p.trees then Some(p.trees[gate]) else None,
        PUBLIC_RECEIPT_KIND, p.receiptSha)
  }

  ghost predicate GoodBindings(head: string, api: map<string, ApiRow>, bindings: seq<Binding>) {
    && |bindings| == 9 && (forall b | b in bindings :: Binds(head, api, b)) && DistinctBy(bindings, BindingGate())
    && TableBy(bindings, BindingGate()).Keys == SINGLE_GATES
  }

  /** The row of one gate, from the API row and the binding of that gate alone. */
  function RowFor(api: map<string, ApiRow>, bound: map<string, Binding>, p: PublicBinding, gate: string): Row
    requires gate in api && (gate in bound || gate in PUBLIC_GATES)
  {
    if gate in bound then SingleRow(api[gate], bound[gate]) else PublicRow(api[gate], p, gate)
  }

  /** The closure in contract order. */
  ghost function ClosureRows(required: seq<string>, api: map<string, ApiRow>, bound: map<string, Binding>, p: PublicBinding): seq<Row>
    requires forall g | g in required :: g in api && (g in bound || g in PUBLIC_GATES)
  {
    seq(|required|, i requires 0 <= i < |required| => RowFor(api, bound, p, required[i]))
  }

  ghost predicate AllDistinctIds(rows: seq<Row>) {
    |set r | r in rows :: r.runId| == GATE_COUNT && |set r | r in rows :: r.artifactId| == GATE_COUNT
  }

  /** When a closure exists; stated on the dictionaries, so not on the order of the inputs. */
  ghost predicate Closable(required: seq<string>, rows: seq<ApiRow>, head: string, bindings: seq<Binding>, p: PublicBinding) {
    && |head| == 40 && GoodApi(required, rows)
    && var api, bound := TableBy(rows, ApiGate()), TableBy(bindings, BindingGate());
       && GoodBindings(head, api, bindings) && PublicBinds(head, api, p)
       && Covered(required, api, bound) && AllDistinctIds(ClosureRows(required, api, bound, p))
  }

  ghost predicate Covered(required: seq<string>, api: map<string, ApiRow>, bound: map<string, Binding>) {
    forall g | g in required :: g in api && (g in bound || g in PUBLIC_GATES)
  }

  // ----- putting rows in contract order -----

  function IndexOf(required: seq<string>, gate: string): nat {
    if required == [] || required[0] == gate then 0 else 1 + IndexOf(required[1..], gate)
  }

  lemma {:induction false} IndexOfAt(required: seq<string>, i: nat)
    requires Distinct(required) && i < |required|
    ensures IndexOf(required, required[i]) == i
  {
    if i > 0 { IndexOfAt(required[1..], i - 1); }
  }

  function ContractOrder(required: seq<string>): (Row, Row) -> bool {
    (x: Row, y: Row) => IndexOf(required, x.gate) <= IndexOf(required, y.gate)
  }

  /** Rows of exactly the required gates, sorted into contract order, are the rows gate by gate. */
  lemma SortIsContractOrder(required: seq<string>, rows: seq<Row>, inOrder: seq<Row>)
    requires Distinct(required) && |inOrder| == |required| && forall i | 0 <= i < |required| :: inOrder[i].gate == required[i]
    requires multiset(rows) == multiset(inOrder)
    ensures Sort(rows, ContractOrder(required)) == inOrder
  {
    var le := ContractOrder(required);
    assert Ordering(le);
    SortSorted(rows, le);
    forall i | 0 <= i < |required| ensures IndexOf(required, inOrder[i].gate) == i { IndexOfAt(required, i); }
    SortedUnique(inOrder, Sort(rows, le), le);
  }

  lemma GatesAreDisjoint()
    ensures SINGLE_GATES !! PUBLIC_GATES && PUBLIC_ORDER[0] != PUBLIC_ORDER[1] && Elements(PUBLIC_ORDER) == PUBLIC_GATES
  {
    assert PUBLIC_ORDER[0][7] == 'm' && PUBLIC_ORDER[1][7] == 'o';
    forall g | g in SINGLE_GATES ensures g !in PUBLIC_GATES {
      assert g[0] != 'p';
    }
  }

  ghost function Singles(api: map<string, ApiRow>, bindings: seq<Binding>): seq<Row>
    requires forall b | b in bindings :: b.gate in api
  {
    seq(|bindings|, i requires 0 <= i < |bindings| => SingleRow(api[bindings[i].gate], bindings[i]))
  }

  function Publics(api: map<string, ApiRow>, p: PublicBinding): seq<Row>
    requires PUBLIC_GATES <= api.Keys
  {
    assert PUBLIC_ORDER[0] in PUBLIC_GATES && PUBLIC_ORDER[1] in PUBLIC_GATES;
    [PublicRow(api[PUBLIC_ORDER[0]], p, PUBLIC_ORDER[0]), PublicRow(api[PUBLIC_ORDER[1]], p, PUBLIC_ORDER[1])]
  }

  ghost predicate Ready(required: seq<string>, head: string, api: map<string, ApiRow>, bindings: seq<Binding>) {
    && |required| == GATE_COUNT && Elements(required) == SINGLE_GATES + PUBLIC_GATES && api.Keys == Elements(required)
    && GoodBindings(head, api, bindings)
  }

  lemma ReadyCovers(required: seq<string>, head: string, api: map<string, ApiRow>, bindings: seq<Binding>)
    requires Ready(required, head, api, bindings)
    ensures Covered(required, api, TableBy(bindings, BindingGate()))
    ensures PUBLIC_GATES <= api.Keys && forall b | b in bindings :: b.gate in api
  {
    forall g | g in required ensures g in api && (g in SINGLE_GATES || g in PUBLIC_GATES) {
      assert g in Elements(required);
    }
  }

  lemma CollectedWithin(required: seq<string>, head: string, api: map<string, ApiRow>, bindings: seq<Binding>, p: PublicBinding, x: Row)
    requires Ready(required, head, api, bindings)
    requires PUBLIC_GATES <= api.Keys && forall b | b in bindings :: b.gate in api
    requires Covered(required, api, TableBy(bindings, BindingGate()))
    requires x in Singles(api, bindings) + Publics(api, p)
    ensures x in ClosureRows(required, api, TableBy(bindings, BindingGate()), p)
  {
    var bound := TableBy(bindings, BindingGate());
    if x in Singles(api, bindings) {
      SingleIsRow(required, head, api, bindings, p, x);
    } else {
      PublicIsRow(required, head, api, bindings, p, x);
    }
    var i :| 0 <= i < |required| && required[i] == x.gate;
    assert ClosureRows(required, api, bound, p)[i] == x;
  }

  lemma SingleIsRow(required: seq<string>, head: string, api: map<string, ApiRow>, bindings: seq<Binding>, p: PublicBinding, x: Row)
    requires Ready(required, head, api, bindings)
    requires PUBLIC_GATES <= api.Keys && forall b | b in bindings :: b.gate in api
    requires x in Singles(api, bindings)
    ensures x.gate in Elements(required) && x.gate in TableBy(bindings, BindingGate())
    ensures x.gate in api && x == RowFor(api, TableBy(bindings, BindingGate()), p, x.gate)
  {
    var i :| 0 <= i < |bindings| && Singles(api, bindings)[i] == x;
    TableLookup(bindings, BindingGate(), bindings[i]);
    assert Binds(head, api, bindings[i]);
  }

  lemma PublicIsRow(required: seq<string>, head: string, api: map<string, ApiRow>, bindings: seq<Binding>, p: PublicBinding, x: Row)
    requires Ready(required, head, api, bindings)
    requires PUBLIC_GATES <= api.Keys && x in Publics(api, p)
    ensures x.gate in Elements(required) && x.gate in PUBLIC_GATES
    ensures x.gate in api && x == RowFor(api, TableBy(bindings, BindingGate()), p, x.gate)
  {
    GatesAreDisjoint();
    assert x == Publics(api, p)[0] || x == Publics(api, p)[1];
    assert x.gate in PUBLIC_GATES;
  }

  lemma CollectedDistinct(required: seq<string>, head: string, api: map<string, ApiRow>, bindings: seq<Binding>, p: PublicBinding)
    requires Ready(required, head, api, bindings)
    requires PUBLIC_GATES <= api.Keys && forall b | b in bindings :: b.gate in api
    ensures Distinct(Singles(api, bindings) + Publics(api, p))
  {
    GatesAreDisjoint();
    var rows := Singles(api, bindings) + Publics(api, p);
    assert PUBLIC_ORDER[0] in PUBLIC_GATES && PUBLIC_ORDER[1] in PUBLIC_GATES;
    hide SINGLE_GATES, PUBLIC_GATES, PUBLIC_ORDER;
    forall i | 0 <= i < |bindings| ensures rows[i].gate == BindingGate()(bindings[i]) && rows[i].gate in SINGLE_GATES {
      assert Binds(head, api, bindings[i]);
    }
    assert rows[9].gate == PUBLIC_ORDER[0] && rows[10].gate == PUBLIC_ORDER[1];
    forall i, j | 0 <= i < j < |rows| ensures rows[i].gate != rows[j].gate {
    }
  }

  lemma CollectedIsClosure(required: seq<string>, head: string, api: map<string, ApiRow>, bindings: seq<Binding>, p: PublicBinding)
    requires Ready(required, head, api, bindings)
    requires PUBLIC_GATES <= api.Keys && forall b | b in bindings :: b.gate in api
    requires Covered(required, api, TableBy(bindings, BindingGate()))
    ensures Distinct(required)
    ensures multiset(Singles(api, bindings) + Publics(api, p))
         == multiset(ClosureRows(required, api, TableBy(bindings, BindingGate()), p))
  {
    var rows := Singles(api, bindings) + Publics(api, p);
    var closure := ClosureRows(required, api, TableBy(bindings, BindingGate()), p);
    CollectedDistinct(required, head, api, bindings, p);
    forall x | x in rows ensures x in closure { CollectedWithin(required, head, api, bindings, p, x); }
    CardinalityCountsDistinct(rows);
    CardinalityCountsDistinct(closure);
    FullSubset(Elements(rows), Elements(closure));
    DistinctSameElements(rows, closure);
    CardinalityCountsDistinct(required);
    ElevenGates();
  }

  lemma ElevenGates()
    ensures |SINGLE_GATES + PUBLIC_GATES| == GATE_COUNT
  {
    GatesAreDisjoint();
    assert |PUBLIC_GATES| == 2;
    assert |SINGLE_GATES| == 9;
  }

  /** The loop over the single-gate bindings. */
  method CollectSingles(head: string, api: map<string, ApiRow>, bindings: seq<Binding>) returns (r: Result<seq<Row>>)
    ensures r.Ok? <==> GoodBindings(head, api, bindings)
    ensures r.Ok? ==> (forall b | b in bindings :: b.gate in api) && r.value == Singles(api, bindings)
  {
    hide DistinctBy, TableBy;
    if |bindings| != 9 { return Raised; }
    var rows: seq<Row> := [];
    ghost var bound: map<string, Binding> := map[];
    var observed: set<string> := {};
    EmptyTable(bindings, BindingGate());
    for i := 0 to |bindings|
      invariant bound == TableBy(bindings[..i], BindingGate()) && DistinctBy(bindings[..i], BindingGate())
      invariant observed == bound.Keys && |rows| == i
      invariant forall j | 0 <= j < i ::
        Binds(head, api, bindings[j]) && rows[j] == SingleRow(api[bindings[j].gate], bindings[j])
    {
      var b := bindings[i];
      DistinctByStep(bindings, BindingGate(), i);
      if !Binds(head, api, b) || b.gate in observed { return Raised; }
      observed := observed + {b.gate};
      bound := bound[b.gate := b];
      rows := rows + [SingleRow(api[b.gate], b)];
    }
    assert bindings[..|bindings|] == bindings;
    if observed != SINGLE_GATES { return Raised; }
    return Ok(rows);
  }

  /** `build`: succeeds exactly when a closure exists, with the rows in contract order. */
  method Build(required: seq<string>, apiRows: seq<ApiRow>, head: string, bindings: seq<Binding>, p: PublicBinding)
    returns (r: Result<seq<Row>>)
    ensures r.Ok? <==> Closable(required, apiRows, head, bindings, p)
    ensures r.Ok? ==> r.value == ClosureRows(required, TableBy(apiRows, ApiGate()), TableBy(bindings, BindingGate()), p)
  {
    hide GoodBindings, Singles, RowFor, SINGLE_GATES;
    var api := ApiRows(required, apiRows);
    if api.Raised? || |head| != 40 { return Raised; }
    var table := api.value;
    var singles := CollectSingles(head, table, bindings);
    if singles.Raised? { return Raised; }
    ReadyCovers(required, head, table, bindings);
    if !PublicBinds(head, table, p) { return Raised; }
    var collected := singles.value + Publics(table, p);
    CollectedIsClosure(required, head, table, bindings, p);
    ghost var closure := ClosureRows(required, table, TableBy(bindings, BindingGate()), p);
    var rows := Sort(collected, ContractOrder(required));
    assert rows == closure by {
      RowGates(required, table, TableBy(bindings, BindingGate()), p, bindings, head);
      SortIsContractOrder(required, collected, closure);
    }
    if |set x | x in rows :: x.runId| != GATE_COUNT || |set x | x in rows :: x.artifactId| != GATE_COUNT {
      return Raised;
    }
    return Ok(rows);
  }

  /** Every row of the closure is about its own gate and carries the API's run and artifact. */
  lemma RowGates(required: seq<string>, api: map<string, ApiRow>, bound: map<string, Binding>, p: PublicBinding,
                 bindings: seq<Binding>, head: string)
    requires Covered(required, api, bound) && bound == TableBy(bindings, BindingGate()) && GoodBindings(head, api, bindings)
    ensures forall i | 0 <= i < |required| ::
      var row := ClosureRows(required, api, bound, p)[i];
      && row.gate == required[i]
      && (row.runId, row.artifactId, row.artifact)
         == (api[required[i]].runId, api[required[i]].artifactId, api[required[i]].artifact)
  {
    TableRows(bindings, BindingGate());
  }

  /** What row `i` of a closure says, from the listed rows and bindings: its gate is the contract's, its
      run and artifact those of that gate's verified API row, and its tree and receipt those of that
      gate's own binding, or of the shared public one. */
  lemma ClosureMeans(required: seq<string>, apiRows: seq<ApiRow>, head: string, bindings: seq<Binding>, p: PublicBinding,
                     i: nat)
    requires Closable(required, apiRows, head, bindings, p) && i < |required|
    ensures var rows := ClosureRows(required, TableBy(apiRows, ApiGate()), TableBy(bindings, BindingGate()), p);
            && |rows| == GATE_COUNT && rows[i].gate == required[i]
            && (exists a | a in apiRows ::
                  && a.gate == required[i] && a.verified && a.artifact == rows[i].artifact
                  && a.runId == rows[i].runId > 0 && a.artifactId == rows[i].artifactId > 0)
            && if required[i] in PUBLIC_GATES then
                 && rows[i].tree == (if required[i] in p.trees then Some(p.trees[required[i]]) else None)
                 && rows[i].receiptKind == "psmatrix.public-auth-cross-gate-bundle-verification"
                 && rows[i].receiptSha == p.receiptSha && p.genuine && p.head == head && p.contained
                 && {"api_artifact_origin_verified", "both_materialized_trees_verified",
                     "semantic_verifier_repository_owned", "content_semantics_verified",
                     "cross_gate_semantics_verified"} <= p.flags
               else
                 exists b | b in bindings ::
                   && b.gate == required[i] && b.genuine && b.head == head && b.contained
                   && (b.runId, b.artifactId, b.artifact) == (rows[i].runId, rows[i].artifactId, rows[i].artifact)
                   && {"api_artifact_origin_verified", "materialized_tree_verified",
                       "semantic_verifier_repository_owned", "content_semantics_verified"} <= b.flags
                   && rows[i].tree == Some(b.tree) && rows[i].receiptKind == b.receiptKind
                   && rows[i].receiptSha == b.receiptSha
  {
    hide AllDistinctIds;
    var api, bound := TableBy(apiRows, ApiGate()), TableBy(bindings, BindingGate());
    TableRows(apiRows, ApiGate());
    TableRows(bindings, BindingGate());
    GatesAreDisjoint();
    hide TableBy, SINGLE_GATES;
    var gate := required[i];
    assert api[gate] in apiRows && ApiGate()(api[gate]) == gate;
    if gate !in PUBLIC_GATES {
      assert bound[gate] in bindings && BindingGate()(bound[gate]) == gate;
      assert Binds(head, api, bound[gate]);
    }
  }

  /** No run and no artifact serves two rows. */
  lemma ClosureIdsDiffer(required: seq<string>, apiRows: seq<ApiRow>, head: string, bindings: seq<Binding>, p: PublicBinding,
                         i: nat, j: nat)
    requires Closable(required, apiRows, head, bindings, p) && i < j < |required|
    ensures var rows := ClosureRows(required, TableBy(apiRows, ApiGate()), TableBy(bindings, BindingGate()), p);
            rows[i].runId != rows[j].runId && rows[i].artifactId != rows[j].artifactId
  {
    var rows := ClosureRows(required, TableBy(apiRows, ApiGate()), TableBy(bindings, BindingGate()), p);
    IdsDiffer(rows);
  }

  lemma IdsDiffer(rows: seq<Row>)
    requires AllDistinctIds(rows) && |rows| == GATE_COUNT
    ensures forall i, j :: 0 <= i < j < |rows| ==> rows[i].runId != rows[j].runId && rows[i].artifactId != rows[j].artifactId
  {
    var runs := seq(|rows|, i requires 0 <= i < |rows| => rows[i].runId);
    var artifacts := seq(|rows|, i requires 0 <= i < |rows| => rows[i].artifactId);
    CardinalityCountsDistinct(runs);
    CardinalityCountsDistinct(artifacts);
    assert Elements(runs) == set r | r in rows :: r.runId by {
      forall r | r in rows ensures r.runId in runs {
        var i :| 0 <= i < |rows| && rows[i] == r;
        assert runs[i] == r.runId;
      }
    }
    assert Elements(artifacts) == set r | r in rows :: r.artifactId by {
      forall r | r in rows ensures r.artifactId in artifacts {
        var i :| 0 <= i < |rows| && rows[i] == r;
        assert artifacts[i] == r.artifactId;
      }
    }
    forall i, j | 0 <= i < j < |rows| ensures rows[i].runId != rows[j].runId && rows[i].artifactId != rows[j].artifactId {
      assert runs[i] != runs[j] && artifacts[i] != artifacts[j];
    }
  }

  lemma SameRows<T>(a: seq<T>, b: seq<T>)
    requires multiset(a) == multiset(b)
    ensures |a| == |b| && forall x :: x in a <==> x in b
  {
    PermutationKeepsElements(a, b);
    forall x ensures x in a <==> x in b { assert x in Elements(a) <==> x in Elements(b); }
  }

  /** The closure is the same for every order of the API rows and of the bindings. */
  lemma ClosureIgnoresOrder(required: seq<string>, rowsA: seq<ApiRow>, rowsB: seq<ApiRow>, head: string,
                            a: seq<Binding>, b: seq<Binding>, p: PublicBinding)
    requires multiset(rowsA) == multiset(rowsB) && multiset(a) == multiset(b)
    requires Closable(required, rowsA, head, a, p)
    ensures Closable(required, rowsB, head, b, p)
    ensures ClosureRows(required, TableBy(rowsA, ApiGate()), TableBy(a, BindingGate()), p)
         == ClosureRows(required, TableBy(rowsB, ApiGate()), TableBy(b, BindingGate()), p)
  {
    hide Binds, PublicBinds, AllDistinctIds, GoodApiRow, RowFor;
    SameRows(rowsA, rowsB);
    SameRows(a, b);
    TableForgetsOrder(rowsA, rowsB, ApiGate());
    TableForgetsOrder(a, b, BindingGate());
  }
}
