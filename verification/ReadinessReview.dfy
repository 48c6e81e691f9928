/** The consumer side of the readiness summary: `_validate_readiness_contract` and `_validate_summary`
    of scripts/ga/build_final_validation_evidence_chain_plan.py, and its agreement with the producer. */
module ReadinessReview {
  import opened Collections
  import opened Readiness

  // ----- the contract -----

  ghost predicate GoodRequired(env: Environment) {
    (forall k | k in Required(env) :: k.1 != "") && Distinct(Required(env))
  }

  function TotalChecks(envs: seq<Environment>): nat {
    if envs == [] then 0 else TotalChecks(envs[..|envs| - 1]) + |Required(envs[|envs| - 1])|
  }

  function Producers(envs: seq<Environment>): set<string> {
    set env | env in envs :: env.producer
  }

  ghost predicate GoodEnvironment(env: Environment) {
    env.name != "" && WORKFLOW_PREFIX <= env.producer && GoodRequired(env)
  }

  ghost predicate GoodEnvironments(envs: seq<Environment>) {
    DistinctNames(envs) && forall i | 0 <= i < |envs| :: GoodEnvironment(envs[i])
  }

  lemma GoodEnvironmentsStep(envs: seq<Environment>, i: nat)
    requires i < |envs|
    ensures GoodEnvironments(envs[..i + 1]) <==>
      GoodEnvironments(envs[..i]) && envs[i].name !in EnvironmentNames(envs[..i]) && GoodEnvironment(envs[i])
    ensures GoodEnvironments(envs) ==> GoodEnvironments(envs[..i + 1])
  {
    hide GoodEnvironment;
    var front, more := envs[..i], envs[..i + 1];
    assert forall j | 0 <= j < i :: more[j] == front[j] && front[j] in front;
    assert more[i] == envs[i];
    if envs[i].name in EnvironmentNames(front) {
      var env :| env in front && env.name == envs[i].name;
      var j :| 0 <= j < i && front[j] == env;
      assert more[j].name == more[i].name;
    }
  }

  ghost predicate GoodContract(c: Contract) {
    && c.finalReleaseCommit == EXPECTED_FINAL_RELEASE_COMMIT && |c.environments| == ENVIRONMENT_COUNT
    && GoodEnvironments(c.environments)
    && TotalChecks(c.environments) == CHECK_COUNT && |Producers(c.environments)| == PRODUCER_COUNT
    && c.summaryContractHolds
  }

  /** The environments by name. */
  ghost predicate Tables(envs: seq<Environment>, table: map<string, Environment>) {
    && table.Keys == EnvironmentNames(envs)
    && forall i | 0 <= i < |envs| :: envs[i].name in table && table[envs[i].name] == envs[i]
  }

  lemma ContractTally(envs: seq<Environment>, i: nat)
    requires i < |envs|
    ensures TotalChecks(envs[..i + 1]) == TotalChecks(envs[..i]) + |Required(envs[i])|
    ensures Producers(envs[..i + 1]) == Producers(envs[..i]) + {envs[i].producer}
  {
    assert envs[..i + 1][..i] == envs[..i] && envs[..i + 1] == envs[..i] + [envs[i]];
  }

  lemma GoodEnvironmentParts(env: Environment)
    ensures GoodEnvironment(env) <==> env.name != "" && WORKFLOW_PREFIX <= env.producer && GoodRequired(env)
  {
  }

  method ValidateContract(c: Contract) returns (r: Result<map<string, Environment>>)
    ensures r.Ok? <==> GoodContract(c)
    ensures r.Ok? ==> Tables(c.environments, r.value)
  {
    hide GoodEnvironments, Tables;
    var envs := c.environments;
    if c.finalReleaseCommit != EXPECTED_FINAL_RELEASE_COMMIT || |envs| != ENVIRONMENT_COUNT { return Raised; }
    var rows: map<string, Environment> := map[];
    var total := 0;
    var producers: set<string> := {};
    NoEnvironments();
    for i := 0 to |envs|
      invariant GoodEnvironments(envs[..i]) && Tables(envs[..i], rows)
      invariant total == TotalChecks(envs[..i]) && producers == Producers(envs[..i])
    {
      hide GoodEnvironment, EnvironmentNames, TotalChecks, Producers, Required;
      var env := envs[i];
      assert envs[..i + 1] == envs[..i] + [env];
      GoodEnvironmentsStep(envs, i);
      TablesExtend(envs[..i], rows, env);
      ContractTally(envs, i);
      GoodEnvironmentParts(env);
      if env.name == "" || env.name in rows || !(WORKFLOW_PREFIX <= env.producer) { return Raised; }
      var good := CheckRequired(env);
      if !good { return Raised; }
      rows := rows[env.name := env];
      total := total + |Required(env)|;
      producers := producers + {env.producer};
    }
    assert envs[..|envs|] == envs;
    if total != CHECK_COUNT || |producers| != PRODUCER_COUNT || !c.summaryContractHolds { return Raised; }
    return Ok(rows);
  }

  /** `_required_checks`. */
  method CheckRequired(env: Environment) returns (ok: bool)
    ensures ok <==> GoodRequired(env)
  {
    var keys := Required(env);
    CardinalityCountsDistinct(keys);
    ok := !(exists k | k in keys :: k.1 == "") && |keys| == |Elements(keys)|;
  }

  lemma NoEnvironments()
    ensures GoodEnvironments([]) && Tables([], map[])
  {
  }

  lemma TablesExtend(envs: seq<Environment>, table: map<string, Environment>, env: Environment)
    requires Tables(envs, table)
    ensures table.Keys == EnvironmentNames(envs)
    ensures env.name !in table ==> Tables(envs + [env], table[env.name := env])
  {
    assert EnvironmentNames(envs + [env]) == EnvironmentNames(envs) + {env.name};
    assert forall i | 0 <= i < |envs| :: envs[i] in envs;
  }

  /** An accepted contract, part by part. */
  lemma AcceptedContractMeans(c: Contract)
    requires GoodContract(c)
    ensures c.finalReleaseCommit == "02cef95d40cf524ce00f9d917188343dc49e6f2c" && |c.environments| == 12
    ensures forall i, j :: 0 <= i < j < 12 ==> c.environments[i].name != c.environments[j].name
    ensures |set env | env in c.environments :: env.producer| == 11
    ensures |Cells(SecretLists(c.environments))| + |Cells(VarLists(c.environments))| == 41
    ensures forall i | 0 <= i < 12 ::
      var env := c.environments[i];
      && env.name != "" && ".github/workflows/" <= env.producer && "" !in env.secrets && "" !in env.vars
      && Distinct(env.secrets) && Distinct(env.vars)
  {
    ChecksCount(c.environments);
    hide TotalChecks, Cells;
    forall i | 0 <= i < 12
      ensures var env := c.environments[i];
              "" !in env.secrets && "" !in env.vars && Distinct(env.secrets) && Distinct(env.vars)
    {
      GoodRequiredMeans(c.environments[i]);
    }
  }

  lemma GoodRequiredMeans(env: Environment)
    requires GoodRequired(env)
    ensures "" !in env.secrets && "" !in env.vars && Distinct(env.secrets) && Distinct(env.vars)
  {
    hide Required;
    RequiredMembers(env, (Secret, ""));
    RequiredMembers(env, (Var, ""));
    forall i, j | 0 <= i < j < |env.secrets| ensures env.secrets[i] != env.secrets[j] {
      RequiredAt(env, i);
      RequiredAt(env, j);
    }
    forall i, j | 0 <= i < j < |env.vars| ensures env.vars[i] != env.vars[j] {
      RequiredAt(env, |env.secrets| + i);
      RequiredAt(env, |env.secrets| + j);
    }
  }

  // ----- the summary -----

  ghost predicate GoodRow(env: Environment, row: Row) {
    && row.requiredChecks == |Required(env)|
    && Distinct(row.missing) && Distinct(row.missingPaths)
    && (forall m | m in row.missing :: m in Labels(env)) && (forall p | p in row.missingPaths :: p in env.pathVars)
    && row.pass == (row.missing == [] && row.missingPaths == [])
  }

  function Labels(env: Environment): set<string> {
    set k | k in Required(env) :: Label(k)
  }

  function SumMissing(rows: seq<Row>): nat {
    if rows == [] then 0 else SumMissing(rows[..|rows| - 1]) + |rows[|rows| - 1].missing|
  }

  function SumPaths(rows: seq<Row>): nat {
    if rows == [] then 0 else SumPaths(rows[..|rows| - 1]) + |rows[|rows| - 1].missingPaths|
  }

  function MissingLists(rows: seq<Row>): seq<seq<string>> {
    seq(|rows|, i requires 0 <= i < |rows| => rows[i].missing)
  }

  function MissingPathLists(rows: seq<Row>): seq<seq<string>> {
    seq(|rows|, i requires 0 <= i < |rows| => rows[i].missingPaths)
  }

  /** The totals count one for every entry of every row. */
  lemma {:induction false} TotalsCount(rows: seq<Row>)
    ensures SumMissing(rows) == |Cells(MissingLists(rows))| && SumPaths(rows) == |Cells(MissingPathLists(rows))|
  {
    if rows == [] {
      assert Cells(MissingLists(rows)) == {} && Cells(MissingPathLists(rows)) == {};
    } else {
      var front, last := rows[..|rows| - 1], rows[|rows| - 1];
      TotalsCount(front);
      CellsOneMore(MissingLists(front), last.missing);
      CellsOneMore(MissingPathLists(front), last.missingPaths);
      assert MissingLists(rows) == MissingLists(front) + [last.missing];
      assert MissingPathLists(rows) == MissingPathLists(front) + [last.missingPaths];
    }
  }

  function SecretLists(envs: seq<Environment>): seq<seq<string>> {
    seq(|envs|, i requires 0 <= i < |envs| => envs[i].secrets)
  }

  function VarLists(envs: seq<Environment>): seq<seq<string>> {
    seq(|envs|, i requires 0 <= i < |envs| => envs[i].vars)
  }

  /** The contract's total counts one for every secret and every variable of every environment. */
  lemma {:induction false} ChecksCount(envs: seq<Environment>)
    ensures TotalChecks(envs) == |Cells(SecretLists(envs))| + |Cells(VarLists(envs))|
  {
    if envs == [] {
      assert Cells(SecretLists(envs)) == {} && Cells(VarLists(envs)) == {};
    } else {
      var front, last := envs[..|envs| - 1], envs[|envs| - 1];
      ChecksCount(front);
      CellsOneMore(SecretLists(front), last.secrets);
      CellsOneMore(VarLists(front), last.vars);
      assert SecretLists(envs) == SecretLists(front) + [last.secrets];
      assert VarLists(envs) == VarLists(front) + [last.vars];
    }
  }

  ghost predicate Known(table: map<string, Environment>, rows: seq<Row>) {
    forall i | 0 <= i < |rows| :: rows[i].environment in table
  }

  ghost function RowsTotal(table: map<string, Environment>, rows: seq<Row>): nat
    requires Known(table, rows)
  {
    if rows == [] then 0
    else RowsTotal(table, rows[..|rows| - 1]) + |Required(table[rows[|rows| - 1].environment])|
  }

  ghost predicate GoodRows(table: map<string, Environment>, rows: seq<Row>) {
    && (forall i, j :: 0 <= i < j < |rows| ==> rows[i].environment != rows[j].environment)
    && forall i | 0 <= i < |rows| :: rows[i].environment in table && GoodRow(table[rows[i].environment], rows[i])
  }

  function RowNames(rows: seq<Row>): set<string> {
    set row | row in rows :: row.environment
  }

  ghost predicate GoodSummary(c: Contract, table: map<string, Environment>, s: Summary) {
    && s.finalReleaseCommit == EXPECTED_FINAL_RELEASE_COMMIT && s.sourceAnchor == c.sourceAnchor
    && (forall b | b in BOUNDARIES :: b !in s.crossed)
    && |s.rows| == ENVIRONMENT_COUNT && GoodRows(table, s.rows)
    && RowNames(s.rows) == table.Keys && RowsTotal(table, s.rows) == CHECK_COUNT
    && var passed := CountPass(s.rows);
       && s.pass == (passed == ENVIRONMENT_COUNT) && s.ready == (passed == ENVIRONMENT_COUNT)
       && s.passed == passed && s.failed == ENVIRONMENT_COUNT - passed
       && s.failedEnvironments == FailedNames(s.rows)
  }

  method ValidateRow(env: Environment, row: Row) returns (ok: bool)
    ensures ok <==> GoodRow(env, row)
  {
    CardinalityCountsDistinct(row.missing);
    CardinalityCountsDistinct(row.missingPaths);
    ok := && row.requiredChecks == |Required(env)|
          && |row.missing| == |Elements(row.missing)| && |row.missingPaths| == |Elements(row.missingPaths)|
          && (forall m | m in row.missing :: m in Labels(env)) && (forall p | p in row.missingPaths :: p in env.pathVars)
          && row.pass == (row.missing == [] && row.missingPaths == []);
  }

  /** `_validate_summary`: accepts exactly the summaries that are right for the contract, and returns the
      passed count with the missing-material and missing-path totals over all rows. */
  method ValidateSummary(c: Contract, table: map<string, Environment>, s: Summary) returns (r: Result<(nat, nat, nat)>)
    ensures r.Ok? <==> GoodSummary(c, table, s)
    ensures r.Ok? ==> r.value == (CountPass(s.rows), SumMissing(s.rows), SumPaths(s.rows))
    ensures r.Ok? ==>
      && r.value.0 == |Kept(s.rows, Passing())| && r.value.1 == |Cells(MissingLists(s.rows))|
      && r.value.2 == |Cells(MissingPathLists(s.rows))|
  {
    hide GoodRows;
    if s.finalReleaseCommit != EXPECTED_FINAL_RELEASE_COMMIT || s.sourceAnchor != c.sourceAnchor { return Raised; }
    if (exists b | b in BOUNDARIES :: b in s.crossed) || |s.rows| != ENVIRONMENT_COUNT { return Raised; }
    var counted := CountRows(table, s.rows);
    if counted.Raised? { return Raised; }
    var (passed, material, paths, seen, total) := counted.value;
    if seen != table.Keys || total != CHECK_COUNT { return Raised; }
    var complete := passed == ENVIRONMENT_COUNT;
    if s.pass != complete || s.ready != complete { return Raised; }
    if s.passed != passed || s.failed != ENVIRONMENT_COUNT - passed { return Raised; }
    if s.failedEnvironments != FailedNames(s.rows) { return Raised; }
    hide Kept, Cells;
    CountPassCounts(s.rows);
    TotalsCount(s.rows);
    return Ok((passed, material, paths));
  }

  lemma GoodRowsStep(table: map<string, Environment>, rows: seq<Row>, i: nat)
    requires i < |rows|
    ensures GoodRows(table, rows[..i + 1]) <==>
      && GoodRows(table, rows[..i]) && rows[i].environment !in RowNames(rows[..i])
      && rows[i].environment in table && GoodRow(table[rows[i].environment], rows[i])
    ensures GoodRows(table, rows) ==> GoodRows(table, rows[..i + 1])
  {
    hide GoodRow;
    var front, more := rows[..i], rows[..i + 1];
    assert forall j | 0 <= j < i :: more[j] == front[j] && front[j] in front;
    assert more[i] == rows[i];
    assert rows[i].environment in RowNames(front) <==> exists j | 0 <= j < i :: front[j].environment == rows[i].environment;
  }

  lemma GoodRowsKnown(table: map<string, Environment>, rows: seq<Row>)
    requires GoodRows(table, rows)
    ensures Known(table, rows)
  {
  }

  /** What one more row adds to the tallies. */
  lemma TallyStep(table: map<string, Environment>, rows: seq<Row>, i: nat)
    requires i < |rows| && Known(table, rows[..i])
    ensures CountPass(rows[..i + 1]) == CountPass(rows[..i]) + if rows[i].pass then 1 else 0
    ensures SumMissing(rows[..i + 1]) == SumMissing(rows[..i]) + |rows[i].missing|
    ensures SumPaths(rows[..i + 1]) == SumPaths(rows[..i]) + |rows[i].missingPaths|
    ensures RowNames(rows[..i + 1]) == RowNames(rows[..i]) + {rows[i].environment}
    ensures rows[i].environment in table ==>
      && Known(table, rows[..i + 1])
      && RowsTotal(table, rows[..i + 1]) == RowsTotal(table, rows[..i]) + |Required(table[rows[i].environment])|
  {
    assert rows[..i + 1][..i] == rows[..i] && rows[..i + 1] == rows[..i] + [rows[i]];
  }

  lemma PassedHasNothingMissing(env: Environment, row: Row)
    requires GoodRow(env, row) && row.pass
    ensures row.missing == [] && row.missingPaths == []
  {
  }

  /** The row loop of `_validate_summary`. */
  method CountRows(table: map<string, Environment>, rows: seq<Row>) returns (r: Result<(nat, nat, nat, set<string>, nat)>)
    ensures r.Ok? <==> GoodRows(table, rows)
    ensures r.Ok? ==>
      && r.value.0 == CountPass(rows) && r.value.1 == SumMissing(rows) && r.value.2 == SumPaths(rows)
      && r.value.3 == RowNames(rows) && r.value.4 == RowsTotal(table, rows)
  {
    var seen: set<string> := {};
    var passed, material, paths, total := 0, 0, 0, 0;
    for i := 0 to |rows|
      invariant GoodRows(table, rows[..i]) && seen == RowNames(rows[..i])
      invariant passed == CountPass(rows[..i]) && total == RowsTotal(table, rows[..i])
      invariant material == SumMissing(rows[..i]) && paths == SumPaths(rows[..i])
    {
      hide GoodRows, GoodRow, Required, CountPass, SumMissing, SumPaths, RowNames, RowsTotal;
      var row := rows[i];
      GoodRowsStep(table, rows, i);
      GoodRowsKnown(table, rows[..i]);
      TallyStep(table, rows, i);
      if row.environment !in table || row.environment in seen { return Raised; }
      seen := seen + {row.environment};
      total := total + |Required(table[row.environment])|;
      var good := ValidateRow(table[row.environment], row);
      if !good { return Raised; }
      if row.pass {
        PassedHasNothingMissing(table[row.environment], row);
        passed := passed + 1;
      } else {
        material, paths := material + |row.missing|, paths + |row.missingPaths|;
      }
    }
    assert rows[..|rows|] == rows;
    return Ok((passed, material, paths, seen, total));
  }

  /** An accepted summary has one row for each environment, whose entries are distinct and name the
      environment's own secrets, variables and path variables, and whose verdicts, counts and list of
      failures follow from those entries. */
  lemma AcceptedSummaryMeans(c: Contract, table: map<string, Environment>, s: Summary)
    requires Tables(c.environments, table) && GoodSummary(c, table, s)
    ensures |s.rows| == ENVIRONMENT_COUNT && (set i | 0 <= i < |s.rows| :: s.rows[i].environment) == table.Keys
    ensures forall i, j :: 0 <= i < j < |s.rows| ==> s.rows[i].environment != s.rows[j].environment
    ensures forall i | 0 <= i < |s.rows| :: RowMeans(table[s.rows[i].environment], s.rows[i])
    ensures s.passed == |Kept(s.rows, Passing())| && s.failed == ENVIRONMENT_COUNT - s.passed
    ensures Lists(s.rows, Failing(), EnvironmentOf(), s.failedEnvironments)
    ensures s.pass == s.ready == (s.failedEnvironments == [])
  {
    hide Lists, Kept, GoodRow, RowMeans, CountPass, FailedNames;
    CountPassCounts(s.rows);
    FailedNamesLists(s.rows);
    NoneFailedIff(s.rows, s.failedEnvironments);
    assert (set i | 0 <= i < |s.rows| :: s.rows[i].environment) == RowNames(s.rows);
    forall i | 0 <= i < |s.rows| ensures s.rows[i].environment in table && RowMeans(table[s.rows[i].environment], s.rows[i]) {
      GoodRowMeans(table[s.rows[i].environment], s.rows[i]);
    }
  }

  /** What an accepted row says, by the names of its environment. */
  ghost predicate RowMeans(env: Environment, row: Row) {
    && row.requiredChecks == |env.secrets| + |env.vars| && Distinct(row.missing) && Distinct(row.missingPaths)
    && (forall m | m in row.missing ::
          (exists n | n in env.secrets :: m == "secret:" + n) || exists n | n in env.vars :: m == "var:" + n)
    && (forall p | p in row.missingPaths :: p in env.pathVars)
    && (row.pass <==> row.missing == [] && row.missingPaths == [])
  }

  lemma GoodRowMeans(env: Environment, row: Row)
    requires GoodRow(env, row)
    ensures RowMeans(env, row)
  {
    hide Labels;
    forall m | m in row.missing
      ensures (exists n | n in env.secrets :: m == "secret:" + n) || exists n | n in env.vars :: m == "var:" + n
    {
      LabelMeans(env, m);
    }
  }

  lemma LabelMeans(env: Environment, m: string)
    requires m in Labels(env)
    ensures (exists n | n in env.secrets :: m == "secret:" + n) || exists n | n in env.vars :: m == "var:" + n
  {
    var k :| k in Required(env) && Label(k) == m;
    RequiredMembers(env, k);
    if k.0 == Secret { assert m == "secret:" + k.1; } else { assert m == "var:" + k.1; }
  }

  // ----- producer and consumer agree -----

  lemma {:induction false} MissingIsGood(table: map<Key, Check>, keys: seq<Key>)
    requires Distinct(keys) && forall k | k in keys :: k in table
    ensures Distinct(Missing(table, keys))
    ensures forall m | m in Missing(table, keys) :: exists k | k in keys :: Label(k) == m
  {
    if keys != [] {
      var front, last := keys[..|keys| - 1], keys[|keys| - 1];
      MissingIsGood(table, front);
      assert keys == front + [last];
      if Label(last) in Missing(table, front) {
        var k :| k in front && Label(k) == Label(last);
        LabelInjective(k, last);
        assert false;
      }
    }
  }

  lemma {:induction false} MissingPathsIsGood(env: Environment, table: map<Key, Check>, keys: seq<Key>)
    requires Distinct(keys) && forall k | k in keys :: k in table
    ensures Distinct(MissingPaths(env, table, keys))
    ensures forall p | p in MissingPaths(env, table, keys) :: p in env.pathVars && (Var, p) in keys
  {
    if keys != [] {
      var front, last := keys[..|keys| - 1], keys[|keys| - 1];
      MissingPathsIsGood(env, table, front);
      assert keys == front + [last];
    }
  }

  lemma RowIsGood(env: Environment, receipt: Receipt, row: Row)
    requires GoodRequired(env) && RowFrom(env, receipt, row)
    ensures row.environment == env.name && GoodRow(env, row)
  {
    var keys, table := Required(env), ByKey(receipt.checks);
    assert forall k | k in keys :: k in Elements(keys);
    MissingIsGood(table, keys);
    MissingPathsIsGood(env, table, keys);
  }

  lemma {:induction false} RowsTotalMatches(envs: seq<Environment>, table: map<string, Environment>, rows: seq<Row>, n: nat)
    requires Tables(envs, table) && n <= |rows| == |envs|
    requires forall i | 0 <= i < |rows| :: rows[i].environment == envs[i].name
    ensures RowsTotal(table, rows[..n]) == TotalChecks(envs[..n])
  {
    if n > 0 {
      RowsTotalMatches(envs, table, rows, n - 1);
      assert rows[..n][..n - 1] == rows[..n - 1] && envs[..n][..n - 1] == envs[..n - 1];
    }
  }

  lemma RowsNameEnvironments(envs: seq<Environment>, rows: seq<Row>)
    requires |rows| == |envs| && forall i | 0 <= i < |rows| :: rows[i].environment == envs[i].name
    ensures RowNames(rows) == EnvironmentNames(envs)
  {
    forall n | n in RowNames(rows) ensures n in EnvironmentNames(envs) {
      var row :| row in rows && row.environment == n;
      var i :| 0 <= i < |rows| && rows[i] == row;
      assert envs[i] in envs;
    }
    forall n | n in EnvironmentNames(envs) ensures n in RowNames(rows) {
      var env :| env in envs && env.name == n;
      var i :| 0 <= i < |envs| && envs[i] == env;
      assert rows[i] in rows;
    }
  }

  lemma RowsAreGood(envs: seq<Environment>, table: map<string, Environment>, receipts: map<string, Receipt>, rows: seq<Row>)
    requires GoodEnvironments(envs) && Tables(envs, table) && RowsFrom(envs, receipts, rows)
    ensures GoodRows(table, rows) && RowNames(rows) == table.Keys
    ensures RowsTotal(table, rows) == TotalChecks(envs)
  {
    hide GoodRow, RowFrom, RowsFrom, GoodRequired, GoodEnvironment, RowsTotal, TotalChecks;
    EachRowIsGood(envs, receipts, rows);
    RowsNameEnvironments(envs, rows);
    RowsTotalMatches(envs, table, rows, |rows|);
    assert rows[..|rows|] == rows && envs[..|envs|] == envs;
  }

  lemma EachRowIsGood(envs: seq<Environment>, receipts: map<string, Receipt>, rows: seq<Row>)
    requires GoodEnvironments(envs) && RowsFrom(envs, receipts, rows)
    ensures |rows| == |envs|
    ensures forall i | 0 <= i < |rows| :: rows[i].environment == envs[i].name && GoodRow(envs[i], rows[i])
  {
    hide GoodRow, RowFrom, GoodRequired;
    forall i | 0 <= i < |rows| ensures rows[i].environment == envs[i].name && GoodRow(envs[i], rows[i]) {
      RowIsGood(envs[i], receipts[envs[i].name], rows[i]);
    }
  }

  /** Whatever `assemble` returns under a contract the plan accepts, `_validate_summary` accepts. */
  lemma AssembledSummaryIsAccepted(c: Contract, table: map<string, Environment>, receipts: map<string, Receipt>, s: Summary)
    requires GoodContract(c) && Tables(c.environments, table) && Assembles(c, receipts, s)
    ensures GoodSummary(c, table, s)
  {
    hide GoodRows, RowsFrom;
    RowsAreGood(c.environments, table, receipts, s.rows);
    GoodRowsKnown(table, s.rows);
    assert |s.rows| == ENVIRONMENT_COUNT by { RowsFromLength(c.environments, receipts, s.rows); }
  }

  lemma RowsFromLength(envs: seq<Environment>, receipts: map<string, Receipt>, rows: seq<Row>)
    requires RowsFrom(envs, receipts, rows)
    ensures |rows| == |envs|
  {
  }

  // ----- what PASS means -----

  /** Every required secret and variable is there, and so is the path of every required path variable. */
  ghost predicate Provided(env: Environment, receipt: Receipt) {
    && (forall n | n in env.secrets :: IsPresent(receipt, Secret, n))
    && (forall n | n in env.vars :: IsPresent(receipt, Var, n) && (n in env.pathVars ==> PathConfirmed(receipt, n)))
  }

  /** A row passes exactly when its environment was provided. */
  lemma RowPassesIff(env: Environment, receipt: Receipt, row: Row)
    requires RowFrom(env, receipt, row)
    ensures row.pass <==> Provided(env, receipt)
  {
    RowDescribes(env, receipt, row);
    DescribedPassIff(env, receipt, row);
  }

  lemma DescribedPassIff(env: Environment, receipt: Receipt, row: Row)
    requires Describes(env, receipt, row)
    ensures row.pass <==> Provided(env, receipt)
  {
    hide Lists, IsPresent, PathConfirmed;
    var a, b :| DescribesMissing(env, receipt, row, a, b);
    ListsEmpty(env.secrets, Absent(receipt, Secret), Prefixed("secret:"), a);
    ListsEmpty(env.vars, Absent(receipt, Var), Prefixed("var:"), b);
    ListsEmpty(env.vars, PathOpen(env, receipt), Prefixed(""), row.missingPaths);
    assert a + b == [] <==> a == [] && b == [];
    assert forall n :: n in env.secrets <==> exists i | 0 <= i < |env.secrets| :: env.secrets[i] == n;
    assert forall n :: n in env.vars <==> exists i | 0 <= i < |env.vars| :: env.vars[i] == n;
  }

  /** A receipt yields a row exactly when it covers its environment and its verdict is right. */
  lemma RowExistsIff(env: Environment, receipt: Receipt)
    ensures (exists row :: RowFrom(env, receipt, row)) <==> Covers(env, receipt) && (receipt.pass <==> Provided(env, receipt))
  {
    hide Provided;
    if row :| RowFrom(env, receipt, row) { RowPassesIff(env, receipt, row); }
    if Covers(env, receipt) {
      var row := RowOf(env, receipt);
      var agreeing := receipt.(pass := row.pass);
      assert RowFrom(env, agreeing, row) && (Provided(env, receipt) <==> Provided(env, agreeing)) by {
        SameChecks(env, receipt, agreeing);
      }
      RowPassesIff(env, agreeing, row);
      if receipt.pass <==> Provided(env, receipt) { assert RowFrom(env, receipt, row); }
    }
  }

  lemma SameChecks(env: Environment, a: Receipt, b: Receipt)
    requires a.checks == b.checks
    ensures Covers(env, a) <==> Covers(env, b)
    ensures Covers(env, a) ==> RowOf(env, a) == RowOf(env, b)
    ensures Provided(env, a) <==> Provided(env, b)
  {
  }

  ghost predicate Yields(env: Environment, receipts: map<string, Receipt>) {
    env.name in receipts && exists row :: RowFrom(env, receipts[env.name], row)
  }

  /** The receipt of the environment covers it, and its verdict is right. */
  ghost predicate Sound(env: Environment, receipts: map<string, Receipt>) {
    && env.name in receipts && Covers(env, receipts[env.name])
    && (receipts[env.name].pass <==> Provided(env, receipts[env.name]))
  }

  /** Assembly succeeds exactly on twelve distinct named environments with one sound receipt each. */
  lemma AssemblesIff(c: Contract, receipts: map<string, Receipt>)
    ensures (exists s :: Assembles(c, receipts, s)) <==>
      && |c.environments| == ENVIRONMENT_COUNT && DistinctNames(c.environments)
      && receipts.Keys == EnvironmentNames(c.environments)
      && forall i | 0 <= i < |c.environments| :: c.environments[i].name != "" && Sound(c.environments[i], receipts)
  {
    hide RowFrom, CountPass, FailedNames, Sound, Yields, DistinctNames, EnvironmentNames;
    var envs := c.environments;
    forall i | 0 <= i < |envs| ensures Yields(envs[i], receipts) <==> Sound(envs[i], receipts) {
      YieldsIff(envs[i], receipts);
    }
    if s :| Assembles(c, receipts, s) {
      forall i | 0 <= i < |envs| ensures Yields(envs[i], receipts) { YieldsRow(envs[i], receipts, s.rows[i]); }
    }
    if && |envs| == ENVIRONMENT_COUNT && DistinctNames(envs) && receipts.Keys == EnvironmentNames(envs)
       && (forall i | 0 <= i < |envs| :: envs[i].name != "" && Sound(envs[i], receipts))
    {
      forall env | env in envs ensures Yields(env, receipts) {
        var i :| 0 <= i < |envs| && envs[i] == env;
      }
      var rows := RowsExist(envs, receipts);
      var s := Summary(CountPass(rows) == ENVIRONMENT_COUNT, c.sourceAnchor, c.finalReleaseCommit, CountPass(rows),
                       ENVIRONMENT_COUNT - CountPass(rows), FailedNames(rows), rows, CountPass(rows) == ENVIRONMENT_COUNT, {});
      assert Assembles(c, receipts, s);
    }
  }

  lemma YieldsIff(env: Environment, receipts: map<string, Receipt>)
    ensures Yields(env, receipts) <==> Sound(env, receipts)
  {
    if env.name in receipts { RowExistsIff(env, receipts[env.name]); }
  }

  lemma YieldsRow(env: Environment, receipts: map<string, Receipt>, row: Row)
    requires env.name in receipts && RowFrom(env, receipts[env.name], row)
    ensures Yields(env, receipts)
  {
  }

  lemma {:induction false} RowsExist(envs: seq<Environment>, receipts: map<string, Receipt>) returns (rows: seq<Row>)
    requires forall env | env in envs :: Yields(env, receipts)
    ensures RowsFrom(envs, receipts, rows)
  {
    hide RowFrom;
    if envs == [] { return []; }
    var front, last := envs[..|envs| - 1], envs[|envs| - 1];
    var before := RowsExist(front, receipts);
    assert last in envs;
    var row :| RowFrom(last, receipts[last.name], row);
    rows := before + [row];
    assert forall i | 0 <= i < |front| :: envs[i] == front[i] && rows[i] == before[i];
  }

  /** All twelve environments pass exactly when every required check of every environment was provided. */
  lemma ReadyIffProvided(c: Contract, receipts: map<string, Receipt>, s: Summary)
    requires Assembles(c, receipts, s)
    ensures CountPass(s.rows) == ENVIRONMENT_COUNT <==>
      forall i | 0 <= i < |c.environments| ::
        c.environments[i].name in receipts && Provided(c.environments[i], receipts[c.environments[i].name])
  {
    AllPassIff(s.rows);
    forall i | 0 <= i < |c.environments|
      ensures s.rows[i].pass <==> Provided(c.environments[i], receipts[c.environments[i].name])
    {
      RowPassesIff(c.environments[i], receipts[c.environments[i].name], s.rows[i]);
    }
  }

  /** PASS confirms every path variable exactly when the contract lists them all as required variables. */
  lemma PathsConfirmedIff(env: Environment, receipt: Receipt)
    requires Covers(env, receipt) && Provided(env, receipt)
    ensures (forall p | p in env.pathVars :: PathConfirmed(receipt, p)) <==> (forall p | p in env.pathVars :: p in env.vars)
  {
    forall p | p in env.pathVars ensures PathConfirmed(receipt, p) <==> p in env.vars {
      if PathConfirmed(receipt, p) {
        var c :| c in receipt.checks && c.kind == Var && c.name == p && c.pathExists == Some(true);
        ByKeyUnique(receipt.checks, c);
        assert (Var, p) in Elements(Required(env));
      }
    }
  }

  /** A path variable that the contract does not also list as a required variable is never checked: its
      environment passes without any answer about it. */
  lemma UnlistedPathVariableIsUnchecked(variable: string)
    ensures var env := Environment("e", WORKFLOW_PREFIX, [], [], [variable]);
            RowFrom(env, Receipt("e", true, []), Row("e", true, 0, [], []))
  {
    var env := Environment("e", WORKFLOW_PREFIX, [], [], [variable]);
    assert Required(env) == [];
    assert Covers(env, Receipt("e", true, []));
  }
}
