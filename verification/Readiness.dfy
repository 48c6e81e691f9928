/** Assembling the production readiness summary (scripts/ga/assemble_final_production_readiness.py). */
module Readiness {
  import opened Collections

  const EXPECTED_FINAL_RELEASE_COMMIT := "02cef95d40cf524ce00f9d917188343dc49e6f2c"
  const ENVIRONMENT_COUNT := 12
  const CHECK_COUNT := 41
  const PRODUCER_COUNT := 11
  const WORKFLOW_PREFIX := ".github/workflows/"

  /** Summary fields that must stay false. */
  const BOUNDARIES := {
    "secret_values_observed", "secret_hashes_observed", "secret_lengths_observed",
    "production_evidence_runs_complete", "production_evaluator_ready",
    "final_ga_evaluator_invoked", "ga_eligible"
  }

  datatype Kind = Secret | Var

  type Key = (Kind, string)

  datatype Environment = Environment(
    name: string, producer: string, secrets: seq<string>, vars: seq<string>, pathVars: seq<string>)

  datatype Contract = Contract(
    sourceAnchor: string, finalReleaseCommit: string, environments: seq<Environment>, summaryContractHolds: bool)

  datatype Check = Check(kind: Kind, name: string, present: bool, pathExists: Option<bool>)

  datatype Receipt = Receipt(environment: string, pass: bool, checks: seq<Check>)

  datatype Row = Row(
    environment: string, pass: bool, requiredChecks: nat, missing: seq<string>, missingPaths: seq<string>)

  /** `crossed` are the boundary fields that are not false. */
  datatype Summary = Summary(
    pass: bool, sourceAnchor: string, finalReleaseCommit: string, passed: int, failed: int,
    failedEnvironments: seq<string>, rows: seq<Row>, ready: bool, crossed: set<string>)

  function Required(env: Environment): seq<Key> {
    seq(|env.secrets|, i requires 0 <= i < |env.secrets| => (Secret, env.secrets[i])) +
    seq(|env.vars|, i requires 0 <= i < |env.vars| => (Var, env.vars[i]))
  }

  function Label(key: Key): string {
    (if key.0.Secret? then "secret:" else "var:") + key.1
  }

  lemma LabelInjective(a: Key, b: Key)
    requires Label(a) == Label(b)
    ensures a == b
  {
    assert Label(a)[0] == if a.0.Secret? then 's' else 'v';
    assert Label(b)[0] == if b.0.Secret? then 's' else 'v';
    var n := if a.0.Secret? then 7 else 4;
    assert a.1 == Label(a)[n..] && b.1 == Label(b)[n..];
  }

  function ByKey(checks: seq<Check>): map<Key, Check> {
    if checks == [] then map[]
    else
      var last := checks[|checks| - 1];
      ByKey(checks[..|checks| - 1])[(last.kind, last.name) := last]
  }

  predicate NeedsPath(env: Environment, key: Key) {
    key.0.Var? && key.1 in env.pathVars
  }

  function Missing(table: map<Key, Check>, keys: seq<Key>): seq<string>
    requires forall k | k in keys :: k in table
  {
    if keys == [] then []
    else
      var last := keys[|keys| - 1];
      Missing(table, keys[..|keys| - 1]) + if table[last].present then [] else [Label(last)]
  }

  function MissingPaths(env: Environment, table: map<Key, Check>, keys: seq<Key>): seq<string>
    requires forall k | k in keys :: k in table
  {
    if keys == [] then []
    else
      var last := keys[|keys| - 1];
      MissingPaths(env, table, keys[..|keys| - 1]) +
      if NeedsPath(env, last) && table[last].pathExists != Some(true) then [last.1] else []
  }

  /** A receipt whose checks are the required ones, each once, with a path answer only where one is due. */
  ghost predicate Covers(env: Environment, receipt: Receipt) {
    var table := ByKey(receipt.checks);
    && table.Keys == Elements(Required(env)) && |table| == |receipt.checks|
    && forall k | k in Required(env) && !NeedsPath(env, k) :: table[k].pathExists.None?
  }

  ghost function RowOf(env: Environment, receipt: Receipt): Row
    requires Covers(env, receipt)
  {
    var keys := Required(env);
    assert forall k | k in keys :: k in Elements(keys);
    var missing := Missing(ByKey(receipt.checks), keys);
    var paths := MissingPaths(env, ByKey(receipt.checks), keys);
    Row(env.name, missing == [] && paths == [], |keys|, missing, paths)
  }

  /** A receipt accepted for its environment. */
  ghost predicate Accepted(env: Environment, receipt: Receipt) {
    Covers(env, receipt) && receipt.pass == RowOf(env, receipt).pass
  }

  ghost predicate RowFrom(env: Environment, receipt: Receipt, row: Row) {
    Accepted(env, receipt) && row == RowOf(env, receipt)
  }

  // ----- what a row says, from the contract and the receipt alone -----

  ghost predicate IsPresent(receipt: Receipt, kind: Kind, name: string) {
    exists c | c in receipt.checks :: c.kind == kind && c.name == name && c.present
  }

  ghost predicate PathConfirmed(receipt: Receipt, name: string) {
    exists c | c in receipt.checks :: c.kind == Var && c.name == name && c.pathExists == Some(true)
  }

  ghost function Absent(receipt: Receipt, kind: Kind): string -> bool {
    name => !IsPresent(receipt, kind, name)
  }

  ghost function PathOpen(env: Environment, receipt: Receipt): string -> bool {
    name => name in env.pathVars && !PathConfirmed(receipt, name)
  }

  function Prefixed(prefix: string): string -> string {
    name => prefix + name
  }

  /** The missing secrets in contract order, then the missing variables. */
  ghost predicate DescribesMissing(env: Environment, receipt: Receipt, row: Row, secrets: seq<string>, vars: seq<string>) {
    && row.missing == secrets + vars
    && Lists(env.secrets, Absent(receipt, Secret), Prefixed("secret:"), secrets)
    && Lists(env.vars, Absent(receipt, Var), Prefixed("var:"), vars)
  }

  ghost predicate Describes(env: Environment, receipt: Receipt, row: Row) {
    && row.environment == env.name && row.requiredChecks == |env.secrets| + |env.vars|
    && (exists secrets, vars :: DescribesMissing(env, receipt, row, secrets, vars))
    && Lists(env.vars, PathOpen(env, receipt), Prefixed(""), row.missingPaths)
    && (row.pass <==> row.missing == [] && row.missingPaths == []) && row.pass == receipt.pass
  }

  lemma {:induction false} ByKeyMembers(checks: seq<Check>)
    ensures |ByKey(checks)| <= |checks|
    ensures forall k | k in ByKey(checks) :: ByKey(checks)[k] in checks && k == (ByKey(checks)[k].kind, ByKey(checks)[k].name)
  {
    if checks != [] {
      var front, last := checks[..|checks| - 1], checks[|checks| - 1];
      ByKeyMembers(front);
      assert checks == front + [last];
      assert ByKey(checks).Keys == ByKey(front).Keys + {(last.kind, last.name)};
    }
  }

  lemma {:induction false} ByKeyUnique(checks: seq<Check>, c: Check)
    requires |ByKey(checks)| == |checks| && c in checks
    ensures (c.kind, c.name) in ByKey(checks) && ByKey(checks)[(c.kind, c.name)] == c
  {
    var front, last := checks[..|checks| - 1], checks[|checks| - 1];
    ByKeyMembers(front);
    assert checks == front + [last];
    var key := (last.kind, last.name);
    assert ByKey(checks).Keys == ByKey(front).Keys + {key};
    assert |ByKey(checks).Keys| == |ByKey(front).Keys| + if key in ByKey(front) then 0 else 1;
    if c != last { ByKeyUnique(front, c); }
  }

  /** The check recorded for a key answers for it. */
  lemma TableAnswers(env: Environment, receipt: Receipt, k: Key)
    requires Covers(env, receipt) && k in Required(env)
    ensures k in ByKey(receipt.checks)
    ensures ByKey(receipt.checks)[k].present <==> IsPresent(receipt, k.0, k.1)
    ensures k.0 == Var ==> (ByKey(receipt.checks)[k].pathExists == Some(true) <==> PathConfirmed(receipt, k.1))
  {
    var table := ByKey(receipt.checks);
    assert k in Elements(Required(env));
    ByKeyMembers(receipt.checks);
    assert table[k] in receipt.checks;
    forall c | c in receipt.checks && (c.kind, c.name) == k ensures c == table[k] { ByKeyUnique(receipt.checks, c); }
  }

  /** What the loop has collected after `n` required keys. */
  ghost function MissingUpto(env: Environment, receipt: Receipt, n: nat): seq<string>
    requires Covers(env, receipt) && n <= |Required(env)|
  {
    assert forall k | k in Required(env)[..n] :: k in Elements(Required(env));
    Missing(ByKey(receipt.checks), Required(env)[..n])
  }

  ghost function PathsUpto(env: Environment, receipt: Receipt, n: nat): seq<string>
    requires Covers(env, receipt) && n <= |Required(env)|
  {
    assert forall k | k in Required(env)[..n] :: k in Elements(Required(env));
    MissingPaths(env, ByKey(receipt.checks), Required(env)[..n])
  }

  lemma UptoStep(env: Environment, receipt: Receipt, n: nat)
    requires Covers(env, receipt) && n < |Required(env)|
    ensures var k := Required(env)[n];
            && MissingUpto(env, receipt, n + 1)
               == MissingUpto(env, receipt, n) + (if IsPresent(receipt, k.0, k.1) then [] else [Label(k)])
            && PathsUpto(env, receipt, n + 1)
               == PathsUpto(env, receipt, n) + if k.0 == Var && PathOpen(env, receipt)(k.1) then [k.1] else []
  {
    hide ByKey, Required, IsPresent, PathConfirmed, Label;
    var keys := Required(env);
    assert keys[..n + 1][..n] == keys[..n];
    assert keys[n] in keys;
    TableAnswers(env, receipt, keys[n]);
  }

  lemma {:induction false} SecretsOfRow(env: Environment, receipt: Receipt, n: nat)
    requires Covers(env, receipt) && n <= |env.secrets| <= |Required(env)|
    ensures Lists(env.secrets[..n], Absent(receipt, Secret), Prefixed("secret:"), MissingUpto(env, receipt, n))
    ensures PathsUpto(env, receipt, n) == []
  {
    hide Lists, Covers, IsPresent, Required;
    if n == 0 {
      ListsNone(Absent(receipt, Secret), Prefixed("secret:"));
    } else {
      hide MissingUpto, PathsUpto;
      SecretsOfRow(env, receipt, n - 1);
      UptoStep(env, receipt, n - 1);
      RequiredAt(env, n - 1);
      var name := env.secrets[n - 1];
      ListsOneMore(env.secrets[..n - 1], name, Absent(receipt, Secret), Prefixed("secret:"), MissingUpto(env, receipt, n - 1));
      assert env.secrets[..n] == env.secrets[..n - 1] + [name];
    }
  }

  lemma {:induction false} VarsOfRow(env: Environment, receipt: Receipt, n: nat) returns (vars: seq<string>)
    requires Covers(env, receipt) && n <= |env.vars| && |Required(env)| == |env.secrets| + |env.vars|
    ensures Lists(env.vars[..n], Absent(receipt, Var), Prefixed("var:"), vars)
    ensures MissingUpto(env, receipt, |env.secrets| + n) == MissingUpto(env, receipt, |env.secrets|) + vars
  {
    hide Lists, Covers, IsPresent, Required, MissingUpto, PathsUpto;
    if n == 0 {
      ListsNone(Absent(receipt, Var), Prefixed("var:"));
      return [];
    }
    var before := VarsOfRow(env, receipt, n - 1);
    UptoStep(env, receipt, |env.secrets| + n - 1);
    RequiredAt(env, |env.secrets| + n - 1);
    var name := env.vars[n - 1];
    ListsOneMore(env.vars[..n - 1], name, Absent(receipt, Var), Prefixed("var:"), before);
    assert env.vars[..n] == env.vars[..n - 1] + [name];
    vars := before + if Absent(receipt, Var)(name) then [Prefixed("var:")(name)] else [];
  }

  lemma {:induction false} PathsOfRow(env: Environment, receipt: Receipt, n: nat)
    requires Covers(env, receipt) && n <= |env.vars| && |Required(env)| == |env.secrets| + |env.vars|
    ensures Lists(env.vars[..n], PathOpen(env, receipt), Prefixed(""), PathsUpto(env, receipt, |env.secrets| + n))
  {
    hide Lists, Covers, PathConfirmed, Required, MissingUpto, PathsUpto;
    if n == 0 {
      SecretsOfRow(env, receipt, |env.secrets|);
      ListsNone(PathOpen(env, receipt), Prefixed(""));
    } else {
      PathsOfRow(env, receipt, n - 1);
      UptoStep(env, receipt, |env.secrets| + n - 1);
      RequiredAt(env, |env.secrets| + n - 1);
      var name := env.vars[n - 1];
      ListsOneMore(env.vars[..n - 1], name, PathOpen(env, receipt), Prefixed(""),
                   PathsUpto(env, receipt, |env.secrets| + n - 1));
      assert env.vars[..n] == env.vars[..n - 1] + [name];
      assert Prefixed("")(name) == name;
    }
  }

  /** Every assembled row lists exactly what is missing, in contract order. */
  lemma RowDescribes(env: Environment, receipt: Receipt, row: Row)
    requires RowFrom(env, receipt, row)
    ensures Describes(env, receipt, row)
  {
    hide Lists, Covers, Required, MissingUpto, PathsUpto, RowFrom, Absent, PathOpen, Prefixed;
    RowUpto(env, receipt, row);
    SecretsOfRow(env, receipt, |env.secrets|);
    var vars := VarsOfRow(env, receipt, |env.vars|);
    PathsOfRow(env, receipt, |env.vars|);
    assert env.secrets[..|env.secrets|] == env.secrets && env.vars[..|env.vars|] == env.vars;
    assert DescribesMissing(env, receipt, row, MissingUpto(env, receipt, |env.secrets|), vars);
  }

  lemma RowUpto(env: Environment, receipt: Receipt, row: Row)
    requires RowFrom(env, receipt, row)
    ensures Covers(env, receipt) && |Required(env)| == |env.secrets| + |env.vars|
    ensures row.environment == env.name && row.requiredChecks == |Required(env)| && row.pass == receipt.pass
    ensures row.pass <==> row.missing == [] && row.missingPaths == []
    ensures row.missing == MissingUpto(env, receipt, |Required(env)|)
    ensures row.missingPaths == PathsUpto(env, receipt, |Required(env)|)
  {
    assert Required(env)[..|Required(env)|] == Required(env);
  }

  lemma RequiredAt(env: Environment, i: nat)
    requires i < |env.secrets| + |env.vars|
    ensures |Required(env)| == |env.secrets| + |env.vars|
    ensures Required(env)[i] ==
      if i < |env.secrets| then (Secret, env.secrets[i]) else (Var, env.vars[i - |env.secrets|])
  {
  }

  lemma RequiredMembers(env: Environment, k: Key)
    ensures k in Required(env) <==> k.1 in if k.0 == Secret then env.secrets else env.vars
  {
    var keys, s := Required(env), |env.secrets|;
    assert forall i | 0 <= i < s :: keys[i] == (Secret, env.secrets[i]);
    assert forall i | 0 <= i < |env.vars| :: keys[s + i] == (Var, env.vars[i]);
    if k.0 == Secret && k.1 in env.secrets {
      var i :| 0 <= i < s && env.secrets[i] == k.1;
      assert keys[i] == k;
    }
    if k.0 == Var && k.1 in env.vars {
      var i :| 0 <= i < |env.vars| && env.vars[i] == k.1;
      assert keys[s + i] == k;
    }
  }

  function CheckKey(c: Check): Key {
    (c.kind, c.name)
  }

  ghost predicate DistinctChecks(checks: seq<Check>) {
    forall i, j :: 0 <= i < j < |checks| ==> CheckKey(checks[i]) != CheckKey(checks[j])
  }

  lemma {:induction false} ByKeyKeys(checks: seq<Check>)
    ensures forall k :: k in ByKey(checks) <==> exists c | c in checks :: CheckKey(c) == k
  {
    if checks != [] {
      var front, last := checks[..|checks| - 1], checks[|checks| - 1];
      ByKeyKeys(front);
      assert checks == front + [last];
      forall k ensures k in ByKey(checks) <==> exists c | c in checks :: CheckKey(c) == k {
        if k == CheckKey(last) { assert last in checks; }
        if c :| c in front && CheckKey(c) == k { assert c in checks; }
      }
    }
  }

  lemma {:induction false} ByKeyCounts(checks: seq<Check>)
    ensures |ByKey(checks)| == |checks| <==> DistinctChecks(checks)
  {
    if checks != [] {
      var front, last := checks[..|checks| - 1], checks[|checks| - 1];
      ByKeyCounts(front);
      ByKeyMembers(front);
      DistinctChecksStep(checks);
      assert ByKey(checks).Keys == ByKey(front).Keys + {CheckKey(last)};
      assert |ByKey(checks)| == |ByKey(checks).Keys| && |ByKey(front)| == |ByKey(front).Keys|;
    }
  }

  lemma DistinctChecksStep(checks: seq<Check>)
    requires checks != []
    ensures DistinctChecks(checks) <==>
      DistinctChecks(checks[..|checks| - 1]) && CheckKey(checks[|checks| - 1]) !in ByKey(checks[..|checks| - 1])
  {
    hide ByKey;
    var front, last := checks[..|checks| - 1], checks[|checks| - 1];
    ByKeyKeys(front);
    if CheckKey(last) in ByKey(front) {
      var c :| c in front && CheckKey(c) == CheckKey(last);
      var i :| 0 <= i < |front| && front[i] == c;
      assert CheckKey(checks[i]) == CheckKey(checks[|checks| - 1]);
    } else {
      assert forall i | 0 <= i < |front| :: front[i] in front && checks[i] == front[i];
    }
  }

  /** The checks of a covering receipt are the required ones, each once, and a path answer is given only
      for a required path variable; and such a receipt covers. */
  lemma CoversIff(env: Environment, receipt: Receipt)
    ensures Covers(env, receipt) <==>
      && DistinctChecks(receipt.checks)
      && (forall n :: n in env.secrets <==> exists c | c in receipt.checks :: CheckKey(c) == (Secret, n))
      && (forall n :: n in env.vars <==> exists c | c in receipt.checks :: CheckKey(c) == (Var, n))
      && (forall c | c in receipt.checks && c.pathExists.Some? :: c.kind == Var && c.name in env.pathVars)
  {
    hide ByKey, Required;
    var table, keys := ByKey(receipt.checks), Required(env);
    ByKeyKeys(receipt.checks);
    ByKeyCounts(receipt.checks);
    ByKeyMembers(receipt.checks);
    forall k ensures k in keys <==> k.1 in if k.0 == Secret then env.secrets else env.vars { RequiredMembers(env, k); }
    SameKeys(env, receipt);
    if DistinctChecks(receipt.checks) {
      forall c | c in receipt.checks ensures CheckKey(c) in table && table[CheckKey(c)] == c {
        ByKeyUnique(receipt.checks, c);
      }
    }
  }

  lemma SameKeys(env: Environment, receipt: Receipt)
    ensures ByKey(receipt.checks).Keys == Elements(Required(env)) <==>
      && (forall n :: n in env.secrets <==> exists c | c in receipt.checks :: CheckKey(c) == (Secret, n))
      && (forall n :: n in env.vars <==> exists c | c in receipt.checks :: CheckKey(c) == (Var, n))
  {
    hide ByKey, Required;
    var table, keys := ByKey(receipt.checks), Required(env);
    ByKeyKeys(receipt.checks);
    forall k ensures k in Elements(keys) <==> k.1 in if k.0 == Secret then env.secrets else env.vars {
      RequiredMembers(env, k);
    }
    if table.Keys == Elements(keys) {
      forall n ensures n in env.secrets <==> (Secret, n) in table {}
      forall n ensures n in env.vars <==> (Var, n) in table {}
    } else {
      var k :| (k in table) != (k in Elements(keys));
      assert k == (k.0, k.1);
    }
  }

  lemma MissingStep(env: Environment, table: map<Key, Check>, keys: seq<Key>, i: nat)
    requires i < |keys| && forall k | k in keys :: k in table
    ensures Missing(table, keys[..i + 1]) == Missing(table, keys[..i]) + if table[keys[i]].present then [] else [Label(keys[i])]
    ensures MissingPaths(env, table, keys[..i + 1]) == MissingPaths(env, table, keys[..i]) +
      if NeedsPath(env, keys[i]) && table[keys[i]].pathExists != Some(true) then [keys[i].1] else []
  {
    assert keys[..i + 1][..i] == keys[..i];
  }

  /** The loop over the required keys of one environment. */
  method CollectMissing(env: Environment, table: map<Key, Check>, keys: seq<Key>)
    returns (r: Result<(seq<string>, seq<string>)>)
    requires forall k | k in keys :: k in table
    ensures r.Ok? <==> forall k | k in keys && !NeedsPath(env, k) :: table[k].pathExists.None?
    ensures r.Ok? ==> r.value == (Missing(table, keys), MissingPaths(env, table, keys))
  {
    hide Label, NeedsPath;
    var missing: seq<string> := [];
    var paths: seq<string> := [];
    for i := 0 to |keys|
      invariant missing == Missing(table, keys[..i]) && paths == MissingPaths(env, table, keys[..i])
      invariant forall j | 0 <= j < i && !NeedsPath(env, keys[j]) :: table[keys[j]].pathExists.None?
    {
      hide Missing, MissingPaths;
      var key := keys[i];
      var item := table[key];
      MissingStep(env, table, keys, i);
      if !item.present { missing := missing + [Label(key)]; }
      if NeedsPath(env, key) {
        if item.pathExists != Some(true) { paths := paths + [key.1]; }
      } else if item.pathExists.Some? {
        return Raised;
      }
    }
    assert keys[..|keys|] == keys;
    return Ok((missing, paths));
  }

  /** The per-environment part of `assemble`. */
  method AssembleRow(env: Environment, receipt: Receipt) returns (r: Result<Row>)
    ensures r.Ok? ==> RowFrom(env, receipt, r.value) && Describes(env, receipt, r.value)
    ensures r.Raised? ==> forall row :: !RowFrom(env, receipt, row)
  {
    hide Label, NeedsPath, ByKey, Required, Describes;
    var table := ByKey(receipt.checks);
    var keys := Required(env);
    if table.Keys != Elements(keys) || |table| != |receipt.checks| { return Raised; }
    assert forall k | k in keys :: k in Elements(keys);
    var collected := CollectMissing(env, table, keys);
    if collected.Raised? { return Raised; }
    var (missing, paths) := collected.value;
    var pass := missing == [] && paths == [];
    if receipt.pass != pass { return Raised; }
    r := Ok(Row(env.name, pass, |keys|, missing, paths));
    RowDescribes(env, receipt, r.value);
  }

  function CountPass(rows: seq<Row>): nat {
    if rows == [] then 0 else CountPass(rows[..|rows| - 1]) + if rows[|rows| - 1].pass then 1 else 0
  }

  function FailedNames(rows: seq<Row>): seq<string> {
    if rows == [] then []
    else FailedNames(rows[..|rows| - 1]) + if rows[|rows| - 1].pass then [] else [rows[|rows| - 1].environment]
  }

  function EnvironmentNames(envs: seq<Environment>): set<string> {
    set env | env in envs :: env.name
  }

  ghost predicate DistinctNames(envs: seq<Environment>) {
    forall i, j :: 0 <= i < j < |envs| ==> envs[i].name != envs[j].name
  }

  ghost predicate RowsFrom(envs: seq<Environment>, receipts: map<string, Receipt>, rows: seq<Row>) {
    |rows| == |envs| && forall i | 0 <= i < |envs| ::
      envs[i].name in receipts && RowFrom(envs[i], receipts[envs[i].name], rows[i])
  }

  /** What `assemble` returns, when it returns: one row per environment in contract order, each from the
      accepted receipt of that environment, with the aggregates that follow from the rows. */
  ghost predicate Assembles(contract: Contract, receipts: map<string, Receipt>, s: Summary) {
    var envs := contract.environments;
    && |envs| == ENVIRONMENT_COUNT && DistinctNames(envs) && (forall i | 0 <= i < |envs| :: envs[i].name != "")
    && receipts.Keys == EnvironmentNames(envs)
    && RowsFrom(envs, receipts, s.rows)
    && s == Summary(CountPass(s.rows) == ENVIRONMENT_COUNT, contract.sourceAnchor, contract.finalReleaseCommit,
                    CountPass(s.rows), ENVIRONMENT_COUNT - CountPass(s.rows), FailedNames(s.rows), s.rows,
                    CountPass(s.rows) == ENVIRONMENT_COUNT, {})
  }

  /** `receipts` are exactly the twelve files by environment. */
  ghost predicate Indexes(files: seq<Receipt>, receipts: map<string, Receipt>) {
    |files| == ENVIRONMENT_COUNT && ByEnvironment(files, receipts)
  }

  ghost predicate ByEnvironment(files: seq<Receipt>, receipts: map<string, Receipt>) {
    && "" !in receipts
    && (forall i, j :: 0 <= i < j < |files| ==> files[i].environment != files[j].environment)
    && (forall f | f in files :: f.environment in receipts && receipts[f.environment] == f)
    && (forall n | n in receipts :: receipts[n] in files && receipts[n].environment == n)
  }

  lemma IndexOneMore(files: seq<Receipt>, receipts: map<string, Receipt>, i: nat)
    requires i < |files| && ByEnvironment(files[..i], receipts)
    requires files[i].environment != "" && files[i].environment !in receipts
    ensures ByEnvironment(files[..i + 1], receipts[files[i].environment := files[i]])
  {
    assert files[..i + 1] == files[..i] + [files[i]];
    assert forall j | 0 <= j < i :: files[j] in files[..i];
  }

  /** A missing or repeated environment rules every index out. */
  lemma NoIndex(files: seq<Receipt>, receipts: map<string, Receipt>, i: nat)
    requires i < |files| && ByEnvironment(files[..i], receipts)
    requires files[i].environment == "" || files[i].environment in receipts
    ensures forall other :: !Indexes(files, other)
  {
    assert files[i] in files;
    if files[i].environment in receipts {
      var j :| 0 <= j < i && files[j] == receipts[files[i].environment];
    }
  }

  /** The receipts by environment; a missing or repeated environment raises. */
  method ReadReceipts(files: seq<Receipt>) returns (r: Result<map<string, Receipt>>)
    ensures r.Ok? ==> Indexes(files, r.value)
    ensures r.Raised? ==> forall receipts :: !Indexes(files, receipts)
  {
    if |files| != ENVIRONMENT_COUNT { return Raised; }
    var receipts: map<string, Receipt> := map[];
    for i := 0 to |files|
      invariant ByEnvironment(files[..i], receipts)
    {
      hide ByEnvironment, Indexes;
      var value := files[i];
      if value.environment == "" || value.environment in receipts {
        NoIndex(files, receipts, i);
        return Raised;
      }
      IndexOneMore(files, receipts, i);
      receipts := receipts[value.environment := value];
    }
    assert files[..|files|] == files;
    return Ok(receipts);
  }

  lemma DescribedName(env: Environment, receipt: Receipt, row: Row)
    requires Describes(env, receipt, row)
    ensures row.environment == env.name
  {
  }

  function Passing(): Row -> bool {
    (row: Row) => row.pass
  }

  function Failing(): Row -> bool {
    (row: Row) => !row.pass
  }

  function EnvironmentOf(): Row -> string {
    (row: Row) => row.environment
  }

  /** Each environment has its row, and the failed names are those of the rows that do not pass, in order. */
  ghost predicate DescribesAll(envs: seq<Environment>, receipts: map<string, Receipt>, rows: seq<Row>, failed: seq<string>)
  {
    && |rows| == |envs| && Lists(rows, Failing(), EnvironmentOf(), failed)
    && forall i | 0 <= i < |envs| :: envs[i].name in receipts && Describes(envs[i], receipts[envs[i].name], rows[i])
  }

  lemma {:induction false} FailedNamesLists(rows: seq<Row>)
    ensures Lists(rows, Failing(), EnvironmentOf(), FailedNames(rows))
  {
    hide Lists;
    if rows == [] {
      ListsNone(Failing(), EnvironmentOf());
    } else {
      var front, last := rows[..|rows| - 1], rows[|rows| - 1];
      FailedNamesLists(front);
      ListsOneMore(front, last, Failing(), EnvironmentOf(), FailedNames(front));
      assert rows == front + [last];
    }
  }

  lemma {:induction false} CountPassCounts(rows: seq<Row>)
    ensures CountPass(rows) == |Kept(rows, Passing())|
  {
    if rows != [] {
      var front, last := rows[..|rows| - 1], rows[|rows| - 1];
      CountPassCounts(front);
      assert rows == front + [last];
      assert Kept(rows, Passing()) == Kept(front, Passing()) + if last.pass then {|front|} else {};
    }
  }

  method AssembleRows(envs: seq<Environment>, receipts: map<string, Receipt>)
    returns (r: Result<(seq<Row>, seq<string>)>)
    requires forall i | 0 <= i < |envs| :: envs[i].name in receipts
    ensures r.Ok? ==>
      && RowsFrom(envs, receipts, r.value.0) && r.value.1 == FailedNames(r.value.0)
      && DescribesAll(envs, receipts, r.value.0, r.value.1)
    ensures r.Raised? ==> forall rows :: !RowsFrom(envs, receipts, rows)
  {
    hide RowFrom, Describes, Lists;
    var rows: seq<Row> := [];
    var failed: seq<string> := [];
    for i := 0 to |envs|
      invariant |rows| == i && failed == FailedNames(rows)
      invariant forall j | 0 <= j < i :: RowFrom(envs[j], receipts[envs[j].name], rows[j])
      invariant forall j | 0 <= j < i :: Describes(envs[j], receipts[envs[j].name], rows[j])
    {
      var row := AssembleRow(envs[i], receipts[envs[i].name]);
      if row.Raised? { return Raised; }
      assert (rows + [row.value])[..i] == rows;
      DescribedName(envs[i], receipts[envs[i].name], row.value);
      if !row.value.pass { failed := failed + [envs[i].name]; }
      rows := rows + [row.value];
    }
    FailedNamesLists(rows);
    return Ok((rows, failed));
  }

  /** `assemble`, given the receipts read from the twelve files. The summary counts and names its rows, and
      each row says what its receipt lacks. */
  method Assemble(contract: Contract, files: seq<Receipt>) returns (r: Result<Summary>, receipts: map<string, Receipt>)
    ensures r.Ok? ==> Indexes(files, receipts) && Assembles(contract, receipts, r.value)
    ensures r.Ok? ==>
      && DescribesAll(contract.environments, receipts, r.value.rows, r.value.failedEnvironments)
      && r.value.passed == |Kept(r.value.rows, Passing())| && r.value.failed == ENVIRONMENT_COUNT - r.value.passed
      && r.value.pass == r.value.ready == (r.value.failedEnvironments == [])
    ensures r.Raised? ==> forall table, s | Indexes(files, table) :: !Assembles(contract, table, s)
  {
    hide RowsFrom, DistinctNames, EnvironmentNames, Indexes, Describes, Lists, CountPass, Kept;
    receipts := map[];
    var envs := contract.environments;
    var named := CheckNames(envs);
    if !named { return Raised, receipts; }
    var read := ReadReceipts(files);
    if read.Raised? { return Raised, receipts; }
    receipts := read.value;
    IndexIsUnique(files, receipts);
    if receipts.Keys != EnvironmentNames(envs) { return Raised, receipts; }
    NamesCover(envs);
    var assembled := AssembleRows(envs, receipts);
    if assembled.Raised? { return Raised, receipts; }
    var (rows, failed) := assembled.value;
    var passed := CountPass(rows);
    CountPassCounts(rows);
    NoneFailedIff(rows, failed);
    r := Ok(Summary(passed == ENVIRONMENT_COUNT, contract.sourceAnchor, contract.finalReleaseCommit, passed,
                    ENVIRONMENT_COUNT - passed, failed, rows, passed == ENVIRONMENT_COUNT, {}));
  }

  lemma NoneFailedIff(rows: seq<Row>, failed: seq<string>)
    requires Lists(rows, Failing(), EnvironmentOf(), failed)
    ensures failed == [] <==> CountPass(rows) == |rows|
  {
    ListsEmpty(rows, Failing(), EnvironmentOf(), failed);
    AllPassIff(rows);
  }

  lemma {:induction false} AllPassIff(rows: seq<Row>)
    ensures CountPass(rows) <= |rows|
    ensures CountPass(rows) == |rows| <==> forall i | 0 <= i < |rows| :: rows[i].pass
  {
    if rows != [] { AllPassIff(rows[..|rows| - 1]); }
  }

  lemma IndexIsUnique(files: seq<Receipt>, receipts: map<string, Receipt>)
    requires Indexes(files, receipts)
    ensures forall table | Indexes(files, table) :: table == receipts
  {
    forall table | Indexes(files, table) ensures table == receipts {
      assert forall n | n in receipts :: receipts[n] in files;
      assert forall n | n in table :: table[n] in files;
      assert table.Keys == receipts.Keys;
    }
  }

  lemma NamesCover(envs: seq<Environment>)
    ensures forall i | 0 <= i < |envs| :: envs[i].name in EnvironmentNames(envs)
  {
    assert forall i | 0 <= i < |envs| :: envs[i] in envs;
  }

  /** `_contract`: exactly twelve environments with distinct, nonempty names. */
  method CheckNames(envs: seq<Environment>) returns (ok: bool)
    ensures ok <==> |envs| == ENVIRONMENT_COUNT && DistinctNames(envs) && forall i | 0 <= i < |envs| :: envs[i].name != ""
  {
    var names := seq(|envs|, i requires 0 <= i < |envs| => envs[i].name);
    CardinalityCountsDistinct(names);
    assert Distinct(names) <==> DistinctNames(envs) by {
      assert forall i | 0 <= i < |envs| :: names[i] == envs[i].name;
    }
    assert "" in names <==> exists i | 0 <= i < |envs| :: envs[i].name == "" by {
      assert forall i | 0 <= i < |envs| :: names[i] == envs[i].name && names[i] in names;
    }
    ok := |envs| == ENVIRONMENT_COUNT && |Elements(names)| == |names| && "" !in names;
  }
}
