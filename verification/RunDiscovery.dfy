/** Selecting one unambiguous evidence run per gate, in the two implementations of
    scripts/ga/discover_final_evidence_run_ledger.py and
    scripts/ga/complete_verified_final_evidence_run_ledger.py. */
module RunDiscovery {
  import opened Collections

  const GATE_COUNT := 11
  const SEEDED_ORDER := ["validation-summary", "signed-release"]
  const SEEDED_GATES := {"validation-summary", "signed-release"}
  const FROZEN_HEAD := "3ffc6b6d7cd58d64224f780aa819b50f50f72491"

  datatype Run = Run(id: int, name: string, event: string, status: string, conclusion: string, headSha: string)

  datatype Artifact = Artifact(id: int, name: string, expired: bool)

  datatype Source = Source(workflow: string, artifact: string)

  /** What both implementations read: the listed runs and the artifacts of each run id. */
  datatype Evidence = Evidence(runs: seq<Run>, artifacts: map<int, seq<Artifact>>)

  /** The live artifacts of that name, in listing order. */
  function Matches(artifacts: seq<Artifact>, name: string): seq<Artifact> {
    if artifacts == [] then []
    else
      var last := artifacts[|artifacts| - 1];
      Matches(artifacts[..|artifacts| - 1], name) +
      if last.name == name && !last.expired && last.id > 0 then [last] else []
  }

  function ArtifactsOf(artifacts: map<int, seq<Artifact>>, id: int): seq<Artifact> {
    if id in artifacts then artifacts[id] else []
  }

  /** Python's `lower` as far as a commit id goes: only ASCII letters fold to hexadecimal digits. */
  function Lower(s: string): string {
    seq(|s|, i requires 0 <= i < |s| => if 'A' <= s[i] <= 'Z' then s[i] - 'A' + 'a' else s[i])
  }

  predicate Eligible(source: Source, head: string, artifacts: map<int, seq<Artifact>>, run: Run) {
    && run.name == source.workflow && run.event == "workflow_dispatch"
    && run.status == "completed" && run.conclusion == "success" && Lower(run.headSha) == head
    && run.id > 0
    && |Matches(ArtifactsOf(artifacts, run.id), source.artifact)| == 1
  }

  /** The ids of the eligible runs, in listing order. */
  ghost function Candidates(source: Source, head: string, ev: Evidence): seq<int>
    decreases |ev.runs|
  {
    if ev.runs == [] then []
    else
      var last := ev.runs[|ev.runs| - 1];
      Candidates(source, head, ev.(runs := ev.runs[..|ev.runs| - 1])) +
      if Eligible(source, head, ev.artifacts, last) then [last.id] else []
  }

  /** What a gate-to-run selection must be. No two gates share a run, and each gate's run is its only
      candidate. */
  ghost predicate Selects(gates: seq<string>, sources: map<string, Source>, head: string, ev: Evidence,
                          ledger: map<string, int>)
  {
    && ledger.Keys == Elements(gates) && Distinct(gates)
    && (forall g | g in gates :: g in sources && Candidates(sources[g], head, ev) == [ledger[g]])
    && Injective(ledger)
  }

  ghost predicate Injective(ledger: map<string, int>) {
    forall g, h | g in ledger && h in ledger && ledger[g] == ledger[h] :: g == h
  }

  // ----- what makes a run the one for a gate, from the listings alone -----

  /** An unexpired artifact of that name, with a real id. */
  function Live(name: string): Artifact -> bool {
    (a: Artifact) => a.name == name && !a.expired && a.id > 0
  }

  function Itself(): Artifact -> Artifact {
    (a: Artifact) => a
  }

  function IdOf(): Run -> int {
    (run: Run) => run.id
  }

  /** A successful dispatch of the source's workflow at this head. */
  ghost predicate Dispatched(source: Source, head: string, run: Run) {
    && run.name == source.workflow && run.event == "workflow_dispatch" && run.status == "completed"
    && run.conclusion == "success" && Lower(run.headSha) == head && run.id > 0
  }

  /** Exactly one position of the run's artifact list holds a live artifact of that name. */
  ghost predicate HasOneLive(artifacts: map<int, seq<Artifact>>, id: int, name: string) {
    id in artifacts && exists i: nat :: OnlyAt(artifacts[id], Live(name), i)
  }

  ghost function Qualifies(source: Source, head: string, artifacts: map<int, seq<Artifact>>): Run -> bool {
    (run: Run) => Dispatched(source, head, run) && HasOneLive(artifacts, run.id, source.artifact)
  }

  /** The id belongs to the only listed run that qualifies. */
  ghost predicate SoleRun(source: Source, head: string, ev: Evidence, id: int) {
    exists i: nat :: OnlyAt(ev.runs, Qualifies(source, head, ev.artifacts), i) && ev.runs[i].id == id
  }

  lemma {:induction false} MatchesLists(artifacts: seq<Artifact>, name: string)
    ensures Lists(artifacts, Live(name), Itself(), Matches(artifacts, name))
  {
    hide Lists;
    if artifacts == [] {
      ListsNone(Live(name), Itself());
    } else {
      var front, last := artifacts[..|artifacts| - 1], artifacts[|artifacts| - 1];
      MatchesLists(front, name);
      ListsOneMore(front, last, Live(name), Itself(), Matches(front, name));
      assert artifacts == front + [last];
    }
  }

  lemma EligibleIff(source: Source, head: string, artifacts: map<int, seq<Artifact>>, run: Run)
    ensures Eligible(source, head, artifacts, run) <==> Qualifies(source, head, artifacts)(run)
  {
    hide Lists, Matches, Live;
    var listed := ArtifactsOf(artifacts, run.id);
    MatchesLists(listed, source.artifact);
    ListsOne(listed, Live(source.artifact), Itself(), Matches(listed, source.artifact));
  }

  lemma {:induction false} CandidatesList(source: Source, head: string, ev: Evidence)
    ensures Lists(ev.runs, Qualifies(source, head, ev.artifacts), IdOf(), Candidates(source, head, ev))
    decreases |ev.runs|
  {
    hide Lists, Eligible, Qualifies;
    if ev.runs == [] {
      ListsNone(Qualifies(source, head, ev.artifacts), IdOf());
    } else {
      var front, last := ev.(runs := ev.runs[..|ev.runs| - 1]), ev.runs[|ev.runs| - 1];
      CandidatesList(source, head, front);
      EligibleIff(source, head, ev.artifacts, last);
      ListsOneMore(front.runs, last, Qualifies(source, head, ev.artifacts), IdOf(), Candidates(source, head, front));
      assert ev.runs == front.runs + [last];
    }
  }

  lemma SoleRunIff(source: Source, head: string, ev: Evidence, id: int)
    ensures Candidates(source, head, ev) == [id] <==> SoleRun(source, head, ev, id)
  {
    hide Lists, Qualifies;
    CandidatesList(source, head, ev);
    ListsOne(ev.runs, Qualifies(source, head, ev.artifacts), IdOf(), Candidates(source, head, ev));
  }

  /** A selection, stated on the listings: every gate has one qualifying run and no run serves two. */
  ghost predicate SelectsSole(gates: seq<string>, sources: map<string, Source>, head: string, ev: Evidence,
                              ledger: map<string, int>)
  {
    && ledger.Keys == Elements(gates) && Distinct(gates)
    && (forall g | g in gates :: g in sources && SoleRun(sources[g], head, ev, ledger[g]))
    && Injective(ledger)
  }

  lemma SelectsIff(gates: seq<string>, sources: map<string, Source>, head: string, ev: Evidence, ledger: map<string, int>)
    ensures Selects(gates, sources, head, ev, ledger) <==> SelectsSole(gates, sources, head, ev, ledger)
  {
    hide Candidates, SoleRun, Injective;
    if ledger.Keys == Elements(gates) {
      forall g | g in gates && g in sources
        ensures Candidates(sources[g], head, ev) == [ledger[g]] <==> SoleRun(sources[g], head, ev, ledger[g])
      {
        assert g in Elements(gates);
        SoleRunIff(sources[g], head, ev, ledger[g]);
      }
    }
  }

  /** Lower-casing keeps length and everything that is not an upper-case letter, and folds the alphabet. */
  lemma LowerLaws(s: string)
    ensures |Lower(s)| == |s| && Lower(Lower(s)) == Lower(s)
    ensures forall i | 0 <= i < |s| && !('A' <= s[i] <= 'Z') :: Lower(s)[i] == s[i]
    ensures Lower("ABCDEFGHIJKLMNOPQRSTUVWXYZ") == "abcdefghijklmnopqrstuvwxyz"
  {
  }

  /** The inner loop of `discover`. */
  method CollectCandidates(source: Source, head: string, ev: Evidence) returns (candidates: seq<int>)
    ensures candidates == Candidates(source, head, ev)
    ensures Lists(ev.runs, Qualifies(source, head, ev.artifacts), IdOf(), candidates)
  {
    hide Lists, Qualifies;
    CandidatesList(source, head, ev);
    candidates := [];
    for i := 0 to |ev.runs|
      invariant candidates == Candidates(source, head, ev.(runs := ev.runs[..i]))
    {
      var run := ev.runs[i];
      assert ev.runs[..i + 1][..i] == ev.runs[..i];
      if Eligible(source, head, ev.artifacts, run) { candidates := candidates + [run.id]; }
    }
    assert ev.runs[..|ev.runs|] == ev.runs;
  }

  lemma {:induction false} CandidatesArePositive(source: Source, head: string, ev: Evidence)
    ensures forall id | id in Candidates(source, head, ev) :: id > 0
    decreases |ev.runs|
  {
    if ev.runs != [] { CandidatesArePositive(source, head, ev.(runs := ev.runs[..|ev.runs| - 1])); }
  }

  predicate IsHead(head: string) {
    |head| == 40 && forall i | 0 <= i < 40 :: '0' <= head[i] <= '9' || 'a' <= head[i] <= 'f'
  }

  lemma HeadIff(head: string)
    ensures IsHead(head) <==> |head| == 40 && forall i | 0 <= i < |head| :: head[i] in "0123456789abcdef"
  {
    var hex := "0123456789abcdef";
    forall c: char | '0' <= c <= '9' ensures c in hex { assert hex[c as int - '0' as int] == c; }
    forall c: char | 'a' <= c <= 'f' ensures c in hex { assert hex[c as int - 'a' as int + 10] == c; }
  }

  /** `discover`, for a contract of the right kind: it returns the selection at the lower-cased head
      exactly when there is one. */
  method Discover(gates: seq<string>, sources: map<string, Source>, executionHead: string, ev: Evidence)
    returns (r: Result<map<string, int>>)
    ensures r.Ok? ==>
      && IsHead(Lower(executionHead)) && |gates| == GATE_COUNT
      && SelectsSole(gates, sources, Lower(executionHead), ev, r.value)
    ensures r.Raised? ==>
      || !IsHead(Lower(executionHead)) || |gates| != GATE_COUNT
      || forall ledger :: !SelectsSole(gates, sources, Lower(executionHead), ev, ledger)
  {
    var head := Lower(executionHead);
    if !IsHead(head) || |gates| != GATE_COUNT { return Raised; }
    hide SelectsSole;
    r := SelectAll(gates, sources, head, ev);
    forall ledger ensures Selects(gates, sources, head, ev, ledger) <==> SelectsSole(gates, sources, head, ev, ledger) {
      SelectsIff(gates, sources, head, ev, ledger);
    }
  }

  /** The loop over the gates. */
  method SelectAll(gates: seq<string>, sources: map<string, Source>, head: string, ev: Evidence)
    returns (r: Result<map<string, int>>)
    ensures r.Ok? ==> Selects(gates, sources, head, ev, r.value)
    ensures r.Raised? ==> forall ledger :: !Selects(gates, sources, head, ev, ledger)
  {
    var ledger: map<string, int> := map[];
    var selected: seq<int> := [];
    for i := 0 to |gates|
      invariant Selects(gates[..i], sources, head, ev, ledger)
      invariant forall id :: id in selected <==> id in ledger.Values
    {
      var gate := gates[i];
      assert gate in gates;
      if gate !in sources { return Raised; }
      var candidates := CollectCandidates(sources[gate], head, ev);
      if |candidates| != 1 { return Raised; }
      var id := candidates[0];
      assert candidates == [id];
      if id in selected {
        NoSelection(gates, sources, head, ev, i, ledger, id);
        return Raised;
      }
      assert gates[..i + 1] == gates[..i] + [gate];
      SelectsExtend(gates[..i], sources, head, ev, ledger, gate, id);
      selected := selected + [id];
      ledger := ledger[gate := id];
    }
    assert gates[..|gates|] == gates;
    return Ok(ledger);
  }

  lemma SelectsExtend(gates: seq<string>, sources: map<string, Source>, head: string, ev: Evidence,
                      ledger: map<string, int>, gate: string, id: int)
    requires Selects(gates, sources, head, ev, ledger)
    requires gate in sources && Candidates(sources[gate], head, ev) == [id] && id !in ledger.Values
    ensures Selects(gates + [gate], sources, head, ev, ledger[gate := id])
    ensures ledger[gate := id].Values == ledger.Values + {id}
  {
    hide Candidates;
    assert gate !in gates;
    assert Elements(gates + [gate]) == Elements(gates) + {gate};
    InjectiveExtend(ledger, gate, id);
  }

  lemma InjectiveExtend(ledger: map<string, int>, gate: string, id: int)
    requires Injective(ledger) && gate !in ledger && id !in ledger.Values
    ensures Injective(ledger[gate := id]) && ledger[gate := id].Values == ledger.Values + {id}
  {
    var more := ledger[gate := id];
    assert forall g | g in ledger :: more[g] == ledger[g] && more[g] in ledger.Values;
    assert more[gate] == id;
    forall v | v in ledger.Values ensures v in more.Values {
      var g :| g in ledger && ledger[g] == v;
      assert more[g] == v;
    }
  }

  /** A run already taken by an earlier gate rules every selection out. */
  lemma NoSelection(gates: seq<string>, sources: map<string, Source>, head: string, ev: Evidence,
                    i: nat, ledger: map<string, int>, id: int)
    requires i < |gates| && Selects(gates[..i], sources, head, ev, ledger) && id in ledger.Values
    requires gates[i] in sources && Candidates(sources[gates[i]], head, ev) == [id]
    ensures forall other :: !Selects(gates, sources, head, ev, other)
  {
    var g :| g in ledger && ledger[g] == id;
    assert g in gates[..i];
    var j :| 0 <= j < i && gates[j] == g;
    assert Distinct(gates) ==> g in gates && gates[i] in gates && g != gates[i];
  }

  // ----- what the selection depends on -----

  lemma {:induction false} CandidatesConcat(source: Source, head: string, artifacts: map<int, seq<Artifact>>,
                                            a: seq<Run>, b: seq<Run>)
    ensures Candidates(source, head, Evidence(a + b, artifacts))
         == Candidates(source, head, Evidence(a, artifacts)) + Candidates(source, head, Evidence(b, artifacts))
  {
    if b == [] {
      assert a + b == a;
    } else {
      CandidatesConcat(source, head, artifacts, a, b[..|b| - 1]);
      assert (a + b)[..|a + b| - 1] == a + b[..|b| - 1];
    }
  }

  /** Where a run stands in the listing does not matter to the multiset of candidates. */
  lemma CandidatesWithRun(source: Source, head: string, artifacts: map<int, seq<Artifact>>,
                          l: seq<Run>, x: Run, r: seq<Run>)
    ensures multiset(Candidates(source, head, Evidence(l + [x] + r, artifacts)))
         == multiset(Candidates(source, head, Evidence(l + r, artifacts)))
            + multiset(Candidates(source, head, Evidence([x], artifacts)))
  {
    hide Candidates;
    CandidatesConcat(source, head, artifacts, l, r);
    CandidatesConcat(source, head, artifacts, l + [x], r);
    CandidatesConcat(source, head, artifacts, l, [x]);
  }

  lemma {:induction false} CandidatesPermutation(source: Source, head: string, artifacts: map<int, seq<Artifact>>,
                                                 a: seq<Run>, b: seq<Run>)
    requires multiset(a) == multiset(b)
    ensures multiset(Candidates(source, head, Evidence(a, artifacts)))
         == multiset(Candidates(source, head, Evidence(b, artifacts)))
    decreases |a|
  {
    hide Candidates;
    PermutationKeepsElements(a, b);
    if a == [] {
      assert b == [];
    } else {
      var x, rest := a[|a| - 1], a[..|a| - 1];
      var l, r := PermutationSplit(a, b);
      assert a == rest + [x] + [] && rest == rest + [];
      CandidatesPermutation(source, head, artifacts, rest, l + r);
      CandidatesWithRun(source, head, artifacts, rest, x, []);
      CandidatesWithRun(source, head, artifacts, l, x, r);
    }
  }

  lemma SingletonPermutation(s: seq<int>, t: seq<int>, x: int)
    requires multiset(s) == multiset(t) && s == [x]
    ensures t == [x]
  {
    PermutationKeepsElements(s, t);
    assert x in Elements(t);
  }

  /** Discovery depends only on the multiset of runs (and on the artifacts), not on listing order. */
  lemma DiscoveryIgnoresOrder(gates: seq<string>, sources: map<string, Source>, head: string,
                              artifacts: map<int, seq<Artifact>>, a: seq<Run>, b: seq<Run>, ledger: map<string, int>)
    requires multiset(a) == multiset(b)
    requires Selects(gates, sources, head, Evidence(a, artifacts), ledger)
    ensures Selects(gates, sources, head, Evidence(b, artifacts), ledger)
  {
    forall g | g in gates ensures Candidates(sources[g], head, Evidence(b, artifacts)) == [ledger[g]] {
      CandidatesPermutation(sources[g], head, artifacts, a, b);
      SingletonPermutation(Candidates(sources[g], head, Evidence(a, artifacts)),
                           Candidates(sources[g], head, Evidence(b, artifacts)), ledger[g]);
    }
  }

  ghost function Keep(runs: seq<Run>, keep: Run -> bool): seq<Run> {
    if runs == [] then []
    else Keep(runs[..|runs| - 1], keep) + if keep(runs[|runs| - 1]) then [runs[|runs| - 1]] else []
  }

  lemma {:induction false} CandidatesOfKept(source: Source, head: string, ev: Evidence, keep: Run -> bool)
    requires forall run | run in ev.runs && Eligible(source, head, ev.artifacts, run) :: keep(run)
    ensures Candidates(source, head, ev.(runs := Keep(ev.runs, keep))) == Candidates(source, head, ev)
    decreases |ev.runs|
  {
    if ev.runs != [] {
      var front, last := ev.runs[..|ev.runs| - 1], ev.runs[|ev.runs| - 1];
      var kept := Keep(front, keep);
      CandidatesOfKept(source, head, Evidence(front, ev.artifacts), keep);
      assert ev.runs == front + [last] && ev == Evidence(front + [last], ev.artifacts);
      CandidatesConcat(source, head, ev.artifacts, front, [last]);
      assert [last][..0] == [];
      if keep(last) {
        CandidatesConcat(source, head, ev.artifacts, kept, [last]);
        assert Keep(ev.runs, keep) == kept + [last];
      } else {
        assert Keep(ev.runs, keep) == kept;
        assert Candidates(source, head, Evidence([], ev.artifacts)) == [];
        assert Candidates(source, head, Evidence([last], ev.artifacts)) == [];
      }
    }
  }

  /** Dropping runs that no gate could use changes nothing. */
  lemma DiscoveryIgnoresIneligibleRuns(gates: seq<string>, sources: map<string, Source>, head: string, ev: Evidence,
                                       keep: Run -> bool, ledger: map<string, int>)
    requires forall g, run | g in gates && g in sources && run in ev.runs && Eligible(sources[g], head, ev.artifacts, run)
      :: keep(run)
    ensures Selects(gates, sources, head, ev, ledger)
       <==> Selects(gates, sources, head, ev.(runs := Keep(ev.runs, keep)), ledger)
  {
    forall g | g in gates && g in sources
      ensures Candidates(sources[g], head, ev.(runs := Keep(ev.runs, keep))) == Candidates(sources[g], head, ev)
    {
      CandidatesOfKept(sources[g], head, ev, keep);
    }
  }

  // ----- completing a seeded ledger -----

  /** The second id is that of the run's only live artifact of the source's name. */
  ghost predicate SoleArtifact(source: Source, artifacts: map<int, seq<Artifact>>, pair: (int, int)) {
    pair.0 in artifacts && exists i: nat ::
      OnlyAt(artifacts[pair.0], Live(source.artifact), i) && artifacts[pair.0][i].id == pair.1
  }

  lemma SoleMatch(source: Source, artifacts: map<int, seq<Artifact>>, id: int)
    requires |Matches(ArtifactsOf(artifacts, id), source.artifact)| == 1
    ensures SoleArtifact(source, artifacts, (id, Matches(ArtifactsOf(artifacts, id), source.artifact)[0].id))
  {
    hide Lists, Live;
    var listed := ArtifactsOf(artifacts, id);
    var matches := Matches(listed, source.artifact);
    MatchesLists(listed, source.artifact);
    ListsOne(listed, Live(source.artifact), Itself(), matches);
    var i: nat :| OnlyAt(listed, Live(source.artifact), i);
    assert matches == [listed[i]];
  }

  /** `_eligible_candidate`: the eligible runs with the id of their single matching artifact. */
  method EligibleCandidates(source: Source, head: string, ev: Evidence) returns (pairs: seq<(int, int)>)
    ensures |pairs| == |Candidates(source, head, ev)|
    ensures forall k | 0 <= k < |pairs| :: pairs[k].0 == Candidates(source, head, ev)[k]
    ensures forall k | 0 <= k < |pairs| ::
      SoleArtifact(source, ev.artifacts, pairs[k])
  {
    pairs := [];
    for i := 0 to |ev.runs|
      invariant |pairs| == |Candidates(source, head, ev.(runs := ev.runs[..i]))|
      invariant forall k | 0 <= k < |pairs| :: pairs[k].0 == Candidates(source, head, ev.(runs := ev.runs[..i]))[k]
      invariant forall k | 0 <= k < |pairs| ::
        SoleArtifact(source, ev.artifacts, pairs[k])
    {
      var run := ev.runs[i];
      assert ev.runs[..i + 1][..i] == ev.runs[..i];
      if Eligible(source, head, ev.artifacts, run) {
        var matches := Matches(ArtifactsOf(ev.artifacts, run.id), source.artifact);
        SoleMatch(source, ev.artifacts, run.id);
        pairs := pairs + [(run.id, matches[0].id)];
      }
    }
    assert ev.runs[..|ev.runs|] == ev.runs;
  }

  /** A seed ledger. `genuine` stands for its identity, its head, its provenance block and its eleven
      entries agreeing with the contract; `present` are the gates that have a run id, in ledger order. */
  datatype Seed = Seed(genuine: bool, present: seq<(string, int)>)
  {
    function Gates(): seq<string> {
      seq(|present|, i requires 0 <= i < |present| => present[i].0)
    }

    function Runs(): map<string, int> {
      map g | g in Gates() :: RunOf(present, g)
    }
  }

  /** The run id of the last entry for a gate. */
  function RunOf(present: seq<(string, int)>, gate: string): int {
    if present == [] then 0
    else if present[|present| - 1].0 == gate then present[|present| - 1].1
    else RunOf(present[..|present| - 1], gate)
  }

  /** Positive, distinct run ids for exactly the seeded gates of a contract of eleven gates. */
  ghost predicate GoodRuns(gates: seq<string>, sources: map<string, Source>, seed: map<string, int>) {
    && |gates| == GATE_COUNT && Distinct(gates) && sources.Keys == Elements(gates)
    && seed.Keys == SEEDED_GATES && SEEDED_GATES <= Elements(gates)
    && (forall g | g in seed :: seed[g] > 0) && Injective(seed)
  }

  ghost predicate GoodSeed(gates: seq<string>, sources: map<string, Source>, seed: Seed) {
    seed.genuine && seed.Gates() == SEEDED_ORDER && GoodRuns(gates, sources, seed.Runs())
  }

  /** An accepted seed, entry by entry. */
  lemma GoodSeedMeans(gates: seq<string>, sources: map<string, Source>, seed: Seed)
    requires GoodSeed(gates, sources, seed)
    ensures seed.genuine && |gates| == 11 && Distinct(gates) && sources.Keys == Elements(gates) && |seed.present| == 2
    ensures seed.present[0].0 == "validation-summary" && seed.present[1].0 == "signed-release"
    ensures seed.present[0].1 > 0 && seed.present[1].1 > 0 && seed.present[0].1 != seed.present[1].1
    ensures seed.Runs()["validation-summary"] == seed.present[0].1 && seed.Runs()["signed-release"] == seed.present[1].1
  {
    var a, b := "validation-summary", "signed-release";
    assert a != b by { assert |a| != |b|; }
    assert |seed.present| == |seed.Gates()| == 2;
    assert seed.Gates()[0] == a && seed.Gates()[1] == b;
    assert seed.present[..1] == [seed.present[0]];
    assert RunOf(seed.present, b) == seed.present[1].1;
    assert RunOf(seed.present[..1], a) == seed.present[0].1 && RunOf(seed.present, a) == seed.present[0].1;
    assert a in seed.Runs() && b in seed.Runs();
  }

  /** What completion must produce: the seeded gates untouched, every other gate its only candidate at
      the frozen head, and no run used twice. */
  ghost predicate Completes(gates: seq<string>, sources: map<string, Source>, seed: Seed, ev: Evidence,
                            ledger: map<string, int>)
  {
    && GoodSeed(gates, sources, seed)
    && ledger.Keys == Elements(gates) && Injective(ledger)
    && (forall g | g in gates && g in SEEDED_GATES :: ledger[g] == seed.Runs()[g])
    && (forall g | g in gates && g !in SEEDED_GATES :: Candidates(sources[g], FROZEN_HEAD, ev) == [ledger[g]])
  }

  /** `_validate_seed` with the repository validator it calls. */
  method ValidateSeed(gates: seq<string>, sources: map<string, Source>, seed: Seed) returns (ok: bool)
    ensures ok <==> GoodSeed(gates, sources, seed)
  {
    if !seed.genuine || seed.Gates() != SEEDED_ORDER { return false; }
    var runs := seed.Runs();
    assert runs.Keys == SEEDED_GATES by { SeededGates(); assert runs.Keys == Elements(seed.Gates()); }
    CardinalityCountsDistinct(gates);
    ok := && |gates| == GATE_COUNT && |Elements(gates)| == |gates| && sources.Keys == Elements(gates)
          && SEEDED_GATES <= Elements(gates) && (forall g | g in runs :: runs[g] > 0);
    if ok {
      var a, b := "validation-summary", "signed-release";
      assert a != b by { assert |a| != |b|; }
      assert runs.Values == {runs[a], runs[b]};
      ok := |runs.Values| == 2;
      assert ok <==> runs[a] != runs[b];
    }
  }

  lemma SeededGates()
    ensures Elements(SEEDED_ORDER) == SEEDED_GATES
  {
    assert SEEDED_ORDER == [SEEDED_ORDER[0], SEEDED_ORDER[1]];
  }

  /** A completion, stated on the listings: every unseeded gate has one qualifying run at the frozen head. */
  ghost predicate CompletesSole(gates: seq<string>, sources: map<string, Source>, seed: Seed, ev: Evidence,
                                ledger: map<string, int>)
  {
    && GoodSeed(gates, sources, seed)
    && ledger.Keys == Elements(gates) && Injective(ledger)
    && (forall g | g in gates && g in SEEDED_GATES :: ledger[g] == seed.Runs()[g])
    && (forall g | g in gates && g !in SEEDED_GATES :: SoleRun(sources[g], FROZEN_HEAD, ev, ledger[g]))
  }

  lemma CompletesIff(gates: seq<string>, sources: map<string, Source>, seed: Seed, ev: Evidence, ledger: map<string, int>)
    ensures Completes(gates, sources, seed, ev, ledger) <==> CompletesSole(gates, sources, seed, ev, ledger)
  {
    hide Candidates, SoleRun, Injective;
    if GoodSeed(gates, sources, seed) && ledger.Keys == Elements(gates) {
      forall g | g in gates
        ensures g in sources && g in ledger
        ensures Candidates(sources[g], FROZEN_HEAD, ev) == [ledger[g]] <==> SoleRun(sources[g], FROZEN_HEAD, ev, ledger[g])
      {
        assert g in Elements(gates);
        SoleRunIff(sources[g], FROZEN_HEAD, ev, ledger[g]);
      }
    }
  }

  /** `complete`: returns a completion exactly when there is one. */
  method Complete(gates: seq<string>, sources: map<string, Source>, seed: Seed, ev: Evidence)
    returns (r: Result<map<string, int>>)
    ensures r.Ok? ==> CompletesSole(gates, sources, seed, ev, r.value)
    ensures r.Raised? ==> forall ledger :: !CompletesSole(gates, sources, seed, ev, ledger)
  {
    hide GoodSeed, SoleRun, Candidates, Injective;
    var good := ValidateSeed(gates, sources, seed);
    if !good { return Raised; }
    hide Completes, CompletesSole;
    r := SelectRemaining(gates, sources, seed, ev);
    forall ledger
      ensures Completes(gates, sources, seed, ev, ledger) <==> CompletesSole(gates, sources, seed, ev, ledger)
    {
      CompletesIff(gates, sources, seed, ev, ledger);
    }
  }

  /** The selection loop over the missing gates of an accepted seed. */
  method SelectRemaining(gates: seq<string>, sources: map<string, Source>, seed: Seed, ev: Evidence)
    returns (r: Result<map<string, int>>)
    requires GoodSeed(gates, sources, seed)
    ensures r.Ok? ==> Completes(gates, sources, seed, ev, r.value)
    ensures r.Raised? ==> forall ledger :: !Completes(gates, sources, seed, ev, ledger)
  {
    hide Candidates, Completes, PartlyCompletes, GoodRuns, Injective;
    var ledger := seed.Runs();
    PartlyStart(gates, sources, seed, ev);
    for i := 0 to |gates|
      invariant PartlyCompletes(gates, sources, seed.Runs(), ev, i, ledger)
    {
      var gate := gates[i];
      SourceKnown(gates, sources, seed, i);
      if gate !in SEEDED_GATES {
        var candidates := EligibleCandidates(sources[gate], FROZEN_HEAD, ev);
        if |candidates| != 1 {
          AmbiguousGate(gates, sources, seed, ev, i);
          return Raised;
        }
        var id := candidates[0].0;
        assert Candidates(sources[gate], FROZEN_HEAD, ev) == [id];
        if id in ledger.Values {
          NoCompletion(gates, sources, seed, ev, i, ledger, id);
          return Raised;
        }
        PartlyExtend(gates, sources, seed.Runs(), ev, i, ledger, id);
        ledger := ledger[gate := id];
      } else {
        PartlySkip(gates, sources, seed.Runs(), ev, i, ledger);
      }
    }
    PartlyAll(gates, sources, seed, ev, ledger);
    return Ok(ledger);
  }

  lemma SourceKnown(gates: seq<string>, sources: map<string, Source>, seed: Seed, i: nat)
    requires i < |gates| && GoodSeed(gates, sources, seed)
    ensures gates[i] in sources
  {
    assert gates[i] in Elements(gates);
  }

  ghost predicate PartlyCompletes(gates: seq<string>, sources: map<string, Source>, seed: map<string, int>,
                                  ev: Evidence, i: nat, ledger: map<string, int>)
  {
    && i <= |gates| && ledger.Keys == SEEDED_GATES + Elements(gates[..i]) && Injective(ledger)
    && (forall g | g in SEEDED_GATES :: g in seed && ledger[g] == seed[g])
    && (forall j | 0 <= j < i && gates[j] !in SEEDED_GATES ::
          gates[j] in sources && gates[j] in ledger
          && Candidates(sources[gates[j]], FROZEN_HEAD, ev) == [ledger[gates[j]]])
  }

  lemma PartlyStart(gates: seq<string>, sources: map<string, Source>, seed: Seed, ev: Evidence)
    requires GoodSeed(gates, sources, seed)
    ensures PartlyCompletes(gates, sources, seed.Runs(), ev, 0, seed.Runs())
  {
  }

  /** A gate without exactly one candidate rules every completion out. */
  lemma AmbiguousGate(gates: seq<string>, sources: map<string, Source>, seed: Seed, ev: Evidence, i: nat)
    requires i < |gates| && gates[i] !in SEEDED_GATES && gates[i] in sources
    requires |Candidates(sources[gates[i]], FROZEN_HEAD, ev)| != 1
    ensures forall other :: !Completes(gates, sources, seed, ev, other)
  {
    hide Candidates, GoodSeed;
    assert gates[i] in gates;
  }

  lemma PartlyExtend(gates: seq<string>, sources: map<string, Source>, seed: map<string, int>, ev: Evidence,
                     i: nat, ledger: map<string, int>, id: int)
    requires GoodRuns(gates, sources, seed) && i < |gates| && PartlyCompletes(gates, sources, seed, ev, i, ledger)
    requires gates[i] in sources && gates[i] !in SEEDED_GATES && id !in ledger.Values
    requires Candidates(sources[gates[i]], FROZEN_HEAD, ev) == [id]
    ensures PartlyCompletes(gates, sources, seed, ev, i + 1, ledger[gates[i] := id])
  {
    hide Candidates, Injective, GoodRuns;
    NotYetSelected(gates, sources, seed, ev, i, ledger);
    InjectiveExtend(ledger, gates[i], id);
    var more := ledger[gates[i] := id];
    assert gates[..i + 1] == gates[..i] + [gates[i]];
    assert more.Keys == SEEDED_GATES + Elements(gates[..i + 1]);
  }

  lemma NotYetSelected(gates: seq<string>, sources: map<string, Source>, seed: map<string, int>, ev: Evidence,
                       i: nat, ledger: map<string, int>)
    requires GoodRuns(gates, sources, seed) && i < |gates| && PartlyCompletes(gates, sources, seed, ev, i, ledger)
    requires gates[i] !in SEEDED_GATES
    ensures gates[i] !in ledger
  {
    assert forall j | 0 <= j < i :: gates[j] != gates[i];
  }

  lemma PartlySkip(gates: seq<string>, sources: map<string, Source>, seed: map<string, int>, ev: Evidence,
                   i: nat, ledger: map<string, int>)
    requires i < |gates| && PartlyCompletes(gates, sources, seed, ev, i, ledger) && gates[i] in SEEDED_GATES
    ensures PartlyCompletes(gates, sources, seed, ev, i + 1, ledger)
  {
    assert gates[..i + 1] == gates[..i] + [gates[i]];
  }

  lemma PartlyAll(gates: seq<string>, sources: map<string, Source>, seed: Seed, ev: Evidence,
                  ledger: map<string, int>)
    requires GoodSeed(gates, sources, seed) && PartlyCompletes(gates, sources, seed.Runs(), ev, |gates|, ledger)
    ensures Completes(gates, sources, seed, ev, ledger)
  {
    assert gates[..|gates|] == gates;
    forall g | g in gates && g !in SEEDED_GATES ensures Candidates(sources[g], FROZEN_HEAD, ev) == [ledger[g]] {
      var j :| 0 <= j < |gates| && gates[j] == g;
    }
  }

  lemma NoCompletion(gates: seq<string>, sources: map<string, Source>, seed: Seed, ev: Evidence,
                     i: nat, ledger: map<string, int>, id: int)
    requires GoodSeed(gates, sources, seed) && i < |gates| && PartlyCompletes(gates, sources, seed.Runs(), ev, i, ledger)
    requires gates[i] !in SEEDED_GATES && Candidates(sources[gates[i]], FROZEN_HEAD, ev) == [id]
    requires id in ledger.Values
    ensures forall other :: !Completes(gates, sources, seed, ev, other)
  {
    var g :| g in ledger && ledger[g] == id;
    if g in SEEDED_GATES {
      assert g in Elements(gates);
    } else {
      assert g in gates[..i];
      var j :| 0 <= j < i && gates[j] == g;
    }
    assert g in gates && gates[i] in gates && g != gates[i];
  }

  // ----- agreement -----

  function SeedOf(ledger: map<string, int>): Seed
    requires SEEDED_GATES <= ledger.Keys
  {
    Seed(true, [("validation-summary", ledger["validation-summary"]), ("signed-release", ledger["signed-release"])])
  }

  lemma SeedOfRuns(ledger: map<string, int>)
    requires SEEDED_GATES <= ledger.Keys
    ensures SeedOf(ledger).Gates() == SEEDED_ORDER && SeedOf(ledger).Runs().Keys == SEEDED_GATES
    ensures forall g | g in SEEDED_GATES :: SeedOf(ledger).Runs()[g] == ledger[g]
  {
    var seed := SeedOf(ledger);
    SeededGates();
    assert seed.Gates() == SEEDED_ORDER;
    assert seed.Runs().Keys == Elements(seed.Gates());
    var a, b := "validation-summary", "signed-release";
    assert a != b by { assert |a| != |b|; }
    assert seed.present[..1] == [seed.present[0]];
    assert RunOf(seed.present, b) == ledger[b];
    assert RunOf(seed.present[..1], a) == ledger[a] && RunOf(seed.present, a) == ledger[a];
  }

  /** The two implementations agree: a ledger is discovered at the frozen head exactly when completing
      its own two seeded gates yields it and those two gates are unambiguous as well. */
  lemma DiscoverAgreesWithComplete(gates: seq<string>, sources: map<string, Source>, ev: Evidence,
                                   ledger: map<string, int>)
    requires |gates| == GATE_COUNT && Distinct(gates) && sources.Keys == Elements(gates)
    requires SEEDED_GATES <= Elements(gates) == ledger.Keys
    ensures Selects(gates, sources, FROZEN_HEAD, ev, ledger) <==>
      && Completes(gates, sources, SeedOf(ledger), ev, ledger)
      && forall g | g in SEEDED_GATES :: Candidates(sources[g], FROZEN_HEAD, ev) == [ledger[g]]
  {
    SeedOfRuns(ledger);
    if Selects(gates, sources, FROZEN_HEAD, ev, ledger) {
      SelectionSeeds(gates, sources, ev, ledger);
    }
    hide Candidates, SeedOf, Injective;
    assert forall g :: g in gates <==> g in Elements(gates);
  }

  /** The seeded gates of a selection make a good seed. */
  lemma SelectionSeeds(gates: seq<string>, sources: map<string, Source>, ev: Evidence, ledger: map<string, int>)
    requires |gates| == GATE_COUNT && Distinct(gates) && sources.Keys == Elements(gates)
    requires SEEDED_GATES <= Elements(gates) == ledger.Keys
    requires Selects(gates, sources, FROZEN_HEAD, ev, ledger)
    ensures GoodSeed(gates, sources, SeedOf(ledger))
  {
    SeedOfRuns(ledger);
    forall g | g in SEEDED_GATES ensures ledger[g] > 0 {
      assert g in Elements(gates);
      CandidatesArePositive(sources[g], FROZEN_HEAD, ev);
      assert ledger[g] in [ledger[g]];
    }
    hide Candidates, SeedOf;
  }

  /** A selection uses eleven distinct runs. */
  lemma ElevenDistinctRuns(gates: seq<string>, ledger: map<string, int>)
    requires |gates| == GATE_COUNT && Distinct(gates) && ledger.Keys == Elements(gates) && Injective(ledger)
    ensures |ledger.Values| == GATE_COUNT
  {
    var ids := seq(|gates|, i requires 0 <= i < |gates| => assert gates[i] in Elements(gates); ledger[gates[i]]);
    CardinalityCountsDistinct(ids);
    assert Elements(ids) == ledger.Values by {
      forall v | v in ledger.Values ensures v in ids {
        var g :| g in ledger && ledger[g] == v;
        assert g in gates;
        var i :| 0 <= i < |gates| && gates[i] == g;
        assert ids[i] == v;
      }
      forall v | v in ids ensures v in ledger.Values {
        var i :| 0 <= i < |ids| && ids[i] == v;
        assert gates[i] in ledger;
      }
    }
  }
}
