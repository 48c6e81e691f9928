/** Composing partial material maps (scripts/ga/compose_partial_production_ga_material_map.py). */
module MaterialMap {
  import opened Collections
  import opened Readiness

  /** Environment, kind and name of one piece of material. */
  type Identity = (string, Kind, string)

  datatype Entry = Entry(identity: Identity, path: string)

  /** `genuine` stands for the schema, kind and version tests. The nested objects of a fragment are its
      environment keys and, flattened in reading order, its entries. */
  datatype Fragment = Fragment(
    genuine: bool, name: string, environments: set<string>, entries: seq<Entry>, checkCount: int)

  datatype Composed = Composed(fragmentCount: nat, environments: set<string>, checkCount: nat, material: map<Identity, string>)

  // ----- what the contract declares -----

  function DeclaredBy(env: Environment): set<Identity> {
    (set n | n in env.secrets :: (env.name, Secret, n)) + (set n | n in env.vars :: (env.name, Var, n))
  }

  function Declared(envs: seq<Environment>): set<Identity> {
    if envs == [] then {} else Declared(envs[..|envs| - 1]) + DeclaredBy(envs[|envs| - 1])
  }

  function DeclaredTotal(envs: seq<Environment>): nat {
    if envs == [] then 0
    else
      var last := envs[|envs| - 1];
      DeclaredTotal(envs[..|envs| - 1]) + |Elements(last.secrets)| + |Elements(last.vars)|
  }

  lemma {:induction false} ImageCardinality(env: string, kind: Kind, names: set<string>)
    ensures |set n | n in names :: (env, kind, n)| == |names|
  {
    if names == {} {
      assert (set n | n in names :: (env, kind, n)) == {};
    } else {
      var x :| x in names;
      ImageCardinality(env, kind, names - {x});
      assert (set n | n in names :: (env, kind, n)) == (set n | n in names - {x} :: (env, kind, n)) + {(env, kind, x)};
    }
  }

  lemma DeclaredByCardinality(env: Environment)
    ensures |DeclaredBy(env)| == |Elements(env.secrets)| + |Elements(env.vars)|
    ensures forall id | id in DeclaredBy(env) :: id.0 == env.name
  {
    ImageCardinality(env.name, Secret, Elements(env.secrets));
    ImageCardinality(env.name, Var, Elements(env.vars));
    assert DeclaredBy(env) == (set n | n in Elements(env.secrets) :: (env.name, Secret, n))
                            + (set n | n in Elements(env.vars) :: (env.name, Var, n));
  }

  /** An identity is declared exactly when some environment of that name lists it under that kind. */
  lemma {:induction false} DeclaredIff(envs: seq<Environment>, id: Identity)
    ensures id in Declared(envs) <==> exists i | 0 <= i < |envs| ::
      envs[i].name == id.0 && id.2 in if id.1 == Secret then envs[i].secrets else envs[i].vars
  {
    if envs != [] {
      var front, last := envs[..|envs| - 1], envs[|envs| - 1];
      DeclaredIff(front, id);
      assert forall i | 0 <= i < |front| :: front[i] == envs[i];
      assert id in DeclaredBy(last) <==> last.name == id.0 && id.2 in if id.1 == Secret then last.secrets else last.vars;
    }
  }

  lemma {:induction false} DeclaredNames(envs: seq<Environment>, id: Identity)
    requires id in Declared(envs)
    ensures exists i | 0 <= i < |envs| :: envs[i].name == id.0
  {
    var front, last := envs[..|envs| - 1], envs[|envs| - 1];
    if id in DeclaredBy(last) {
      DeclaredByCardinality(last);
    } else {
      DeclaredNames(front, id);
    }
  }

  lemma {:induction false} DeclaredCardinality(envs: seq<Environment>)
    requires DistinctNames(envs)
    ensures |Declared(envs)| == DeclaredTotal(envs)
  {
    hide DeclaredBy;
    if envs != [] {
      var front, last := envs[..|envs| - 1], envs[|envs| - 1];
      DeclaredCardinality(front);
      DeclaredByCardinality(last);
      forall id | id in DeclaredBy(last) ensures id !in Declared(front) {
        if id in Declared(front) { DeclaredNames(front, id); assert false; }
      }
    }
  }

  ghost predicate GoodRequirements(envs: seq<Environment>) {
    && |envs| == ENVIRONMENT_COUNT && DistinctNames(envs) && (forall i | 0 <= i < |envs| :: envs[i].name != "")
    && DeclaredTotal(envs) == CHECK_COUNT
  }

  lemma DeclaredStep(envs: seq<Environment>, i: nat)
    requires i < |envs|
    ensures Declared(envs[..i + 1]) == Declared(envs[..i]) + DeclaredBy(envs[i])
    ensures DeclaredTotal(envs[..i + 1])
         == DeclaredTotal(envs[..i]) + |Elements(envs[i].secrets)| + |Elements(envs[i].vars)|
  {
    assert envs[..i + 1][..i] == envs[..i];
  }

  /** `_requirements`: an accepted contract declares exactly forty-one identities. */
  method Requirements(envs: seq<Environment>) returns (r: Result<set<Identity>>)
    ensures r.Ok? <==> GoodRequirements(envs)
    ensures r.Ok? ==> r.value == Declared(envs) && |r.value| == CHECK_COUNT
  {
    var named := CheckNames(envs);
    if !named { return Raised; }
    var declared: set<Identity> := {};
    var total := 0;
    for i := 0 to |envs|
      invariant declared == Declared(envs[..i]) && total == DeclaredTotal(envs[..i])
    {
      hide Declared, DeclaredTotal, DeclaredBy;
      DeclaredStep(envs, i);
      declared := declared + DeclaredBy(envs[i]);
      total := total + |Elements(envs[i].secrets)| + |Elements(envs[i].vars)|;
    }
    assert envs[..|envs|] == envs;
    if total != CHECK_COUNT { return Raised; }
    DeclaredCardinality(envs);
    return Ok(declared);
  }

  // ----- entries -----

  function Entries(fragments: seq<Fragment>): seq<Entry> {
    if fragments == [] then []
    else Entries(fragments[..|fragments| - 1]) + fragments[|fragments| - 1].entries
  }

  ghost function Ids(es: seq<Entry>): set<Identity> {
    set e | e in es :: e.identity
  }

  /** Declared, resolvable and named only once. `resolve` is the check that a path is a safe external
      file; it yields the path to record. */
  ghost predicate GoodEntries(declared: set<Identity>, resolve: string -> Option<string>, es: seq<Entry>) {
    && (forall e | e in es :: e.identity in declared && e.path != "" && resolve(e.path).Some?)
    && forall i, j :: 0 <= i < j < |es| ==> es[i].identity != es[j].identity
  }

  function Material(resolve: string -> Option<string>, es: seq<Entry>): map<Identity, string> {
    if es == [] then map[]
    else
      var last := es[|es| - 1];
      Material(resolve, es[..|es| - 1])[last.identity := if resolve(last.path).Some? then resolve(last.path).value else ""]
  }

  lemma GoodEntriesParts(declared: set<Identity>, resolve: string -> Option<string>, a: seq<Entry>, b: seq<Entry>)
    requires GoodEntries(declared, resolve, a + b)
    ensures GoodEntries(declared, resolve, a) && GoodEntries(declared, resolve, b) && Ids(a) !! Ids(b)
  {
    var c := a + b;
    assert forall i | 0 <= i < |a| :: a[i] == c[i];
    assert forall i | 0 <= i < |b| :: b[i] == c[|a| + i];
    assert forall e | e in a || e in b :: e in c;
    forall x | x in Ids(a) ensures x !in Ids(b) {
      var e :| e in a && e.identity == x;
      var i :| 0 <= i < |a| && a[i] == e;
      assert forall j | 0 <= j < |b| :: b[j] == c[|a| + j] && c[i].identity != b[j].identity;
    }
  }

  lemma GoodEntriesConcat(declared: set<Identity>, resolve: string -> Option<string>, a: seq<Entry>, b: seq<Entry>)
    ensures GoodEntries(declared, resolve, a + b) <==>
      GoodEntries(declared, resolve, a) && GoodEntries(declared, resolve, b) && Ids(a) !! Ids(b)
    ensures Ids(a + b) == Ids(a) + Ids(b)
  {
    var c := a + b;
    if GoodEntries(declared, resolve, c) { GoodEntriesParts(declared, resolve, a, b); }
    if GoodEntries(declared, resolve, a) && GoodEntries(declared, resolve, b) && Ids(a) !! Ids(b) {
      forall i, j | 0 <= i < j < |c| ensures c[i].identity != c[j].identity {
        if i < |a| <= j {
          assert a[i] in a && b[j - |a|] in b;
          assert c[i].identity in Ids(a) && c[j].identity in Ids(b);
        }
      }
    }
  }

  lemma {:induction false} MaterialKeys(resolve: string -> Option<string>, es: seq<Entry>)
    ensures Material(resolve, es).Keys == Ids(es)
  {
    if es != [] {
      var front, last := es[..|es| - 1], es[|es| - 1];
      MaterialKeys(resolve, front);
      assert es == front + [last];
    }
  }

  lemma {:induction false} MaterialLookup(declared: set<Identity>, resolve: string -> Option<string>, es: seq<Entry>, i: nat)
    requires GoodEntries(declared, resolve, es) && i < |es|
    ensures es[i].identity in Material(resolve, es)
    ensures resolve(es[i].path) == Some(Material(resolve, es)[es[i].identity])
  {
    var front, last := es[..|es| - 1], es[|es| - 1];
    assert es == front + [last] && last in es;
    if i < |es| - 1 {
      GoodEntriesConcat(declared, resolve, front, [last]);
      MaterialLookup(declared, resolve, front, i);
    }
  }

  lemma {:induction false} MaterialCardinality(declared: set<Identity>, resolve: string -> Option<string>, es: seq<Entry>)
    requires GoodEntries(declared, resolve, es)
    ensures |Material(resolve, es)| == |es| && Ids(es) <= declared
  {
    MaterialKeys(resolve, es);
    if es != [] {
      var front, last := es[..|es| - 1], es[|es| - 1];
      assert es == front + [last];
      GoodEntriesConcat(declared, resolve, front, [last]);
      MaterialCardinality(declared, resolve, front);
      MaterialKeys(resolve, front);
      assert last.identity in Ids([last]) && last in es;
    }
  }

  // ----- composition -----

  lemma GoodEntriesOne(declared: set<Identity>, resolve: string -> Option<string>, e: Entry)
    ensures GoodEntries(declared, resolve, [e]) <==> e.identity in declared && e.path != "" && resolve(e.path).Some?
    ensures Ids([e]) == {e.identity}
  {
    assert e in [e];
  }

  lemma GoodEntriesStep(declared: set<Identity>, resolve: string -> Option<string>, done: seq<Entry>, es: seq<Entry>, i: nat)
    requires i < |es|
    ensures GoodEntries(declared, resolve, done + es[..i + 1]) <==>
      && GoodEntries(declared, resolve, done + es[..i])
      && es[i].identity in declared && es[i].path != "" && resolve(es[i].path).Some?
      && es[i].identity !in Material(resolve, done + es[..i])
    ensures GoodEntries(declared, resolve, done + es) ==> GoodEntries(declared, resolve, done + es[..i + 1])
  {
    hide GoodEntries;
    var e := es[i];
    GoodEntriesOne(declared, resolve, e);
    assert done + es[..i + 1] == (done + es[..i]) + [e];
    GoodEntriesConcat(declared, resolve, done + es[..i], [e]);
    MaterialKeys(resolve, done + es[..i]);
    assert done + es == (done + es[..i + 1]) + es[i + 1..];
    GoodEntriesConcat(declared, resolve, done + es[..i + 1], es[i + 1..]);
  }

  /** Adds a fragment's mappings to what has been composed so far. */
  lemma MaterialStep(resolve: string -> Option<string>, done: seq<Entry>, es: seq<Entry>, i: nat)
    requires i < |es| && resolve(es[i].path).Some?
    ensures Material(resolve, done + es[..i + 1])
         == Material(resolve, done + es[..i])[es[i].identity := resolve(es[i].path).value]
  {
    assert (done + es[..i + 1])[..|done| + i] == done + es[..i];
  }

  method AddEntries(declared: set<Identity>, resolve: string -> Option<string>, ghost done: seq<Entry>, es: seq<Entry>,
                    material: map<Identity, string>) returns (r: Result<map<Identity, string>>)
    requires material == Material(resolve, done) && GoodEntries(declared, resolve, done)
    ensures r.Ok? <==> GoodEntries(declared, resolve, done + es)
    ensures r.Ok? ==> r.value == Material(resolve, done + es)
  {
    hide GoodEntries, Material;
    var target := material;
    assert done + es[..0] == done;
    for i := 0 to |es|
      invariant target == Material(resolve, done + es[..i]) && GoodEntries(declared, resolve, done + es[..i])
    {
      var e := es[i];
      GoodEntriesStep(declared, resolve, done, es, i);
      MaterialKeys(resolve, done + es[..i]);
      if e.identity !in declared || e.identity in target || e.path == "" { return Raised; }
      var safe := resolve(e.path);
      if safe.None? { return Raised; }
      MaterialStep(resolve, done, es, i);
      target := target[e.identity := safe.value];
    }
    assert es[..|es|] == es;
    return Ok(target);
  }

  /** The fragment's own fields are right. */
  ghost predicate WellShaped(names: set<string>, f: Fragment) {
    && f.genuine && f.name != "" && f.environments != {} && f.environments <= names
    && f.checkCount == |f.entries|
  }

  /** The body of the fragment loop, after the fragment's name was found new. */
  method AddFragment(declared: set<Identity>, names: set<string>, resolve: string -> Option<string>, ghost done: seq<Entry>,
                     f: Fragment, material: map<Identity, string>) returns (r: Result<map<Identity, string>>)
    requires material == Material(resolve, done) && GoodEntries(declared, resolve, done)
    ensures r.Ok? <==> WellShaped(names, f) && GoodEntries(declared, resolve, done + f.entries)
    ensures r.Ok? ==> r.value == Material(resolve, done + f.entries)
  {
    hide GoodEntries, Material;
    if !f.genuine || f.name == "" || f.environments == {} { return Raised; }
    if exists e | e in f.environments :: e !in names { return Raised; }
    r := AddEntries(declared, resolve, done, f.entries, material);
    if f.checkCount != |f.entries| { return Raised; }
  }

  ghost predicate DistinctFragments(fragments: seq<Fragment>) {
    forall i, j :: 0 <= i < j < |fragments| ==> fragments[i].name != fragments[j].name
  }

  ghost function Environments(fragments: seq<Fragment>): set<string> {
    set f, e | f in fragments && e in f.environments :: e
  }

  ghost predicate Parts(envs: seq<Environment>, resolve: string -> Option<string>, fragments: seq<Fragment>) {
    && (forall f | f in fragments :: WellShaped(EnvironmentNames(envs), f))
    && DistinctFragments(fragments) && GoodEntries(Declared(envs), resolve, Entries(fragments))
  }

  /** When fragments compose; nothing here depends on their order. */
  ghost predicate Composable(envs: seq<Environment>, resolve: string -> Option<string>, fragments: seq<Fragment>) {
    && GoodRequirements(envs) && fragments != [] && Parts(envs, resolve, fragments)
    && 1 <= |Entries(fragments)| < CHECK_COUNT
  }

  ghost function Composition(resolve: string -> Option<string>, fragments: seq<Fragment>): Composed {
    Composed(|fragments|, Environments(fragments), |Entries(fragments)|, Material(resolve, Entries(fragments)))
  }

  lemma DistinctFragmentsStep(fragments: seq<Fragment>, i: nat)
    requires i < |fragments|
    ensures DistinctFragments(fragments[..i + 1]) <==>
      DistinctFragments(fragments[..i]) && forall f | f in fragments[..i] :: f.name != fragments[i].name
    ensures DistinctFragments(fragments) ==> DistinctFragments(fragments[..i + 1])
  {
    var front, more := fragments[..i], fragments[..i + 1];
    assert forall j | 0 <= j < i :: more[j] == front[j] && front[j] in front;
  }

  lemma EntriesFront(fragments: seq<Fragment>, i: nat)
    requires i < |fragments|
    ensures Entries(fragments[..i + 1]) == Entries(fragments[..i]) + fragments[i].entries
  {
    assert fragments[..i + 1][..i] == fragments[..i];
  }

  lemma EntriesStep(declared: set<Identity>, resolve: string -> Option<string>, fragments: seq<Fragment>, i: nat)
    requires i < |fragments|
    ensures GoodEntries(declared, resolve, Entries(fragments)) ==> GoodEntries(declared, resolve, Entries(fragments[..i + 1]))
    ensures GoodEntries(declared, resolve, Entries(fragments[..i + 1])) ==> GoodEntries(declared, resolve, Entries(fragments[..i]))
  {
    hide *;
    EntriesFront(fragments, i);
    EntriesConcat(fragments[..i + 1], fragments[i + 1..]);
    assert fragments == fragments[..i + 1] + fragments[i + 1..];
    GoodEntriesConcat(declared, resolve, Entries(fragments[..i + 1]), Entries(fragments[i + 1..]));
    GoodEntriesConcat(declared, resolve, Entries(fragments[..i]), fragments[i].entries);
  }

  lemma PartsStep(envs: seq<Environment>, resolve: string -> Option<string>, fragments: seq<Fragment>, i: nat)
    requires i < |fragments|
    ensures Entries(fragments[..i + 1]) == Entries(fragments[..i]) + fragments[i].entries
    ensures Parts(envs, resolve, fragments[..i + 1]) <==>
      && Parts(envs, resolve, fragments[..i]) && WellShaped(EnvironmentNames(envs), fragments[i])
      && (forall f | f in fragments[..i] :: f.name != fragments[i].name)
      && GoodEntries(Declared(envs), resolve, Entries(fragments[..i]) + fragments[i].entries)
    ensures Parts(envs, resolve, fragments) ==> Parts(envs, resolve, fragments[..i + 1])
  {
    hide WellShaped, GoodEntries, Entries, Declared, DistinctFragments;
    var front, more := fragments[..i], fragments[..i + 1];
    assert more == front + [fragments[i]];
    EntriesFront(fragments, i);
    EntriesStep(Declared(envs), resolve, fragments, i);
    DistinctFragmentsStep(fragments, i);
  }

  lemma AppendAssociates(a: seq<Entry>, b: seq<Entry>, c: seq<Entry>)
    ensures (a + b) + c == a + (b + c)
  {
  }

  lemma {:induction false} EntriesConcat(a: seq<Fragment>, b: seq<Fragment>)
    ensures Entries(a + b) == Entries(a) + Entries(b)
  {
    if b == [] {
      assert a + b == a;
    } else {
      var front, last, c := b[..|b| - 1], b[|b| - 1], a + b;
      EntriesConcat(a, front);
      assert c[..|c| - 1] == a + front && c[|c| - 1] == last;
      AppendAssociates(Entries(a), Entries(front), last.entries);
    }
  }

  /** `compose`: succeeds exactly on composable fragments, with their disjoint union. */
  method Compose(envs: seq<Environment>, resolve: string -> Option<string>, fragments: seq<Fragment>)
    returns (r: Result<Composed>)
    ensures r.Ok? <==> Composable(envs, resolve, fragments)
    ensures r.Ok? ==> r.value == Composition(resolve, fragments)
  {
    hide Parts, GoodRequirements, Declared, GoodEntries, WellShaped, Entries, Material;
    var required := Requirements(envs);
    if required.Raised? || fragments == [] { return Raised; }
    var declared, names := required.value, EnvironmentNames(envs);
    var material: map<Identity, string> := map[];
    var environments: set<string> := {};
    var seen: set<string> := {};
    NoParts(envs, resolve);
    assert fragments[..0] == [];
    for i := 0 to |fragments|
      invariant Parts(envs, resolve, fragments[..i]) && GoodEntries(declared, resolve, Entries(fragments[..i]))
      invariant material == Material(resolve, Entries(fragments[..i])) && environments == Environments(fragments[..i])
      invariant seen == set f | f in fragments[..i] :: f.name
    {
      var f := fragments[i];
      PartsStep(envs, resolve, fragments, i);
      assert fragments[..i + 1] == fragments[..i] + [f];
      if f.name in seen { return Raised; }
      var added := AddFragment(declared, names, resolve, Entries(fragments[..i]), f, material);
      if added.Raised? { return Raised; }
      seen := seen + {f.name};
      material := added.value;
      EnvironmentsStep(fragments, i);
      environments := environments + f.environments;
    }
    assert fragments[..|fragments|] == fragments;
    PartsEntries(envs, resolve, fragments);
    MaterialCardinality(declared, resolve, Entries(fragments));
    if |material| == 0 || |material| >= CHECK_COUNT { return Raised; }
    return Ok(Composed(|fragments|, environments, |material|, material));
  }

  lemma PartsEntries(envs: seq<Environment>, resolve: string -> Option<string>, fragments: seq<Fragment>)
    ensures Parts(envs, resolve, fragments) ==> GoodEntries(Declared(envs), resolve, Entries(fragments))
  {
  }

  lemma EnvironmentsStep(fragments: seq<Fragment>, i: nat)
    requires i < |fragments|
    ensures Environments(fragments[..i + 1]) == Environments(fragments[..i]) + fragments[i].environments
  {
    var front, more := fragments[..i], fragments[..i + 1];
    assert more == front + [fragments[i]];
    assert fragments[i] in more && forall f | f in front :: f in more;
  }

  lemma NoParts(envs: seq<Environment>, resolve: string -> Option<string>)
    ensures Parts(envs, resolve, []) && GoodEntries(Declared(envs), resolve, Entries([]))
    ensures Material(resolve, Entries([])) == map[]
  {
  }

  // ----- what composition is -----

  lemma {:induction false} EntriesPermutation(a: seq<Fragment>, b: seq<Fragment>)
    requires multiset(a) == multiset(b)
    ensures multiset(Entries(a)) == multiset(Entries(b))
    decreases |a|
  {
    hide Entries;
    if a == [] {
      PermutationKeepsElements(a, b);
      assert b == [];
    } else {
      var x, rest := a[|a| - 1], a[..|a| - 1];
      var l, r := PermutationSplit(a, b);
      EntriesPermutation(rest, l + r);
      EntriesWithFragment(rest, x, []);
      assert a == rest + [x] + [] && rest + [] == rest;
      EntriesWithFragment(l, x, r);
    }
  }

  lemma EntriesWithFragment(l: seq<Fragment>, x: Fragment, r: seq<Fragment>)
    ensures multiset(Entries(l + [x] + r)) == multiset(Entries(l + r)) + multiset(Entries([x]))
  {
    hide Entries;
    EntriesConcat(l + [x], r);
    EntriesConcat(l, [x]);
    EntriesConcat(l, r);
  }

  function IdentitySeq(es: seq<Entry>): seq<Identity> {
    seq(|es|, i requires 0 <= i < |es| => es[i].identity)
  }

  lemma MaterialWithin(declared: set<Identity>, resolve: string -> Option<string>, a: seq<Entry>, b: seq<Entry>, x: Identity)
    requires GoodEntries(declared, resolve, a) && GoodEntries(declared, resolve, b)
    requires (forall e | e in a :: e in b) && x in Ids(a)
    ensures x in Material(resolve, a) && x in Material(resolve, b) && Material(resolve, a)[x] == Material(resolve, b)[x]
  {
    hide GoodEntries, Material;
    var e :| e in a && e.identity == x;
    var i :| 0 <= i < |a| && a[i] == e;
    var j :| 0 <= j < |b| && b[j] == e;
    MaterialLookup(declared, resolve, a, i);
    MaterialLookup(declared, resolve, b, j);
  }

  lemma GoodEntriesPermutation(declared: set<Identity>, resolve: string -> Option<string>, a: seq<Entry>, b: seq<Entry>)
    requires multiset(a) == multiset(b) && GoodEntries(declared, resolve, a)
    ensures GoodEntries(declared, resolve, b) && Material(resolve, a) == Material(resolve, b)
  {
    hide GoodEntries, Material;
    PermutationKeepsElements(a, b);
    forall e ensures e in a <==> e in b {
      assert e in a <==> e in Elements(a);
      assert e in b <==> e in Elements(b);
    }
    DistinctIdentities(declared, resolve, a, b);
    MaterialKeys(resolve, a);
    MaterialKeys(resolve, b);
    forall x | x in Ids(a) ensures Material(resolve, a)[x] == Material(resolve, b)[x] {
      MaterialWithin(declared, resolve, a, b, x);
    }
  }

  lemma DistinctIdentities(declared: set<Identity>, resolve: string -> Option<string>, a: seq<Entry>, b: seq<Entry>)
    requires GoodEntries(declared, resolve, a) && |a| == |b| && forall e :: e in a <==> e in b
    ensures GoodEntries(declared, resolve, b)
  {
    CardinalityCountsDistinct(IdentitySeq(a));
    CardinalityCountsDistinct(IdentitySeq(b));
    assert forall i | 0 <= i < |a| :: a[i].identity == IdentitySeq(a)[i];
    assert forall i | 0 <= i < |b| :: b[i].identity == IdentitySeq(b)[i];
    assert Elements(IdentitySeq(a)) == Elements(IdentitySeq(b)) by {
      IdentitiesWithin(a, b);
      IdentitiesWithin(b, a);
    }
  }

  lemma IdentitiesWithin(a: seq<Entry>, b: seq<Entry>)
    requires forall e | e in a :: e in b
    ensures Elements(IdentitySeq(a)) <= Elements(IdentitySeq(b))
  {
    forall x | x in IdentitySeq(a) ensures x in IdentitySeq(b) {
      var i :| 0 <= i < |a| && IdentitySeq(a)[i] == x;
      assert a[i] in a;
      var j :| 0 <= j < |b| && b[j] == a[i];
      assert IdentitySeq(b)[j] == x;
    }
  }

  lemma DistinctFragmentsPermutation(a: seq<Fragment>, b: seq<Fragment>)
    requires multiset(a) == multiset(b) && DistinctFragments(a)
    ensures DistinctFragments(b)
  {
    PermutationKeepsElements(a, b);
    assert forall i, j | 0 <= i < j < |a| :: a[i] != a[j];
    forall i, j | 0 <= i < j < |b| ensures b[i].name != b[j].name {
      assert b[i] in Elements(a) && b[j] in Elements(a) && b[i] != b[j];
      var k :| 0 <= k < |a| && a[k] == b[i];
      var l :| 0 <= l < |a| && a[l] == b[j];
      assert k != l;
    }
  }

  /** Composition is the same for every order of the fragments. */
  lemma CompositionIgnoresOrder(envs: seq<Environment>, resolve: string -> Option<string>, a: seq<Fragment>, b: seq<Fragment>)
    requires multiset(a) == multiset(b) && Composable(envs, resolve, a)
    ensures Composable(envs, resolve, b) && Composition(resolve, a) == Composition(resolve, b)
  {
    hide GoodEntries, WellShaped, Entries, Material, GoodRequirements, DistinctFragments;
    EntriesPermutation(a, b);
    PermutationKeepsElements(Entries(a), Entries(b));
    PermutationKeepsElements(a, b);
    forall f ensures f in a <==> f in b {
      assert f in a <==> f in Elements(a);
      assert f in b <==> f in Elements(b);
    }
    GoodEntriesPermutation(Declared(envs), resolve, Entries(a), Entries(b));
    DistinctFragmentsPermutation(a, b);
  }

  lemma EntriesOne(f: Fragment)
    ensures Entries([f]) == f.entries
  {
    assert [f][..0] == [];
  }

  /** The identities before, in and after one fragment. */
  lemma SplitAt(declared: set<Identity>, resolve: string -> Option<string>, fragments: seq<Fragment>, i: nat)
    requires i < |fragments| && GoodEntries(declared, resolve, Entries(fragments))
    ensures GoodEntries(declared, resolve, Entries(fragments[..i]))
    ensures Ids(Entries(fragments[..i])) !! Ids(fragments[i].entries)
    ensures Ids(fragments[i].entries) <= Ids(Entries(fragments))
    ensures Ids(Entries(fragments[..i])) <= Ids(Entries(fragments))
  {
    hide GoodEntries, Entries;
    var l, x, r := fragments[..i], fragments[i], fragments[i + 1..];
    assert fragments == (l + [x]) + r;
    EntriesConcat(l + [x], r);
    EntriesConcat(l, [x]);
    EntriesOne(x);
    GoodEntriesConcat(declared, resolve, Entries(l + [x]), Entries(r));
    GoodEntriesConcat(declared, resolve, Entries(l), Entries([x]));
  }

  lemma {:induction false} EntriesMembers(fragments: seq<Fragment>)
    ensures forall e :: e in Entries(fragments) <==> exists f | f in fragments :: e in f.entries
  {
    if fragments != [] {
      EntriesMembers(fragments[..|fragments| - 1]);
      assert fragments == fragments[..|fragments| - 1] + [fragments[|fragments| - 1]];
    }
  }

  lemma FragmentsAreDisjoint(envs: seq<Environment>, resolve: string -> Option<string>, fragments: seq<Fragment>, i: nat, j: nat)
    requires Composable(envs, resolve, fragments) && i < j < |fragments|
    ensures Ids(fragments[i].entries) !! Ids(fragments[j].entries)
  {
    hide GoodEntries, Entries, Material, WellShaped, Declared, DistinctFragments;
    SplitAt(Declared(envs), resolve, fragments, j);
    SplitAt(Declared(envs), resolve, fragments[..j], i);
  }

  /** The composed map is the disjoint union of the fragments: no two fragments share an identity, every
      entry of every fragment is recorded with its own path, and nothing else is. */
  lemma CompositionIsDisjointUnion(envs: seq<Environment>, resolve: string -> Option<string>, fragments: seq<Fragment>)
    requires Composable(envs, resolve, fragments)
    ensures forall i, j | 0 <= i < j < |fragments| :: Ids(fragments[i].entries) !! Ids(fragments[j].entries)
    ensures var material := Composition(resolve, fragments).material;
            && (forall f, e | f in fragments && e in f.entries ::
                  e.identity in material && resolve(e.path) == Some(material[e.identity]))
            && (forall id | id in material :: exists f, e | f in fragments && e in f.entries :: e.identity == id)
  {
    forall i, j | 0 <= i < j < |fragments| ensures Ids(fragments[i].entries) !! Ids(fragments[j].entries) {
      FragmentsAreDisjoint(envs, resolve, fragments, i, j);
    }
    hide Material, WellShaped, Declared, DistinctFragments;
    var es := Entries(fragments);
    EntriesMembers(fragments);
    MaterialKeys(resolve, es);
    forall f, e | f in fragments && e in f.entries
      ensures e.identity in Material(resolve, es) && resolve(e.path) == Some(Material(resolve, es)[e.identity])
    {
      assert e in es;
      var k :| 0 <= k < |es| && es[k] == e;
      MaterialLookup(Declared(envs), resolve, es, k);
    }
  }

  function DeclaredChecks(fragments: seq<Fragment>): int {
    if fragments == [] then 0 else DeclaredChecks(fragments[..|fragments| - 1]) + fragments[|fragments| - 1].checkCount
  }

  /** Every fragment that composes is genuine, named, of known environments and counts its entries right. */
  lemma ComposableMeans(envs: seq<Environment>, resolve: string -> Option<string>, fragments: seq<Fragment>, f: Fragment)
    requires Composable(envs, resolve, fragments) && f in fragments
    ensures f.genuine && f.name != "" && f.environments != {} && f.checkCount == |f.entries|
    ensures forall e | e in f.environments :: exists i | 0 <= i < |envs| :: envs[i].name == e
    ensures forall e | e in f.entries ::
      && e.path != "" && resolve(e.path).Some?
      && exists i | 0 <= i < |envs| ::
           envs[i].name == e.identity.0
           && e.identity.2 in if e.identity.1 == Secret then envs[i].secrets else envs[i].vars
  {
    hide Entries, Declared;
    forall e | e in f.environments ensures exists i | 0 <= i < |envs| :: envs[i].name == e {
      var env :| env in envs && env.name == e;
      var i :| 0 <= i < |envs| && envs[i] == env;
    }
    EntriesMembers(fragments);
    forall e | e in f.entries
      ensures e.path != "" && resolve(e.path).Some? && e.identity in Declared(envs)
    {
      assert e in Entries(fragments);
    }
    forall e | e in f.entries
      ensures exists i | 0 <= i < |envs| ::
                envs[i].name == e.identity.0
                && e.identity.2 in if e.identity.1 == Secret then envs[i].secrets else envs[i].vars
    {
      DeclaredIff(envs, e.identity);
    }
  }

  lemma {:induction false} CountsAdd(names: set<string>, fragments: seq<Fragment>)
    requires forall f | f in fragments :: WellShaped(names, f)
    ensures DeclaredChecks(fragments) == |Entries(fragments)|
  {
    if fragments != [] {
      CountsAdd(names, fragments[..|fragments| - 1]);
      assert fragments[|fragments| - 1] in fragments;
    }
  }

  /** The declared counts add up to the result's, and the result is a nonempty strict part of the
      forty-one contract identities. */
  lemma CompositionIsPartial(envs: seq<Environment>, resolve: string -> Option<string>, fragments: seq<Fragment>)
    requires Composable(envs, resolve, fragments)
    ensures var c := Composition(resolve, fragments);
            && c.checkCount == |c.material| == DeclaredChecks(fragments) && c.fragmentCount == |fragments|
            && (forall e :: e in c.environments <==> exists f | f in fragments :: e in f.environments)
            && {} < c.material.Keys < Declared(envs) && |Declared(envs)| == CHECK_COUNT
  {
    hide GoodEntries, WellShaped, Entries, Material, Declared, DeclaredTotal, DistinctFragments, DeclaredChecks;
    var es := Entries(fragments);
    CountsAdd(EnvironmentNames(envs), fragments);
    MaterialCardinality(Declared(envs), resolve, es);
    MaterialKeys(resolve, es);
    DeclaredCardinality(envs);
    var keys := Material(resolve, es).Keys;
    assert |keys| == |Material(resolve, es)| && keys <= Declared(envs);
    assert keys != Declared(envs) && keys != {};
  }
}
