/** Facts about finite collections that several parts of the release machinery rely on:
    Python's `len(set(xs)) == len(xs)` uniqueness test, and permutations as multisets. */
module Collections {

  datatype Option<+T> = None | Some(value: T)

  /** The outcome of a call that either returns a value or raises. */
  datatype Result<+T> = Raised | Ok(value: T)

  function Elements<T>(s: seq<T>): set<T> {
    set x | x in s
  }

  lemma SomeElement<T>(s: seq<T>)
    ensures s == [] || exists x :: x in s
  {
    if s != [] { assert s[0] in s; }
  }

  ghost predicate Distinct<T>(s: seq<T>) {
    forall i, j :: 0 <= i < j < |s| ==> s[i] != s[j]
  }

  lemma {:induction false} CardinalityCountsDistinct<T>(s: seq<T>)
    ensures |Elements(s)| <= |s|
    ensures |Elements(s)| == |s| <==> Distinct(s)
  {
    if s != [] {
      var front, last := s[..|s| - 1], s[|s| - 1];
      CardinalityCountsDistinct(front);
      assert s == front + [last];
      assert Elements(s) == Elements(front) + {last};
      if last in front {
        assert Elements(s) == Elements(front);
        var i :| 0 <= i < |front| && front[i] == last;
        assert s[i] == s[|s| - 1];
      }
    }
  }

  lemma {:induction false} DistinctMultiplicity<T>(s: seq<T>, x: T)
    requires Distinct(s)
    ensures multiset(s)[x] == if x in s then 1 else 0
  {
    if s != [] {
      var front, last := s[..|s| - 1], s[|s| - 1];
      assert s == front + [last];
      DistinctMultiplicity(front, x);
      assert last !in front;
    }
  }

  /** Two duplicate-free sequences over the same elements are permutations of each other. */
  lemma DistinctSameElements<T>(s: seq<T>, t: seq<T>)
    requires Distinct(s) && Distinct(t) && Elements(s) == Elements(t)
    ensures multiset(s) == multiset(t)
  {
    forall x ensures multiset(s)[x] == multiset(t)[x] {
      DistinctMultiplicity(s, x);
      DistinctMultiplicity(t, x);
      assert x in s <==> x in Elements(s);
      assert x in t <==> x in Elements(t);
    }
  }

  lemma PermutationKeepsElements<T>(s: seq<T>, t: seq<T>)
    requires multiset(s) == multiset(t)
    ensures Elements(s) == Elements(t) && |s| == |t|
    ensures Distinct(s) <==> Distinct(t)
  {
    assert forall x :: x in s <==> x in multiset(s);
    assert forall x :: x in t <==> x in multiset(t);
    assert Elements(s) == Elements(t);
    assert |multiset(s)| == |s| && |multiset(t)| == |t|;
    CardinalityCountsDistinct(s);
    CardinalityCountsDistinct(t);
  }

  /** A permutation of `a` is `a` without its last element, with that element put somewhere. */
  lemma PermutationSplit<T>(a: seq<T>, b: seq<T>) returns (l: seq<T>, r: seq<T>)
    requires multiset(a) == multiset(b) && a != []
    ensures b == l + [a[|a| - 1]] + r
    ensures multiset(a[..|a| - 1]) == multiset(l + r)
  {
    var x := a[|a| - 1];
    PermutationKeepsElements(a, b);
    assert x in Elements(b);
    var j :| 0 <= j < |b| && b[j] == x;
    l, r := b[..j], b[j + 1..];
    assert a == a[..|a| - 1] + [x];
    assert b == l + [x] + r;
    assert multiset(l + r) == multiset(b) - multiset{x};
    assert multiset(a[..|a| - 1]) == multiset(a) - multiset{x};
  }

  /** Pigeonhole: a subset as large as the whole is the whole. */
  lemma FullSubset<T>(part: set<T>, whole: set<T>)
    requires part <= whole && |part| >= |whole|
    ensures part == whole
  {
    assert whole == part + (whole - part);
    assert |whole| == |part| + |whole - part|;
  }

  /** Every finite set can be listed without repetition. */
  lemma {:induction false} ListingExists<T>(s: set<T>) returns (rows: seq<T>)
    ensures Distinct(rows) && Elements(rows) == s
  {
    if s == {} {
      rows := [];
    } else {
      var x :| x in s;
      var rest := ListingExists(s - {x});
      rows := [x] + rest;
      assert forall r :: r in rest <==> r in Elements(rest);
    }
  }

  // ----- dictionaries built from rows -----

  /** `{key(x): x for x in s}`: the last row for a key wins. */
  function TableBy<K, T>(s: seq<T>, key: T -> K): map<K, T> {
    if s == [] then map[] else TableBy(s[..|s| - 1], key)[key(s[|s| - 1]) := s[|s| - 1]]
  }

  ghost predicate DistinctBy<K, T>(s: seq<T>, key: T -> K) {
    forall i, j :: 0 <= i < j < |s| ==> key(s[i]) != key(s[j])
  }

  lemma {:induction false} TableRows<K, T>(s: seq<T>, key: T -> K)
    ensures forall k | k in TableBy(s, key) :: TableBy(s, key)[k] in s && key(TableBy(s, key)[k]) == k
    ensures forall x | x in s :: key(x) in TableBy(s, key)
  {
    if s != [] {
      TableRows(s[..|s| - 1], key);
      assert s == s[..|s| - 1] + [s[|s| - 1]];
    }
  }

  lemma TableLookup<K, T>(s: seq<T>, key: T -> K, x: T)
    requires DistinctBy(s, key) && x in s
    ensures key(x) in TableBy(s, key) && TableBy(s, key)[key(x)] == x
  {
    TableRows(s, key);
    var y := TableBy(s, key)[key(x)];
    var i :| 0 <= i < |s| && s[i] == x;
    var j :| 0 <= j < |s| && s[j] == y;
    assert i == j;
  }

  /** With distinct keys the dictionary does not depend on the order of the rows. */
  lemma TableForgetsOrder<K, T>(a: seq<T>, b: seq<T>, key: T -> K)
    requires multiset(a) == multiset(b) && DistinctBy(a, key)
    ensures TableBy(a, key) == TableBy(b, key) && DistinctBy(b, key)
  {
    PermutationKeepsElements(a, b);
    forall x ensures x in a <==> x in b { assert x in Elements(a) <==> x in Elements(b); }
    forall i, j | 0 <= i < j < |b| ensures key(b[i]) != key(b[j]) {
      assert Distinct(a) && b[i] in b && b[j] in b;
      var k :| 0 <= k < |a| && a[k] == b[i];
      var l :| 0 <= l < |a| && a[l] == b[j];
      assert k != l;
    }
    TableRows(a, key);
    TableRows(b, key);
    forall k | k in TableBy(a, key) ensures k in TableBy(b, key) && TableBy(b, key)[k] == TableBy(a, key)[k] {
      TableLookup(b, key, TableBy(a, key)[k]);
    }
  }

  // ----- what a filtering or counting loop yields, stated by positions -----

  /** The positions at which `keep` holds. */
  ghost function Kept<A>(xs: seq<A>, keep: A -> bool): set<nat> {
    set i: nat | i < |xs| && keep(xs[i])
  }

  /** Those positions in increasing order. */
  ghost predicate Picks<A>(xs: seq<A>, keep: A -> bool, at: seq<nat>) {
    Elements(at) == Kept(xs, keep) && forall j, k :: 0 <= j < k < |at| ==> at[j] < at[k]
  }

  /** `ys` shows exactly the kept elements of `xs`, each once and in order. */
  ghost predicate Lists<A, B>(xs: seq<A>, keep: A -> bool, show: A -> B, ys: seq<B>) {
    exists at: seq<nat> :: Picks(xs, keep, at) && Shows(xs, show, at, ys)
  }

  ghost predicate Shows<A, B>(xs: seq<A>, show: A -> B, at: seq<nat>, ys: seq<B>) {
    |at| == |ys| && forall j | 0 <= j < |ys| :: at[j] < |xs| && ys[j] == show(xs[at[j]])
  }

  lemma ListsNone<A, B>(keep: A -> bool, show: A -> B)
    ensures Lists([], keep, show, [])
  {
    assert Picks([], keep, []) && Shows([], show, [], []);
  }

  lemma ListsOneMore<A, B>(xs: seq<A>, x: A, keep: A -> bool, show: A -> B, ys: seq<B>)
    requires Lists(xs, keep, show, ys)
    ensures Lists(xs + [x], keep, show, ys + if keep(x) then [show(x)] else [])
  {
    var at: seq<nat> :| Picks(xs, keep, at) && Shows(xs, show, at, ys);
    var more := at + if keep(x) then [|xs|] else [];
    PicksOneMore(xs, x, keep, at);
    hide Picks;
    assert Shows(xs + [x], show, more, ys + if keep(x) then [show(x)] else []);
  }

  lemma PicksOneMore<A>(xs: seq<A>, x: A, keep: A -> bool, at: seq<nat>)
    requires Picks(xs, keep, at)
    ensures Picks(xs + [x], keep, at + if keep(x) then [|xs|] else [])
  {
    assert Kept(xs + [x], keep) == Kept(xs, keep) + if keep(x) then {|xs|} else {};
    assert forall j | 0 <= j < |at| :: at[j] in Elements(at);
    assert Elements(at + [|xs|]) == Elements(at) + {|xs|};
    assert at + [] == at;
  }

  lemma ListsEmpty<A, B>(xs: seq<A>, keep: A -> bool, show: A -> B, ys: seq<B>)
    requires Lists(xs, keep, show, ys)
    ensures ys == [] <==> forall i | 0 <= i < |xs| :: !keep(xs[i])
  {
    var at: seq<nat> :| Picks(xs, keep, at) && Shows(xs, show, at, ys);
    if at != [] { assert at[0] in Elements(at); }
    if i :| 0 <= i < |xs| && keep(xs[i]) { assert i in Kept(xs, keep); }
  }

  /** `keep` holds at position `i` and nowhere else. */
  ghost predicate OnlyAt<A>(xs: seq<A>, keep: A -> bool, i: nat) {
    i < |xs| && keep(xs[i]) && forall j | 0 <= j < |xs| && keep(xs[j]) :: j == i
  }

  lemma ListsOne<A, B>(xs: seq<A>, keep: A -> bool, show: A -> B, ys: seq<B>)
    requires Lists(xs, keep, show, ys)
    ensures |ys| == 1 <==> exists i: nat :: OnlyAt(xs, keep, i)
    ensures forall i: nat | OnlyAt(xs, keep, i) :: ys == [show(xs[i])]
  {
    var at: seq<nat> :| Picks(xs, keep, at) && Shows(xs, show, at, ys);
    CardinalityCountsDistinct(at);
    if |ys| == 1 {
      assert at == [at[0]] && Kept(xs, keep) == {at[0]};
      assert at[0] in Kept(xs, keep);
      forall j: nat | j < |xs| && keep(xs[j]) ensures j == at[0] { assert j in Kept(xs, keep); }
      assert OnlyAt(xs, keep, at[0]);
    }
    forall i: nat | OnlyAt(xs, keep, i) ensures ys == [show(xs[i])] {
      assert Kept(xs, keep) == {i};
      assert |at| == 1 && at[0] in Elements(at);
    }
  }

  /** One cell per element of each row. */
  ghost function Cells<T>(rows: seq<seq<T>>): set<(int, int)> {
    set i, j | 0 <= i < |rows| && 0 <= j < |rows[i]| :: (i, j)
  }

  lemma CellsOneMore<T>(rows: seq<seq<T>>, row: seq<T>)
    ensures |Cells(rows + [row])| == |Cells(rows)| + |row|
  {
    var last := set j | 0 <= j < |row| :: (|rows|, j);
    CountUpto(|rows|, |row|);
    assert Cells(rows + [row]) == Cells(rows) + last;
    assert Cells(rows) !! last;
  }

  lemma {:induction false} CountUpto(i: int, n: nat)
    ensures |set j | 0 <= j < n :: (i, j)| == n
  {
    if n > 0 {
      CountUpto(i, n - 1);
      assert (set j | 0 <= j < n :: (i, j)) == (set j | 0 <= j < n - 1 :: (i, j)) + {(i, n - 1)};
    } else {
      assert (set j | 0 <= j < n :: (i, j)) == {};
    }
  }
}
