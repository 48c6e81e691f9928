/** Ordering strings by code point, and a sort whose result depends only on what it is given to sort. */
module Sorting {
  import opened Collections

  predicate LexLe(a: string, b: string) {
    a == [] || (b != [] && (a[0] < b[0] || (a[0] == b[0] && LexLe(a[1..], b[1..]))))
  }

  lemma {:induction false} LexTotal(a: string, b: string)
    ensures LexLe(a, b) || LexLe(b, a)
    ensures LexLe(a, b) && LexLe(b, a) <==> a == b
    decreases |a|
  {
    if a != [] && b != [] && a[0] == b[0] {
      LexTotal(a[1..], b[1..]);
      assert a == [a[0]] + a[1..] && b == [b[0]] + b[1..];
    }
  }

  lemma {:induction false} LexTransitive(a: string, b: string, c: string)
    requires LexLe(a, b) && LexLe(b, c)
    ensures LexLe(a, c)
    decreases |a|
  {
    if a != [] && a[0] == b[0] == c[0] { LexTransitive(a[1..], b[1..], c[1..]); }
  }

  /** The first code point that differs decides, and a proper prefix comes first. */
  lemma {:induction false} LexLeIff(a: string, b: string)
    ensures LexLe(a, b) <==> a <= b || exists i | 0 <= i < |a| && i < |b| :: a[..i] == b[..i] && a[i] < b[i]
    decreases |a|
  {
    if a != [] && b != [] && a[0] == b[0] {
      LexLeIff(a[1..], b[1..]);
      if LexLe(a[1..], b[1..]) && !(a[1..] <= b[1..]) {
        var i :| 0 <= i < |a| - 1 && i < |b| - 1 && a[1..][..i] == b[1..][..i] && a[1..][i] < b[1..][i];
        assert a[..i + 1] == [a[0]] + a[1..][..i] && b[..i + 1] == [b[0]] + b[1..][..i];
        assert a[i + 1] < b[i + 1];
      }
      if i :| 0 <= i < |a| && i < |b| && a[..i] == b[..i] && a[i] < b[i] {
        assert i > 0;
        assert a[1..][..i - 1] == a[..i][1..] && b[1..][..i - 1] == b[..i][1..];
        assert a[1..][i - 1] < b[1..][i - 1];
      }
      assert a <= b <==> a[1..] <= b[1..];
    } else if a != [] && b != [] && a[0] < b[0] {
      assert a[..0] == b[..0];
    }
  }

  /** A total preorder. */
  ghost predicate Ordering<T(!new)>(le: (T, T) -> bool) {
    && (forall x, y :: le(x, y) || le(y, x))
    && (forall x, y, z :: le(x, y) && le(y, z) ==> le(x, z))
  }

  lemma LexOrders()
    ensures Ordering(LexLe)
  {
    forall x, y ensures LexLe(x, y) || LexLe(y, x) { LexTotal(x, y); }
    forall x, y, z | LexLe(x, y) && LexLe(y, z) ensures LexLe(x, z) { LexTransitive(x, y, z); }
  }

  /** The order of a string key, as in `sort(key=...)`. */
  function ByKey<T>(key: T -> string): (T, T) -> bool {
    (x, y) => LexLe(key(x), key(y))
  }

  lemma ByKeyOrders<T(!new)>(key: T -> string)
    ensures Ordering(ByKey(key))
  {
    forall x, y ensures ByKey(key)(x, y) || ByKey(key)(y, x) { LexTotal(key(x), key(y)); }
    forall x, y, z | ByKey(key)(x, y) && ByKey(key)(y, z) ensures ByKey(key)(x, z) {
      LexTransitive(key(x), key(y), key(z));
    }
  }

  ghost predicate Sorted<T>(s: seq<T>, le: (T, T) -> bool) {
    forall i, j :: 0 <= i < j < |s| ==> le(s[i], s[j])
  }

  function Insert<T>(x: T, s: seq<T>, le: (T, T) -> bool): (r: seq<T>)
    ensures multiset(r) == multiset(s) + multiset{x}
  {
    if s == [] || le(x, s[0]) then [x] + s
    else assert s == [s[0]] + s[1..]; [s[0]] + Insert(x, s[1..], le)
  }

  lemma {:induction false} InsertSorted<T(!new)>(x: T, s: seq<T>, le: (T, T) -> bool)
    requires Ordering(le) && Sorted(s, le)
    ensures Sorted(Insert(x, s, le), le)
  {
    if s != [] && !le(x, s[0]) {
      var rest := Insert(x, s[1..], le);
      InsertSorted(x, s[1..], le);
      forall j | 0 <= j < |rest| ensures le(s[0], rest[j]) {
        assert rest[j] in multiset(rest);
        if rest[j] != x {
          assert rest[j] in multiset(s[1..]);
          var k :| 0 <= k < |s[1..]| && s[1..][k] == rest[j];
        }
      }
    }
  }

  /** Python's `sort`. */
  function Sort<T>(s: seq<T>, le: (T, T) -> bool): (r: seq<T>)
    ensures multiset(r) == multiset(s) && |r| == |s|
  {
    var r := if s == [] then [] else
      assert s == [s[0]] + s[1..];
      Insert(s[0], Sort(s[1..], le), le);
    assert |multiset(r)| == |multiset(s)|;
    r
  }

  lemma {:induction false} SortSorted<T(!new)>(s: seq<T>, le: (T, T) -> bool)
    requires Ordering(le)
    ensures Sorted(Sort(s, le), le)
  {
    if s != [] {
      SortSorted(s[1..], le);
      InsertSorted(s[0], Sort(s[1..], le), le);
    }
  }

  /** No two rows tie. */
  ghost predicate NoTies<T>(s: seq<T>, le: (T, T) -> bool) {
    forall i, j :: 0 <= i < j < |s| ==> !(le(s[i], s[j]) && le(s[j], s[i]))
  }

  lemma TailMultiset<T>(s: seq<T>)
    requires s != []
    ensures multiset(s[1..]) == multiset(s) - multiset{s[0]}
  {
    assert s == [s[0]] + s[1..];
  }

  /** Where the other arrangement's head stands in this one. */
  lemma HeadPosition<T>(s: seq<T>, t: seq<T>, le: (T, T) -> bool) returns (j: nat)
    requires Sorted(s, le) && multiset(s) == multiset(t) && t != []
    ensures j < |s| && s[j] == t[0] && (j > 0 ==> le(s[0], t[0]))
  {
    PermutationKeepsElements(s, t);
    assert t[0] in Elements(s);
    j :| 0 <= j < |s| && s[j] == t[0];
  }

  lemma SameHead<T>(s: seq<T>, t: seq<T>, le: (T, T) -> bool)
    requires Sorted(s, le) && Sorted(t, le) && multiset(s) == multiset(t) && NoTies(s, le) && s != []
    ensures t != [] && s[0] == t[0]
  {
    PermutationKeepsElements(s, t);
    var j := HeadPosition(s, t, le);
    var k := HeadPosition(t, s, le);
    hide Sorted;
    assert j == 0 || k == 0;
  }

  /** Rows without ties have only one sorted arrangement. */
  lemma {:induction false} SortedUnique<T>(s: seq<T>, t: seq<T>, le: (T, T) -> bool)
    requires Sorted(s, le) && Sorted(t, le) && multiset(s) == multiset(t) && NoTies(s, le)
    ensures s == t
  {
    hide Sorted, NoTies;
    PermutationKeepsElements(s, t);
    if s != [] {
      SameHead(s, t, le);
      SameTails(s, t);
      TailSorted(s, le);
      TailSorted(t, le);
      SortedUnique(s[1..], t[1..], le);
      assert s == [s[0]] + s[1..] && t == [t[0]] + t[1..];
    }
  }

  lemma SameTails<T>(s: seq<T>, t: seq<T>)
    requires s != [] && t != [] && s[0] == t[0] && multiset(s) == multiset(t)
    ensures multiset(s[1..]) == multiset(t[1..])
  {
    TailMultiset(s);
    TailMultiset(t);
  }

  lemma TailSorted<T>(s: seq<T>, le: (T, T) -> bool)
    requires s != [] && Sorted(s, le)
    ensures Sorted(s[1..], le) && (NoTies(s, le) ==> NoTies(s[1..], le))
  {
  }

  lemma NoTiesPermutation<T>(s: seq<T>, t: seq<T>, le: (T, T) -> bool)
    requires multiset(s) == multiset(t) && NoTies(s, le) && Distinct(s)
    ensures NoTies(t, le)
  {
    PermutationKeepsElements(s, t);
    forall i, j | 0 <= i < j < |t| ensures !(le(t[i], t[j]) && le(t[j], t[i])) {
      assert t[i] in Elements(s) && t[j] in Elements(s) && t[i] != t[j];
      var k :| 0 <= k < |s| && s[k] == t[i];
      var l :| 0 <= l < |s| && s[l] == t[j];
      assert k < l || l < k;
    }
  }
}
