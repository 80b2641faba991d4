/**
 * The WHERE and ORDER BY halves of the repositories' queries: a filter that keeps the table's
 * order, and a stable sort by a lexicographic key. A descending column enters the key negated;
 * a nullable column enters as a null flag followed by its value.
 */
module Ordering {
  import opened Wrappers

  type Key = seq<int>

  /** Lexicographic order on keys. */
  predicate KeyLe(a: Key, b: Key) {
    a == [] || (b != [] && (a[0] < b[0] || (a[0] == b[0] && KeyLe(a[1..], b[1..]))))
  }

  lemma {:induction false} KeyLeTotal(a: Key, b: Key)
    ensures KeyLe(a, b) || KeyLe(b, a)
    decreases |a|
  {
    if a != [] && b != [] && a[0] == b[0] {
      KeyLeTotal(a[1..], b[1..]);
    }
  }

  lemma {:induction false} KeyLeTransitive(a: Key, b: Key, c: Key)
    requires KeyLe(a, b) && KeyLe(b, c)
    ensures KeyLe(a, c)
    decreases |a|
  {
    if a != [] && b != [] && c != [] && a[0] == b[0] && b[0] == c[0] {
      KeyLeTransitive(a[1..], b[1..], c[1..]);
    }
  }

  /** The rows that satisfy p, in the order the table holds them. */
  function Filter<T>(s: seq<T>, p: T -> bool): (r: seq<T>)
    ensures |r| <= |s|
    ensures forall i :: 0 <= i < |r| ==> r[i] in s && p(r[i])
    ensures forall i :: 0 <= i < |s| && p(s[i]) ==> s[i] in r
  {
    if s == [] then [] else (if p(s[0]) then [s[0]] else []) + Filter(s[1..], p)
  }

  /** WHERE keeps every row that satisfies p as often as the table holds it, and no other row. */
  lemma {:induction false} FilterMultiplicity<T>(s: seq<T>, p: T -> bool)
    ensures forall x :: multiset(Filter(s, p))[x] == if p(x) then multiset(s)[x] else 0
  {
    if s != [] {
      FilterMultiplicity(s[1..], p);
      assert s == [s[0]] + s[1..];
    }
  }

  /** How many rows satisfy p. */
  function Count<T>(s: seq<T>, p: T -> bool): (n: nat)
    ensures n <= |s|
  {
    if s == [] then 0 else (if p(s[0]) then 1 else 0) + Count(s[1..], p)
  }

  lemma {:induction false} FilterCount<T>(s: seq<T>, p: T -> bool)
    ensures |Filter(s, p)| == Count(s, p)
    decreases |s|
  {
    if s != [] {
      FilterCount(s[1..], p);
    }
  }

  /** No row satisfies p exactly when the count is zero. */
  lemma {:induction false} CountZero<T>(s: seq<T>, p: T -> bool)
    ensures Count(s, p) == 0 <==> forall i :: 0 <= i < |s| ==> !p(s[i])
    decreases |s|
  {
    if s != [] {
      CountZero(s[1..], p);
      assert forall i :: 1 <= i < |s| ==> s[i] == s[1..][i - 1];
    }
  }

  predicate SortedBy<T>(s: seq<T>, key: T -> Key) {
    forall i, j :: 0 <= i < j < |s| ==> KeyLe(key(s[i]), key(s[j]))
  }

  /** x placed before the first row whose key is not below its own. */
  function Insert<T>(x: T, s: seq<T>, key: T -> Key): (r: seq<T>)
    requires SortedBy(s, key)
    ensures multiset(r) == multiset(s) + multiset{x}
    ensures SortedBy(r, key)
  {
    if s == [] then [x]
    else if KeyLe(key(x), key(s[0])) then
      assert forall j :: 0 <= j < |s| ==> KeyLe(key(x), key(s[j])) by {
        forall j | 0 <= j < |s| ensures KeyLe(key(x), key(s[j])) {
          if j > 0 { KeyLeTransitive(key(x), key(s[0]), key(s[j])); }
        }
      }
      [x] + s
    else
      KeyLeTotal(key(x), key(s[0]));
      var t := Insert(x, s[1..], key);
      assert multiset(t) == multiset(s[1..]) + multiset{x};
      assert forall j :: 0 <= j < |t| ==> KeyLe(key(s[0]), key(t[j])) by {
        forall j | 0 <= j < |t| ensures KeyLe(key(s[0]), key(t[j])) {
          assert t[j] in multiset(t);
          assert t[j] == x || t[j] in multiset(s[1..]);
          if t[j] != x {
            var k :| 0 <= k < |s[1..]| && s[1..][k] == t[j];
            assert s[k + 1] == t[j];
          }
        }
      }
      assert s == [s[0]] + s[1..];
      [s[0]] + t
  }

  /** ORDER BY key: a stable insertion sort, one of the orders the database may return. */
  function SortBy<T>(s: seq<T>, key: T -> Key): (r: seq<T>)
    ensures multiset(r) == multiset(s)
    ensures SortedBy(r, key)
  {
    if s == [] then []
    else
      assert s == [s[0]] + s[1..];
      Insert(s[0], SortBy(s[1..], key), key)
  }

  /** WHERE p ORDER BY key: exactly the rows that satisfy p, in key order. */
  function Query<T(!new)>(s: seq<T>, p: T -> bool, key: T -> Key): (r: seq<T>)
    ensures forall i :: 0 <= i < |r| ==> r[i] in s && p(r[i])
    ensures forall i :: 0 <= i < |s| && p(s[i]) ==> s[i] in r
    ensures multiset(r) == multiset(Filter(s, p))
    ensures forall x :: multiset(r)[x] == if p(x) then multiset(s)[x] else 0
    ensures SortedBy(r, key)
  {
    var f := Filter(s, p);
    FilterMultiplicity(s, p);
    var r := SortBy(f, key);
    assert forall i :: 0 <= i < |r| ==> r[i] in f by {
      forall i | 0 <= i < |r| ensures r[i] in f {
        assert r[i] in multiset(r);
      }
    }
    assert forall x :: x in f ==> x in r by {
      forall x | x in f ensures x in r {
        assert x in multiset(f);
      }
    }
    r
  }

  /** The first row of a query result (firstResultOptional). */
  function First<T>(s: seq<T>): (r: Option<T>)
    ensures r.Some? <==> s != []
    ensures r.Some? ==> r.value == s[0]
  {
    if s == [] then None else Some(s[0])
  }

  /** The first row of a sorted result has the least key of all its rows. */
  lemma FirstIsLeast<T>(s: seq<T>, key: T -> Key, y: T)
    requires SortedBy(s, key) && y in s
    ensures First(s).Some? && KeyLe(key(First(s).value), key(y))
  {
    var j :| 0 <= j < |s| && s[j] == y;
    if j == 0 {
      KeyLeTotal(key(y), key(y));
    }
  }

  /** A key made of one value, ascending. */
  lemma KeyLeSingle(a: int, b: int)
    ensures KeyLe([a], [b]) <==> a <= b
  {
    assert [a][1..] == [];
  }

  /** A key that starts with a value: ordered by that value first and by the rest on a tie. */
  lemma KeyLeCons(a: int, k: Key, b: int, l: Key)
    ensures KeyLe([a] + k, [b] + l) <==> a < b || (a == b && KeyLe(k, l))
  {
    assert ([a] + k)[1..] == k;
    assert ([b] + l)[1..] == l;
  }
}
