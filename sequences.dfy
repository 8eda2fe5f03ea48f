/**
 * The query shapes the controllers hand to the database: read a table, keep
 * the rows a `where` clause selects, and `orderBy` a column.
 */
module Sequences {

  /** No two keys of `m` hold the same row. */
  ghost predicate Injective<K, V>(m: map<K, V>) {
    forall a, b :: a in m && b in m && a != b ==> m[a] != m[b]
  }

  predicate SortedBy<T>(s: seq<T>, key: T -> int) {
    forall i, j :: 0 <= i < j < |s| ==> key(s[i]) <= key(s[j])
  }

  /** Every row of `s` occurs at most once. */
  ghost predicate Distinct<T(!new)>(s: seq<T>) {
    forall x :: multiset(s)[x] <= 1
  }

  /** `k` is the least element of `s`. */
  predicate IsLeast(k: nat, s: set<nat>) {
    k in s && forall j :: j in s ==> k <= j
  }

  /** A non-empty finite set of natural numbers has a least element. */
  lemma {:induction false} LeastKeyExists(s: set<nat>)
    requires s != {}
    ensures exists k :: IsLeast(k, s)
  {
    var x :| x in s;
    if s == {x} {
      assert IsLeast(x, s);
    } else {
      var rest := s - {x};
      LeastKeyExists(rest);
      var m :| IsLeast(m, rest);
      var least := if x < m then x else m;
      forall j | j in s ensures least <= j {
        if j != x { assert j in rest; }
      }
      assert IsLeast(least, s);
    }
  }

  /** A scan of a table: its rows, in ascending order of primary key. */
  function Rows<T(==,!new)>(m: map<nat, T>): (r: seq<T>)
    ensures |r| == |m|
    ensures forall x :: x in r <==> x in m.Values
    ensures Injective(m) ==> Distinct(r)
    decreases |m|
  {
    if |m| == 0 then []
    else
      LeastKeyExists(m.Keys);
      var k :| IsLeast(k, m.Keys);
      var rest := m - {k};
      assert rest.Keys == m.Keys - {k};
      var tail := Rows(rest);
      assert forall x :: x in m.Values <==> x == m[k] || x in rest.Values by {
        forall x | x in m.Values ensures x == m[k] || x in rest.Values {
          var j :| j in m && m[j] == x;
          if j != k { assert rest[j] == x; }
        }
      }
      assert Injective(m) ==> m[k] !in rest.Values;
      [m[k]] + tail
  }

  /** The rows of `s` that `keep` selects, in their original order. */
  function Filter<T(==,!new)>(s: seq<T>, keep: T -> bool): (r: seq<T>)
    ensures forall x :: multiset(r)[x] == if keep(x) then multiset(s)[x] else 0
    ensures forall x :: x in r <==> x in s && keep(x)
  {
    if s == [] then []
    else
      assert s == [s[0]] + s[1..];
      (if keep(s[0]) then [s[0]] else []) + Filter(s[1..], keep)
  }

  /** Inserts `x` into the sorted `s` ahead of every row with an equal key. */
  function InsertBy<T(==,!new)>(x: T, s: seq<T>, key: T -> int): (r: seq<T>)
    requires SortedBy(s, key)
    ensures SortedBy(r, key)
    ensures multiset(r) == multiset(s) + multiset{x}
    ensures |r| == |s| + 1 && (r[0] == x || (s != [] && r[0] == s[0]))
  {
    if s == [] || key(x) <= key(s[0]) then [x] + s
    else
      assert s == [s[0]] + s[1..];
      var tail := InsertBy(x, s[1..], key);
      ConsSorted(s[0], tail, key);
      assert multiset([s[0]] + tail) == multiset{s[0]} + multiset(tail);
      [s[0]] + tail
  }

  /** A row no greater than the head of a sorted list may go in front of it. */
  lemma ConsSorted<T>(h: T, tail: seq<T>, key: T -> int)
    requires SortedBy(tail, key)
    requires tail != [] ==> key(h) <= key(tail[0])
    ensures SortedBy([h] + tail, key)
  {
    var r := [h] + tail;
    forall i, j | 0 <= i < j < |r| ensures key(r[i]) <= key(r[j]) {
      assert r[j] == tail[j - 1];
      if 0 < i { assert r[i] == tail[i - 1]; }
    }
  }

  /** An `orderBy` on `key`, ascending; equal keys keep their input order. */
  function SortBy<T(==,!new)>(s: seq<T>, key: T -> int): (r: seq<T>)
    ensures SortedBy(r, key)
    ensures multiset(r) == multiset(s)
  {
    if s == [] then []
    else
      assert s == [s[0]] + s[1..];
      InsertBy(s[0], SortBy(s[1..], key), key)
  }

  /** Reordering rows keeps which rows there are, and keeps them distinct. */
  lemma SameRowsAfterSort<T(!new)>(s: seq<T>, r: seq<T>)
    requires multiset(r) == multiset(s)
    ensures forall x :: x in r <==> x in s
    ensures Distinct(s) ==> Distinct(r)
  {
    forall x ensures x in r <==> x in s {
      assert x in r <==> x in multiset(r);
      assert x in s <==> x in multiset(s);
    }
  }

  /** Selecting rows never makes a row occur twice. */
  lemma FilterKeepsDistinct<T(!new)>(s: seq<T>, keep: T -> bool)
    requires Distinct(s)
    ensures Distinct(Filter(s, keep))
  {
    forall x ensures multiset(Filter(s, keep))[x] <= 1 {
      assert multiset(s)[x] <= 1;
    }
  }
}
