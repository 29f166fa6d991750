/**
 * Ordering records by a timestamp, most recent first: the stable sort the mock server's list
 * handler runs on a copy of its store, and the `ORDER BY ... DESC` query of the Spring repositories.
 */
module Sorting {

  /** `s` is non-increasing in `key`. */
  ghost predicate SortedDesc<T>(s: seq<T>, key: T -> int) {
    forall i, j :: 0 <= i < j < |s| ==> key(s[i]) >= key(s[j])
  }

  /**
   * Inserts `x` in front of the first element whose key is not larger than its own, so that `x`
   * comes before every element of `s` with the same key.
   */
  function Insert<T>(x: T, s: seq<T>, key: T -> int): (r: seq<T>)
    ensures multiset(r) == multiset(s) + multiset{x}
    ensures |r| == |s| + 1
  {
    if s == [] || key(x) >= key(s[0]) then [x] + s
    else
      assert s == [s[0]] + s[1..];
      [s[0]] + Insert(x, s[1..], key)
  }

  /** Every element of `Insert(x, s, key)` is `x` or an element of `s`. */
  lemma InsertMembers<T>(x: T, s: seq<T>, key: T -> int, y: T)
    requires y in Insert(x, s, key)
    ensures y == x || y in s
  {
    assert multiset(Insert(x, s, key))[y] > 0;
  }

  /** Insertion keeps a sorted sequence sorted. */
  lemma {:induction false} InsertSorted<T>(x: T, s: seq<T>, key: T -> int)
    requires SortedDesc(s, key)
    ensures SortedDesc(Insert(x, s, key), key)
  {
    if s != [] && key(x) < key(s[0]) {
      var tail := Insert(x, s[1..], key);
      InsertSorted(x, s[1..], key);
      assert Insert(x, s, key) == [s[0]] + tail;
      forall j | 0 <= j < |tail| ensures key(s[0]) >= key(tail[j]) {
        InsertMembers(x, s[1..], key, tail[j]);
      }
    }
  }

  /** Insertion sort into non-increasing key order; `[...s].sort((a, b) => key(b) - key(a))`. */
  function SortDesc<T>(s: seq<T>, key: T -> int): (r: seq<T>)
    ensures multiset(r) == multiset(s)
    ensures |r| == |s|
    ensures SortedDesc(r, key)
  {
    if s == [] then []
    else
      assert s == [s[0]] + s[1..];
      var rest := SortDesc(s[1..], key);
      InsertSorted(s[0], rest, key);
      Insert(s[0], rest, key)
  }

  /** The elements of `s` whose key is `t`, in their order in `s`. */
  function WithKey<T>(s: seq<T>, key: T -> int, t: int): (r: seq<T>)
    ensures forall i :: 0 <= i < |r| ==> key(r[i]) == t
  {
    if s == [] then []
    else (if key(s[0]) == t then [s[0]] else []) + WithKey(s[1..], key, t)
  }

  lemma {:induction false} InsertWithKey<T>(x: T, s: seq<T>, key: T -> int, t: int)
    ensures WithKey(Insert(x, s, key), key, t) == (if key(x) == t then [x] else []) + WithKey(s, key, t)
  {
    if s == [] || key(x) >= key(s[0]) {
      assert ([x] + s)[1..] == s;
    } else {
      var tail := Insert(x, s[1..], key);
      InsertWithKey(x, s[1..], key, t);
      assert ([s[0]] + tail)[1..] == tail;
    }
  }

  /**
   * Stability: for every key value, the elements carrying it appear in the sorted sequence in
   * the same order as in the input.
   */
  lemma {:induction false} SortDescStable<T>(s: seq<T>, key: T -> int, t: int)
    ensures WithKey(SortDesc(s, key), key, t) == WithKey(s, key, t)
  {
    if s != [] {
      SortDescStable(s[1..], key, t);
      InsertWithKey(s[0], SortDesc(s[1..], key), key, t);
    }
  }

  /** A non-empty set of keys has an element to pick. */
  lemma HasElement(keys: set<int>)
    requires keys != {}
    ensures exists k :: k in keys
  {
    if forall k :: k !in keys {
      assert false;
    }
  }

  /**
   * The rows of a table listed by a descending-key query: every row once, non-increasing in
   * `key`; rows with equal keys come in an order the query leaves unspecified.
   */
  method ValuesSortedDesc<T(==)>(rows: map<int, T>, key: T -> int) returns (list: seq<T>)
    ensures SortedDesc(list, key)
    ensures |list| == |rows|
    ensures forall k :: k in rows ==> rows[k] in list
    ensures forall x :: x in list ==> x in rows.Values
  {
    list := [];
    var todo := rows.Keys;
    while todo != {}
      invariant todo <= rows.Keys
      invariant SortedDesc(list, key)
      invariant |list| + |todo| == |rows|
      invariant forall k :: k in rows && k !in todo ==> rows[k] in list
      invariant forall x :: x in list ==> x in rows.Values
      decreases |todo|
    {
      HasElement(todo);
      var k :| k in todo;
      var before := list;
      InsertSorted(rows[k], list, key);
      list := Insert(rows[k], list, key);
      forall x | x in before ensures x in list {
        assert multiset(list)[x] > 0;
      }
      forall x | x in list ensures x in rows.Values {
        InsertMembers(rows[k], before, key, x);
      }
      assert multiset(list)[rows[k]] > 0;
      todo := todo - {k};
    }
  }
}
