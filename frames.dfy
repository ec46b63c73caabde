/** The DataFrame operators the pipeline chains, over a DataFrame modelled as a
    finite sequence of rows: `filter`, `dropDuplicates` on one key column, and
    `SELECT DISTINCT`. */
module Frames {

  /** The values of the key column over all rows. */
  function KeySet<T(==), K(==)>(rows: seq<T>, key: T -> K): set<K> {
    set x | x in rows :: key(x)
  }

  /** No two rows carry the same key. */
  predicate DistinctKeys<T, K(==)>(rows: seq<T>, key: T -> K) {
    forall i, j :: 0 <= i < j < |rows| ==> key(rows[i]) != key(rows[j])
  }

  /** `filter`: the rows for which the condition is true, in their order. */
  function Filter<T(==)>(rows: seq<T>, keep: T -> bool): (r: seq<T>)
    ensures |r| <= |rows|
    ensures forall x :: x in r ==> x in rows && keep(x)
    ensures forall x :: x in rows && keep(x) ==> x in r
  {
    if rows == [] then []
    else if keep(rows[0]) then [rows[0]] + Filter(rows[1..], keep)
    else Filter(rows[1..], keep)
  }

  /** Filtering a union of two batches filters each batch. */
  lemma {:induction false} FilterConcat<T>(a: seq<T>, b: seq<T>, keep: T -> bool)
    ensures Filter(a + b, keep) == Filter(a, keep) + Filter(b, keep)
  {
    if a == [] {
      assert a + b == b;
    } else {
      assert (a + b)[1..] == a[1..] + b;
      FilterConcat(a[1..], b, keep);
    }
  }

  lemma KeySetCons<T, K>(rows: seq<T>, key: T -> K)
    requires rows != []
    ensures KeySet(rows, key) == {key(rows[0])} + KeySet(rows[1..], key)
  {
    assert rows == [rows[0]] + rows[1..];
    forall x | x in rows
      ensures x == rows[0] || x in rows[1..]
    {
    }
  }

  /** `dropDuplicates` on one key column, for rows whose keys in `seen` were
      already taken: one row per key not in `seen`, the first that carries it. */
  function DropDuplicatesFrom<T(==), K(==)>(rows: seq<T>, key: T -> K, seen: set<K>): (r: seq<T>)
    ensures |r| <= |rows|
    ensures forall x :: x in r ==> x in rows
    ensures KeySet(r, key) == KeySet(rows, key) - seen
    ensures DistinctKeys(r, key)
  {
    if rows == [] then []
    else
      assert KeySet(rows, key) == {key(rows[0])} + KeySet(rows[1..], key) by {
        KeySetCons(rows, key);
      }
      if key(rows[0]) in seen then DropDuplicatesFrom(rows[1..], key, seen)
      else
        var tail := DropDuplicatesFrom(rows[1..], key, seen + {key(rows[0])});
        var r := [rows[0]] + tail;
        assert KeySet(r, key) == {key(rows[0])} + KeySet(tail, key) by {
          KeySetCons(r, key);
          assert r[1..] == tail;
        }
        assert DistinctKeys(r, key) by {
          forall i, j | 0 <= i < j < |r|
            ensures key(r[i]) != key(r[j])
          {
            assert r[j] == tail[j - 1];
            assert key(r[j]) in KeySet(tail, key);
          }
        }
        r
  }

  /** `dropDuplicates([key])`: one row per key value; every row kept is an input
      row, and every key value of the input is kept. */
  function DropDuplicates<T(==), K(==)>(rows: seq<T>, key: T -> K): (r: seq<T>)
    ensures |r| <= |rows|
    ensures forall x :: x in r ==> x in rows
    ensures KeySet(r, key) == KeySet(rows, key)
    ensures DistinctKeys(r, key)
  {
    DropDuplicatesFrom(rows, key, {})
  }

  /** Rows whose keys are already distinct and not yet taken are all kept, in order. */
  lemma {:induction false} DropDuplicatesOfDistinct<T, K>(rows: seq<T>, key: T -> K, seen: set<K>)
    requires DistinctKeys(rows, key)
    requires KeySet(rows, key) !! seen
    ensures DropDuplicatesFrom(rows, key, seen) == rows
  {
    if rows != [] {
      KeySetCons(rows, key);
      assert key(rows[0]) !in KeySet(rows[1..], key) by {
        forall x | x in rows[1..]
          ensures key(x) != key(rows[0])
        {
          var k :| 0 <= k < |rows[1..]| && rows[1..][k] == x;
          assert rows[k + 1] == x;
        }
      }
      assert DistinctKeys(rows[1..], key) by {
        forall i, j | 0 <= i < j < |rows[1..]|
          ensures key(rows[1..][i]) != key(rows[1..][j])
        {
          assert rows[1..][i] == rows[i + 1] && rows[1..][j] == rows[j + 1];
        }
      }
      DropDuplicatesOfDistinct(rows[1..], key, seen + {key(rows[0])});
    }
  }

  /** A table with distinct keys has as many rows as key values. */
  lemma {:induction false} DistinctKeysCardinality<T, K>(rows: seq<T>, key: T -> K)
    requires DistinctKeys(rows, key)
    ensures |KeySet(rows, key)| == |rows|
  {
    if rows != [] {
      KeySetCons(rows, key);
      assert key(rows[0]) !in KeySet(rows[1..], key) by {
        forall x | x in rows[1..]
          ensures key(x) != key(rows[0])
        {
          var k :| 0 <= k < |rows[1..]| && rows[1..][k] == x;
          assert rows[k + 1] == x;
        }
      }
      assert DistinctKeys(rows[1..], key) by {
        forall i, j | 0 <= i < j < |rows[1..]|
          ensures key(rows[1..][i]) != key(rows[1..][j])
        {
          assert rows[1..][i] == rows[i + 1] && rows[1..][j] == rows[j + 1];
        }
      }
      DistinctKeysCardinality(rows[1..], key);
    }
  }

  /** The whole row as its own key. */
  function Whole<T>(x: T): T {
    x
  }

  /** `SELECT DISTINCT`: the same rows, each once. */
  function Distinct<T(==)>(rows: seq<T>): (r: seq<T>)
    ensures forall x :: x in r ==> x in rows
    ensures forall x :: x in rows ==> x in r
    ensures forall i, j :: 0 <= i < j < |r| ==> r[i] != r[j]
  {
    var r := DropDuplicates(rows, Whole);
    assert forall x :: x in rows ==> x in r by {
      forall x | x in rows
        ensures x in r
      {
        assert Whole(x) in KeySet(rows, Whole);
        var y :| y in r && Whole(y) == Whole(x);
      }
    }
    r
  }
}
