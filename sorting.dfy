/** `onp.argsort` and `onp.sort` on a vector of reals. */
module Sorting {
  import opened Sequences

  /** The values of `s` do not decrease along the positions listed in `p`. */
  predicate AscendingBy(p: seq<nat>, s: seq<real>)
    requires AllBelow(p, |s|)
  {
    forall a, b :: 0 <= a < b < |p| ==> s[p[a]] <= s[p[b]]
  }

  /** What `onp.argsort(s)` promises: a permutation of the positions of `s` that sorts it
      ascending. numpy does not fix the order of equal values, so the model states its
      properties for every such `p`. */
  predicate IsArgsort(p: seq<nat>, s: seq<real>) {
    IsPermutation(p, |s|) && AscendingBy(p, s)
  }

  /** Inserts position `i` into the ascending position list `p`, after every position whose
      value is not larger. */
  function Insert(p: seq<nat>, i: nat, s: seq<real>): (r: seq<nat>)
    requires i < |s| && AllBelow(p, |s|)
    ensures |r| == |p| + 1 && AllBelow(r, |s|)
    ensures forall x :: x in r <==> x == i || x in p
  {
    if p == [] || s[i] < s[p[0]] then [i] + p else [p[0]] + Insert(p[1..], i, s)
  }

  /** Inserting a new position into a list without repetition repeats nothing. */
  lemma {:induction false} InsertDistinct(p: seq<nat>, i: nat, s: seq<real>)
    requires i < |s| && AllBelow(p, |s|) && Distinct(p) && i !in p
    ensures Distinct(Insert(p, i, s))
  {
    if p != [] && s[i] >= s[p[0]] {
      InsertDistinct(p[1..], i, s);
      assert p[0] !in Insert(p[1..], i, s);
    }
  }

  /** Inserting into an ascending position list keeps it ascending. */
  lemma {:induction false} InsertAscending(p: seq<nat>, i: nat, s: seq<real>)
    requires i < |s| && AllBelow(p, |s|) && AscendingBy(p, s)
    ensures AscendingBy(Insert(p, i, s), s)
  {
    if p != [] && s[i] >= s[p[0]] {
      var rest := Insert(p[1..], i, s);
      assert AscendingBy(p[1..], s);
      InsertAscending(p[1..], i, s);
      forall b | 0 <= b < |rest| ensures s[p[0]] <= s[rest[b]] {
        assert rest[b] in rest;
        if rest[b] != i {
          assert rest[b] in p[1..];
          var c :| 0 <= c < |p[1..]| && p[1..][c] == rest[b];
          assert p[c + 1] == rest[b];
        }
      }
    }
  }

  /** An ascending order of the positions `0..m-1` of `s`. */
  function ArgSortPrefix(s: seq<real>, m: nat): (r: seq<nat>)
    requires m <= |s|
    ensures |r| == m && AllBelow(r, |s|)
    ensures forall x: nat :: x in r <==> x < m
    ensures Distinct(r) && AscendingBy(r, s)
  {
    if m == 0 then []
    else
      var p := ArgSortPrefix(s, m - 1);
      InsertDistinct(p, m - 1, s);
      InsertAscending(p, m - 1, s);
      Insert(p, m - 1, s)
  }

  /** `onp.argsort(s)`, as a stable insertion sort. */
  function ArgSort(s: seq<real>): (r: seq<nat>)
    ensures IsArgsort(r, s)
  {
    ArgSortPrefix(s, |s|)
  }

  /** `onp.sort(row)`: the values of `row` in ascending order. */
  function Sort(row: seq<real>): (r: seq<real>)
    ensures |r| == |row|
    ensures forall a, b :: 0 <= a < b < |r| ==> r[a] <= r[b]
    ensures exists p :: IsArgsort(p, row) && forall k :: 0 <= k < |row| ==> r[k] == row[p[k]]
  {
    var p := ArgSort(row);
    var r := seq(|row|, k requires 0 <= k < |row| => row[p[k]]);
    assert IsArgsort(p, row) && forall k :: 0 <= k < |row| ==> r[k] == row[p[k]];
    r
  }

  /** Sorting keeps the values: every entry of the row occurs in the sorted row, and every entry
      of the sorted row occurs in the row. */
  lemma SortKeepsValues(row: seq<real>)
    ensures forall j :: 0 <= j < |row| ==> row[j] in Sort(row)
    ensures forall k :: 0 <= k < |row| ==> Sort(row)[k] in row
  {
    var r := Sort(row);
    var p :| IsArgsort(p, row) && forall k :: 0 <= k < |row| ==> r[k] == row[p[k]];
    forall j | 0 <= j < |row| ensures row[j] in r {
      var q := PositionOf(p, row, j);
      assert r[q] == row[j];
    }
  }

  /** Every position of `s` occurs somewhere in an argsort order of `s`. */
  lemma PositionOf(p: seq<nat>, s: seq<real>, j: nat) returns (q: nat)
    requires IsArgsort(p, s) && j < |s|
    ensures q < |p| && p[q] == j
  {
    assert j in p;
    q :| 0 <= q < |p| && p[q] == j;
  }
}
