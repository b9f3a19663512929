/** Python slicing, index sequences and `onp.where`, shared by the rest of the model. */
module Sequences {

  function Min(a: int, b: int): int { if a <= b then a else b }

  function Max(a: int, b: int): int { if a <= b then b else a }

  /** Where a Python slice bound `k` falls in a sequence of length `n`:
      a negative bound counts from the end, and both kinds are clamped to `0..n`. */
  function Cut(n: nat, k: int): (c: nat)
    ensures c <= n
    ensures k >= 0 ==> c == Min(k, n)
    ensures k < 0 ==> c == Max(n + k, 0)
  {
    if k >= 0 then Min(k, n) else Max(n + k, 0)
  }

  /** Python's `s[:k]`. */
  function Take<T>(s: seq<T>, k: int): seq<T> { s[..Cut(|s|, k)] }

  /** Python's `s[k:]`. */
  function Drop<T>(s: seq<T>, k: int): seq<T> { s[Cut(|s|, k)..] }

  /** Python's `s[::-1]`. */
  function Reverse<T>(s: seq<T>): seq<T> {
    seq(|s|, i requires 0 <= i < |s| => s[|s| - 1 - i])
  }

  predicate Distinct<T(==)>(s: seq<T>) {
    forall i, j :: 0 <= i < j < |s| ==> s[i] != s[j]
  }

  predicate AllBelow(s: seq<nat>, n: nat) {
    forall i :: 0 <= i < |s| ==> s[i] < n
  }

  predicate StrictlyIncreasing(s: seq<nat>) {
    forall i, j :: 0 <= i < j < |s| ==> s[i] < s[j]
  }

  /** `p` lists every index `0..n-1` exactly once. */
  predicate IsPermutation(p: seq<nat>, n: nat) {
    && |p| == n
    && AllBelow(p, n)
    && Distinct(p)
    && forall j: nat :: j < n ==> j in p
  }

  /** `onp.where(mask)[0]`: the positions at which `mask` holds, in ascending order. */
  function Where(mask: seq<bool>): (r: seq<nat>)
    ensures AllBelow(r, |mask|)
    ensures StrictlyIncreasing(r)
    ensures |r| <= |mask|
  {
    if mask == [] then []
    else
      var rest := Where(mask[..|mask| - 1]);
      if mask[|mask| - 1] then rest + [|mask| - 1] else rest
  }

  /** Element-wise negation, as `!=` is of `==` on numpy arrays. */
  function Not(mask: seq<bool>): (r: seq<bool>)
    ensures |r| == |mask|
    ensures forall i :: 0 <= i < |mask| ==> r[i] == !mask[i]
  {
    seq(|mask|, i requires 0 <= i < |mask| => !mask[i])
  }

  /** A strictly increasing sequence has no repeated element. */
  lemma IncreasingIsDistinct(s: seq<nat>)
    requires StrictlyIncreasing(s)
    ensures Distinct(s)
  {
  }

  /** Slicing at one bound splits a sequence without losing or reordering anything. */
  lemma TakeDrop<T>(s: seq<T>, k: int)
    ensures Take(s, k) + Drop(s, k) == s
    ensures |Take(s, k)| == Cut(|s|, k)
  {
  }

  /** `s[::-1]` reads `s` back to front. */
  lemma ReverseAt<T>(s: seq<T>, i: nat)
    requires i < |s|
    ensures |Reverse(s)| == |s|
    ensures Reverse(s)[i] == s[|s| - 1 - i]
  {
  }

  /** `where(mask)` lists exactly the positions at which `mask` holds. */
  lemma {:induction false} WhereMembers(mask: seq<bool>)
    ensures forall i: nat :: i in Where(mask) <==> i < |mask| && mask[i]
  {
    if mask != [] {
      var n := |mask|;
      WhereMembers(mask[..n - 1]);
    }
  }

  /** One more mask entry adds one position to `where` exactly when that entry holds. */
  lemma WhereLength(mask: seq<bool>)
    requires mask != []
    ensures |Where(mask)| == |Where(mask[..|mask| - 1])| + if mask[|mask| - 1] then 1 else 0
  {
  }

  lemma {:induction false} WhereSplitLengths(mask: seq<bool>)
    ensures |Where(mask)| + |Where(Not(mask))| == |mask|
  {
    if mask != [] {
      var n := |mask|;
      assert Not(mask)[..n - 1] == Not(mask[..n - 1]);
      WhereSplitLengths(mask[..n - 1]);
      WhereLength(mask);
      WhereLength(Not(mask));
    }
  }

  /** Every position is reported either by `where(mask)` or by `where(!mask)`, never by both,
      so the two lengths add up to the length of the mask. */
  lemma WhereSplits(mask: seq<bool>)
    ensures |Where(mask)| + |Where(Not(mask))| == |mask|
    ensures forall i: nat :: i < |mask| ==> (i in Where(mask) <==> i !in Where(Not(mask)))
  {
    WhereSplitLengths(mask);
    WhereMembers(mask);
    WhereMembers(Not(mask));
  }

  predicate AllHold(mask: seq<bool>) {
    forall i :: 0 <= i < |mask| ==> mask[i]
  }

  /** A mask holds everywhere when its front does and its last entry does. */
  lemma AllHoldSnoc(mask: seq<bool>)
    requires mask != []
    ensures AllHold(mask) <==> AllHold(mask[..|mask| - 1]) && mask[|mask| - 1]
  {
    var n := |mask|;
    if AllHold(mask[..n - 1]) && mask[n - 1] {
      forall i | 0 <= i < n ensures mask[i] {
        if i < n - 1 {
          assert mask[..n - 1][i] == mask[i];
        }
      }
    }
  }

  /** `where(mask)` has as many entries as `mask` exactly when `mask` holds everywhere. */
  lemma {:induction false} WhereFull(mask: seq<bool>)
    ensures |Where(mask)| == |mask| <==> AllHold(mask)
  {
    if mask != [] {
      var n := |mask|;
      WhereFull(mask[..n - 1]);
      WhereLength(mask);
      AllHoldSnoc(mask);
    }
  }
}
