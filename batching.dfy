/** Cutting a data set into consecutive batches of a fixed size, the last one possibly short:
    the pool embedding loop over `range(0, n_pool, batch_size)` and the batch count of each
    fine-tuning epoch. */
module Batching {
  import opened Sequences

  /** `num_complete_batches, leftover = divmod(n, b)` followed by
      `num_complete_batches + bool(leftover)`. */
  function NumBatches(n: nat, b: int): (m: nat)
    requires b > 0
  {
    n / b + (if n % b != 0 then 1 else 0)
  }

  /** The batch count is the ceiling of `n / b`: the batches hold at least `n` examples, and one
      batch fewer would hold fewer than `n`. */
  lemma NumBatchesIsCeiling(n: nat, b: int)
    requires b > 0
    ensures NumBatches(n, b) * b >= n
    ensures (NumBatches(n, b) - 1) * b < n || n == NumBatches(n, b) == 0
  {
    var q, r := n / b, n % b;
    assert n == q * b + r;
    if r != 0 {
      assert NumBatches(n, b) * b == q * b + b;
    } else {
      assert (q - 1) * b == q * b - b;
    }
  }

  /** The slices `s[i:i+b]` for `i` in `range(0, |s|, b)`. */
  function Chunks<T>(s: seq<T>, b: int): (r: seq<seq<T>>)
    requires b > 0
    decreases |s|
  {
    if |s| == 0 then [] else [s[..Min(b, |s|)]] + Chunks(s[Min(b, |s|)..], b)
  }

  /** `np.concatenate(chunks, axis=0)`. */
  function Concat<T>(chunks: seq<seq<T>>): (r: seq<T>) {
    if chunks == [] then [] else chunks[0] + Concat(chunks[1..])
  }

  /** Concatenating the batches gives back the data set, in order. */
  lemma {:induction false} ConcatChunks<T>(s: seq<T>, b: int)
    requires b > 0
    ensures Concat(Chunks(s, b)) == s
    decreases |s|
  {
    if |s| > 0 {
      var m := Min(b, |s|);
      ConcatChunks(s[m..], b);
      assert Chunks(s, b)[1..] == Chunks(s[m..], b);
      assert s[..m] + s[m..] == s;
    }
  }

  /** There are as many batches as the fine-tuning loop counts, every batch but the last holds
      exactly `b` examples, and the last holds between 1 and `b`. */
  lemma {:induction false} ChunkSizes<T>(s: seq<T>, b: int)
    requires b > 0
    ensures |Chunks(s, b)| == NumBatches(|s|, b)
    ensures forall k :: 0 <= k < |Chunks(s, b)| - 1 ==> |Chunks(s, b)[k]| == b
    ensures |s| > 0 ==> 0 < |Chunks(s, b)[|Chunks(s, b)| - 1]| <= b
    decreases |s|
  {
    if |s| > 0 {
      var m := Min(b, |s|);
      ChunkSizes(s[m..], b);
      var c := Chunks(s, b);
      assert c[1..] == Chunks(s[m..], b);
      ChunkCount(|s|, b);
    }
  }

  /** Removing one full batch removes one from the batch count. */
  lemma ChunkCount(n: nat, b: int)
    requires b > 0 && n > 0
    ensures NumBatches(n, b) == 1 + NumBatches(n - Min(b, n), b)
  {
    if n < b {
      DivModUnique(n, b, 0, n);
    } else if n == b {
      DivModUnique(n, b, 1, 0);
    } else {
      var q, r := (n - b) / b, (n - b) % b;
      OneMoreMultiple(q, b);
      DivModUnique(n, b, q + 1, r);
    }
  }

  lemma OneMoreMultiple(q: int, b: int)
    ensures (q + 1) * b == q * b + b
  {
  }

  /** Integer division is determined by the quotient-remainder equation. */
  lemma DivModUnique(n: nat, b: int, q: int, r: int)
    requires b > 0 && n == q * b + r && 0 <= r < b
    ensures n / b == q && n % b == r
  {
    var q', r' := n / b, n % b;
    assert n == q' * b + r' && 0 <= r' < b;
    if q > q' {
      AtLeastOneMultiple(q - q', b);
    } else if q < q' {
      AtLeastOneMultiple(q' - q, b);
    }
  }

  lemma AtLeastOneMultiple(d: int, b: int)
    requires d >= 1 && b > 0
    ensures d * b >= b
  {
    assert d * b == (d - 1) * b + b;
  }
}
