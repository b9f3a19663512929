/** The classifier around the network: the embedding/head split of the parameter list in
    `predict`, the chunked computation of the pool logits in `main`, and `accuracy`.
    The layers themselves are given as per-example functions `embed` and `head`. */
module Classifier {
  import opened Sequences
  import opened Batching

  /** `(params[:-1], params[-1:])`: the embedding layers and the classifier head. */
  function SplitParams<P>(params: seq<P>): (r: (seq<P>, seq<P>)) {
    (Take(params, -1), Drop(params, -1))
  }

  /** The split loses and reorders nothing, and the head part is the last layer alone (or
      nothing at all when the list is empty). */
  lemma SplitParamsPartitions<P>(params: seq<P>)
    ensures SplitParams(params).0 + SplitParams(params).1 == params
    ensures |SplitParams(params).1| == Min(1, |params|)
    ensures |params| > 0 ==> SplitParams(params).1 == [params[|params| - 1]]
  {
    TakeDrop(params, -1);
  }

  /** `predict`: the head applied to the embedding of every input row.  The layers act on each
      example separately, so a batch is a sequence of rows. */
  function Predict<P, X, E, L>(params: seq<P>, inputs: seq<X>,
                               embed: (seq<P>, X) -> E, head: (seq<P>, E) -> L): (r: seq<L>)
    ensures |r| == |inputs|
  {
    var (p0, p1) := SplitParams(params);
    seq(|inputs|, i requires 0 <= i < |inputs| => head(p1, embed(p0, inputs[i])))
  }

  function Embed<P, X, E>(p0: seq<P>, rows: seq<X>, embed: (seq<P>, X) -> E): (r: seq<E>) {
    seq(|rows|, i requires 0 <= i < |rows| => embed(p0, rows[i]))
  }

  function EmbedChunks<P, X, E>(p0: seq<P>, chunks: seq<seq<X>>, embed: (seq<P>, X) -> E): (r: seq<seq<E>>) {
    seq(|chunks|, k requires 0 <= k < |chunks| => Embed(p0, chunks[k], embed))
  }

  /** The pool logits of `main`: the embeddings are computed `batchSize` rows at a time,
      concatenated, and then passed through the head.  `range(0, n, 0)` raises, and with a
      negative step or an empty pool there is nothing for `np.concatenate` to join, which
      raises too; both are `None`. */
  function PoolLogits<P, X, E, L>(params: seq<P>, pool: seq<X>, batchSize: int,
                                  embed: (seq<P>, X) -> E, head: (seq<P>, E) -> L): (r: Option<seq<L>>)
  {
    if batchSize <= 0 || |pool| == 0 then None
    else
      var emb := Concat(EmbedChunks(Take(params, -1), Chunks(pool, batchSize), embed));
      Some(seq(|emb|, i requires 0 <= i < |emb| => head(Drop(params, -1), emb[i])))
  }

  datatype Option<T> = None | Some(value: T)

  /** Embedding the batches one by one and concatenating equals embedding the whole pool. */
  lemma {:induction false} ConcatEmbedChunks<P, X, E>(p0: seq<P>, chunks: seq<seq<X>>, embed: (seq<P>, X) -> E)
    ensures Concat(EmbedChunks(p0, chunks, embed)) == Embed(p0, Concat(chunks), embed)
  {
    if chunks != [] {
      ConcatEmbedChunks(p0, chunks[1..], embed);
      assert EmbedChunks(p0, chunks, embed)[1..] == EmbedChunks(p0, chunks[1..], embed);
      assert Embed(p0, chunks[0] + Concat(chunks[1..]), embed)
          == Embed(p0, chunks[0], embed) + Embed(p0, Concat(chunks[1..]), embed);
    }
  }

  /** Computing the pool embeddings in batches changes nothing: the pool logits are `predict`
      on the whole pool whenever they can be computed at all. */
  lemma PoolLogitsArePredictions<P, X, E, L>(params: seq<P>, pool: seq<X>, batchSize: int,
                                             embed: (seq<P>, X) -> E, head: (seq<P>, E) -> L)
    ensures PoolLogits(params, pool, batchSize, embed, head)
         == if batchSize > 0 && |pool| > 0 then Some(Predict(params, pool, embed, head)) else None
  {
    if batchSize > 0 && |pool| > 0 {
      ConcatChunks(pool, batchSize);
      ConcatEmbedChunks(Take(params, -1), Chunks(pool, batchSize), embed);
      var emb := Concat(EmbedChunks(Take(params, -1), Chunks(pool, batchSize), embed));
      assert emb == Embed(Take(params, -1), pool, embed);
      assert PoolLogits(params, pool, batchSize, embed, head).value == Predict(params, pool, embed, head);
    }
  }

  /** `np.argmax` of one row: the first position holding the largest value. */
  function ArgMax(row: seq<real>): (r: nat)
    requires |row| > 0
    ensures r < |row|
    ensures forall j :: 0 <= j < |row| ==> row[j] <= row[r]
    ensures forall j :: 0 <= j < r ==> row[j] < row[r]
  {
    if |row| == 1 then 0
    else
      var m := ArgMax(row[..|row| - 1]);
      if row[|row| - 1] > row[m] then |row| - 1 else m
  }

  /** For a one-hot target row the argmax is the hot position. */
  lemma ArgMaxOfOneHot(row: seq<real>, c: nat)
    requires c < |row| && row[c] == 1.0
    requires forall j :: 0 <= j < |row| && j != c ==> row[j] == 0.0
    ensures ArgMax(row) == c
  {
  }

  predicate RowsNonEmpty(rows: seq<seq<real>>) {
    forall i :: 0 <= i < |rows| ==> |rows[i]| > 0
  }

  /** `np.argmax(rows, axis=1)`. */
  function ArgMaxRows(rows: seq<seq<real>>): (r: seq<nat>)
    requires RowsNonEmpty(rows)
    ensures |r| == |rows|
  {
    seq(|rows|, i requires 0 <= i < |rows| => ArgMax(rows[i]))
  }

  /** `a == b` on two label vectors. */
  function Matches(a: seq<nat>, b: seq<nat>): (r: seq<bool>)
    requires |a| == |b|
    ensures |r| == |a|
  {
    seq(|a|, i requires 0 <= i < |a| => a[i] == b[i])
  }

  /** Every row's predicted class is its target class. */
  predicate AllRowsMatch(logits: seq<seq<real>>, targets: seq<seq<real>>)
    requires |logits| == |targets| && RowsNonEmpty(logits) && RowsNonEmpty(targets)
  {
    forall i :: 0 <= i < |logits| ==> ArgMax(logits[i]) == ArgMax(targets[i])
  }

  lemma AllHit(logits: seq<seq<real>>, targets: seq<seq<real>>)
    requires |logits| == |targets| && RowsNonEmpty(logits) && RowsNonEmpty(targets)
    ensures var hits := Matches(ArgMaxRows(logits), ArgMaxRows(targets));
      |Where(hits)| == |hits| <==> AllRowsMatch(logits, targets)
  {
    var hits := Matches(ArgMaxRows(logits), ArgMaxRows(targets));
    WhereFull(hits);
    assert forall i :: 0 <= i < |hits| ==> (hits[i] <==> ArgMax(logits[i]) == ArgMax(targets[i]));
  }

  /** `np.mean` of a boolean vector; the mean of no values is NaN. */
  datatype Mean = Value(v: real) | NaN

  /** `count` out of `n`, the mean of a boolean vector with `count` true entries. */
  function Fraction(count: nat, n: nat): (m: Mean)
    requires count <= n
    ensures m == NaN <==> n == 0
    ensures n > 0 ==> 0.0 <= m.v <= 1.0
    ensures n > 0 ==> (m.v == 1.0 <==> count == n)
  {
    if n == 0 then NaN else Value(count as real / n as real)
  }

  datatype AccuracyError = ArgMaxOfEmptyRow

  datatype Report = Report(acc: Mean, predicted: Option<seq<nat>>)

  datatype Result<T, E> = Ok(value: T) | Err(error: E)

  /** `accuracy(params, batch, return_predicted_class)`, given the logits `predict` computed for
      the batch's inputs (one row per input) and the batch's one-hot targets. */
  function Accuracy(logits: seq<seq<real>>, targets: seq<seq<real>>, returnPredicted: bool)
    : (r: Result<Report, AccuracyError>)
    requires |logits| == |targets|
    ensures r.Err? <==> !RowsNonEmpty(targets) || !RowsNonEmpty(logits)
    ensures r.Ok? && |logits| == 0 ==> r.value.acc == NaN
    ensures r.Ok? && |logits| > 0 ==>
      var hits := Matches(ArgMaxRows(logits), ArgMaxRows(targets));
      && r.value.acc.Value?
      && 0.0 <= r.value.acc.v <= 1.0
      && r.value.acc.v == |Where(hits)| as real / |logits| as real
      && (r.value.acc.v == 1.0 <==> AllRowsMatch(logits, targets))
    ensures r.Ok? && returnPredicted ==>
      r.value.predicted.Some? && |r.value.predicted.value| == |logits| &&
      forall i :: 0 <= i < |logits| ==> r.value.predicted.value[i] == ArgMax(logits[i])
    ensures r.Ok? && !returnPredicted ==> r.value.predicted == None
  {
    if !RowsNonEmpty(targets) || !RowsNonEmpty(logits) then Err(ArgMaxOfEmptyRow)
    else
      var targetClass := ArgMaxRows(targets);
      var predictedClass := ArgMaxRows(logits);
      var hits := Matches(predictedClass, targetClass);
      AllHit(logits, targets);
      var acc := Fraction(|Where(hits)|, |hits|);
      Ok(Report(acc, if returnPredicted then Some(predictedClass) else None))
  }

  /** Scoring the targets against themselves gives accuracy exactly 1. */
  lemma AccuracyOfTargets(targets: seq<seq<real>>)
    requires |targets| > 0 && RowsNonEmpty(targets)
    ensures Accuracy(targets, targets, false) == Ok(Report(Value(1.0), None))
  {
    var r := Accuracy(targets, targets, false);
    assert r.value.acc.v == 1.0;
  }
}
