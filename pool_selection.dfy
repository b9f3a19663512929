/** The active-learning step of `main`: the pool is split into correctly and incorrectly
    predicted examples, and `n_extra` examples are picked for fine-tuning by one of three
    criteria, chosen by the integer flag `uncertain`.  The softmax probabilities, the entropies
    computed from them and the random permutation are inputs. */
module PoolSelection {
  import opened Sequences
  import opened Sorting
  import opened Classifier

  /** The three values of the `uncertain` flag that `main` recognises. */
  datatype Criterion = Entropy | Margin | Random

  function CriterionOf(code: int): (r: Option<Criterion>) {
    if code == 0 then Some(Entropy)
    else if code == 1 then Some(Margin)
    else if code == 2 then Some(Random)
    else None
  }

  /** The first `k` entries (`[:k]`) of an ordering of `0..n-1`: as many as the slice keeps,
      without repetition, all in range, and every index left out sits further down the order. */
  lemma PrefixOfPermutation(p: seq<nat>, n: nat, k: int)
    requires IsPermutation(p, n)
    ensures |Take(p, k)| == Cut(n, k)
    ensures Distinct(Take(p, k)) && AllBelow(Take(p, k), n)
    ensures forall y: nat :: y < n && y !in Take(p, k) ==> exists q :: Cut(n, k) <= q < n && p[q] == y
  {
    forall y: nat | y < n && y !in Take(p, k) ensures exists q :: Cut(n, k) <= q < n && p[q] == y {
      assert y in p;
      var q :| 0 <= q < n && p[q] == y;
    }
  }

  /** `argsort(s)[:k]` for any argsort order `p` of `s`: the selected indices are distinct and in
      range, listed by ascending score, and no selected score exceeds an unselected one. */
  lemma SelectLowest(p: seq<nat>, s: seq<real>, k: int)
    requires IsArgsort(p, s)
    ensures |Take(p, k)| == Cut(|s|, k)
    ensures Distinct(Take(p, k)) && AllBelow(Take(p, k), |s|)
    ensures forall a, b :: 0 <= a < b < |Take(p, k)| ==> s[Take(p, k)[a]] <= s[Take(p, k)[b]]
    ensures forall x: nat, y: nat :: x in Take(p, k) && y < |s| && y !in Take(p, k) ==> s[x] <= s[y]
  {
    var r := Take(p, k);
    PrefixOfPermutation(p, |s|, k);
    forall x: nat, y: nat | x in r && y < |s| && y !in r ensures s[x] <= s[y] {
      var a :| 0 <= a < |r| && r[a] == x;
      var q :| Cut(|s|, k) <= q < |s| && p[q] == y;
      assert p[a] == x;
    }
  }

  /** Reading an argsort order back to front lists every index once, by descending score. */
  lemma ReversedArgsort(p: seq<nat>, s: seq<real>)
    requires IsArgsort(p, s)
    ensures IsPermutation(Reverse(p), |s|)
    ensures forall a, b :: 0 <= a < b < |p| ==> s[Reverse(p)[a]] >= s[Reverse(p)[b]]
  {
    var n := |p|;
    var r := Reverse(p);
    forall j: nat | j < n ensures j in r {
      assert j in p;
      var q :| 0 <= q < n && p[q] == j;
      assert r[n - 1 - q] == j;
    }
  }

  /** `argsort(s)[::-1][:k]` for any argsort order `p` of `s`: the selected indices are distinct
      and in range, listed by descending score, and no unselected score exceeds a selected one. */
  lemma SelectHighest(p: seq<nat>, s: seq<real>, k: int)
    requires IsArgsort(p, s)
    ensures |Take(Reverse(p), k)| == Cut(|s|, k)
    ensures Distinct(Take(Reverse(p), k)) && AllBelow(Take(Reverse(p), k), |s|)
    ensures forall a, b :: 0 <= a < b < |Take(Reverse(p), k)| ==>
      s[Take(Reverse(p), k)[a]] >= s[Take(Reverse(p), k)[b]]
    ensures forall x: nat, y: nat :: x in Take(Reverse(p), k) && y < |s| && y !in Take(Reverse(p), k) ==>
      s[x] >= s[y]
  {
    var o := Reverse(p);
    var r := Take(o, k);
    ReversedArgsort(p, s);
    PrefixOfPermutation(o, |s|, k);
    forall x: nat, y: nat | x in r && y < |s| && y !in r ensures s[x] >= s[y] {
      var a :| 0 <= a < |r| && r[a] == x;
      var q :| Cut(|s|, k) <= q < |s| && o[q] == y;
      assert o[a] == x;
    }
  }

  /** `sorted[-1] - sorted[-2]` for one row of probabilities: the gap between the largest and
      the second largest entry. */
  function TopTwoGap(row: seq<real>): (m: real)
    requires |row| >= 2
    ensures m >= 0.0
  {
    var r := Sort(row);
    r[|r| - 1] - r[|r| - 2]
  }

  /** Position `a` holds a largest entry of `row`. */
  predicate IsTop(row: seq<real>, a: nat)
    requires a < |row|
  {
    forall j :: 0 <= j < |row| ==> row[j] <= row[a]
  }

  /** Position `b` is not `a` and holds a largest entry among all positions but `a`. */
  predicate IsRunnerUp(row: seq<real>, a: nat, b: nat)
    requires a < |row| && b < |row|
  {
    b != a && forall j :: 0 <= j < |row| && j != a ==> row[j] <= row[b]
  }

  /** The gap is taken between two different positions: `a` holds the largest entry and `b` the
      largest of all the others. */
  lemma TopTwoGapPositions(row: seq<real>)
    requires |row| >= 2
    ensures exists a: nat, b: nat ::
      (a < |row| && b < |row| && IsTop(row, a) && IsRunnerUp(row, a, b) && row[a] - row[b] == TopTwoGap(row))
  {
    var n := |row|;
    var p := ArgSort(row);
    var a, b := p[n - 1], p[n - 2];
    forall j | 0 <= j < n ensures row[j] <= row[a] && (j != a ==> row[j] <= row[b]) {
      var q := PositionOf(p, row, j);
      if j != a {
        assert q != n - 1;
      }
    }
    assert IsTop(row, a) && IsRunnerUp(row, a, b);
    assert row[a] - row[b] == TopTwoGap(row);
  }

  /** The gap is zero exactly when the largest entry occurs at two positions, which is when the
      positivity assertion of `main` fails. */
  lemma TopTwoGapZeroIffTie(row: seq<real>)
    requires |row| >= 2
    ensures TopTwoGap(row) == 0.0 <==>
      exists a: nat, b: nat :: a < b < |row| && row[a] == row[b] && IsTop(row, a)
  {
    TopTwoGapPositions(row);
    var a: nat, b: nat :| a < |row| && b < |row| && IsTop(row, a) && IsRunnerUp(row, a, b)
      && row[a] - row[b] == TopTwoGap(row);
    if TopTwoGap(row) == 0.0 {
      if a < b {
        assert row[a] == row[b];
      } else {
        assert row[b] == row[a] && IsTop(row, b);
      }
    }
    if exists a': nat, b': nat :: a' < b' < |row| && row[a'] == row[b'] && IsTop(row, a') {
      var a': nat, b': nat :| a' < b' < |row| && row[a'] == row[b'] && IsTop(row, a');
      var other := if a' != a then a' else b';
      assert row[other] <= row[b];
    }
  }

  /** Two classes, one more likely than the other: the gap is the difference of the two
      probabilities. */
  lemma TopTwoGapOfPair(hi: real, lo: real)
    requires lo < hi
    ensures TopTwoGap([hi, lo]) == hi - lo
    ensures TopTwoGap([lo, hi]) == hi - lo
  {
    var row, flipped := [hi, lo], [lo, hi];
    TopTwoGapPositions(row);
    TopTwoGapPositions(flipped);
    var a: nat, b: nat :| a < |row| && b < |row| && IsTop(row, a) && IsRunnerUp(row, a, b)
      && row[a] - row[b] == TopTwoGap(row);
    var a': nat, b': nat :| a' < |flipped| && b' < |flipped| && IsTop(flipped, a') && IsRunnerUp(flipped, a', b')
      && flipped[a'] - flipped[b'] == TopTwoGap(flipped);
  }

  /** A tie between two classes leaves a zero gap. */
  lemma TopTwoGapOfTie(q: real)
    ensures TopTwoGap([q, q]) == 0.0
  {
    var row := [q, q];
    TopTwoGapPositions(row);
    var a: nat, b: nat :| a < |row| && b < |row| && IsTop(row, a) && IsRunnerUp(row, a, b)
      && row[a] - row[b] == TopTwoGap(row);
  }

  predicate RowsAtLeastTwo(probs: seq<seq<real>>) {
    forall i :: 0 <= i < |probs| ==> |probs[i]| >= 2
  }

  /** `pool_probs_diff`, one gap per pool example. */
  function Gaps(probs: seq<seq<real>>): (r: seq<real>)
    requires RowsAtLeastTwo(probs)
    ensures |r| == |probs|
    ensures forall i :: 0 <= i < |probs| ==> r[i] == TopTwoGap(probs[i])
  {
    seq(|probs|, i requires 0 <= i < |probs| => TopTwoGap(probs[i]))
  }

  /** The correctly and the incorrectly predicted pool examples partition the pool: each list is
      ascending, an index is in the first exactly when the true and predicted labels agree and in
      the second exactly when they differ, and the lengths add up to the pool size. */
  lemma PoolPartition(trueLabels: seq<nat>, predicted: seq<nat>)
    requires |trueLabels| == |predicted|
    ensures var hits := Matches(trueLabels, predicted);
      && |Where(hits)| + |Where(Not(hits))| == |trueLabels|
      && StrictlyIncreasing(Where(hits)) && StrictlyIncreasing(Where(Not(hits)))
      && (forall i: nat :: i in Where(hits) <==> i < |trueLabels| && trueLabels[i] == predicted[i])
      && (forall i: nat :: i in Where(Not(hits)) <==> i < |trueLabels| && trueLabels[i] != predicted[i])
      && (forall i: nat :: i in Where(hits) ==> i !in Where(Not(hits)))
  {
    var hits := Matches(trueLabels, predicted);
    WhereSplits(hits);
    WhereMembers(hits);
    WhereMembers(Not(hits));
  }

  /** `correct` and `incorrect` split the pool by whether the predicted class (the argmax of a
      logit row) is the labelled class (the argmax of a one-hot row): both ascending, together
      as long as the pool, an index in the first exactly when the two classes agree and in the
      second exactly when they differ. */
  ghost predicate SplitsPool(labels: seq<seq<real>>, logits: seq<seq<real>>, correct: seq<nat>, incorrect: seq<nat>)
    requires |logits| == |labels| && RowsNonEmpty(labels) && RowsNonEmpty(logits)
  {
    && (forall i: nat :: i in correct <==> i < |labels| && ArgMax(labels[i]) == ArgMax(logits[i]))
    && (forall i: nat :: i in incorrect <==> i < |labels| && ArgMax(labels[i]) != ArgMax(logits[i]))
    && StrictlyIncreasing(correct) && StrictlyIncreasing(incorrect)
    && |correct| + |incorrect| == |labels|
  }

  /** `correct_idx` and `incorrect_idx` of `main` split the pool. */
  lemma ArgMaxSplitsPool(labels: seq<seq<real>>, logits: seq<seq<real>>)
    requires |logits| == |labels| && RowsNonEmpty(labels) && RowsNonEmpty(logits)
    ensures var hits := Matches(ArgMaxRows(labels), ArgMaxRows(logits));
      SplitsPool(labels, logits, Where(hits), Where(Not(hits)))
  {
    var trueLabels, predicted := ArgMaxRows(labels), ArgMaxRows(logits);
    PoolPartition(trueLabels, predicted);
    assert forall i :: 0 <= i < |labels| ==>
      trueLabels[i] == ArgMax(labels[i]) && predicted[i] == ArgMax(logits[i]);
  }

  datatype SelectionError =
    | EmptyRowArgMax   // `np.argmax` over an empty label or logit row
    | UnknownCriterion   // no branch assigns `pool_uncertain_indices`: a NameError at line 334
    | MinOfEmpty         // `min` or `onp.min` of an empty array
    | RowTooShort        // `sorted_pool_probs[:, -2]` out of bounds
    | GapNotPositive     // the assertion `min(pool_probs_diff) > 0.`
    | WrongCount         // the assertion `FLAGS.n_extra == len(finetune_images)`

  /** `pool_uncertain_indices` for one criterion, with the errors raised on the way. */
  function Uncertain(c: Criterion, probs: seq<seq<real>>, entropy: seq<real>, perm: seq<nat>, k: int)
    : (r: Result<seq<nat>, SelectionError>)
    requires |probs| == |entropy| && IsPermutation(perm, |entropy|)
    ensures r.Ok? ==> |r.value| == Cut(|entropy|, k)
    ensures r.Ok? ==> Distinct(r.value) && AllBelow(r.value, |entropy|)
    ensures c == Entropy ==> (r.Ok? <==> Cut(|entropy|, k) > 0)
    ensures c == Entropy && r.Ok? ==>
      && (forall a, b :: 0 <= a < b < |r.value| ==> entropy[r.value[a]] >= entropy[r.value[b]])
      && (forall x: nat, y: nat :: x in r.value && y < |entropy| && y !in r.value ==> entropy[x] >= entropy[y])
    ensures c == Margin ==>
      (r.Ok? <==> Cut(|entropy|, k) > 0 && RowsAtLeastTwo(probs)
                  && forall i :: 0 <= i < |probs| ==> TopTwoGap(probs[i]) > 0.0)
    ensures c == Margin && r.Ok? ==>
      var gaps := Gaps(probs);
      && (forall a, b :: 0 <= a < b < |r.value| ==> gaps[r.value[a]] <= gaps[r.value[b]])
      && (forall x: nat, y: nat :: x in r.value && y < |gaps| && y !in r.value ==> gaps[x] <= gaps[y])
    ensures c == Random ==> r == Ok(Take(perm, k))
  {
    match c
    case Entropy =>
      if |entropy| == 0 then Err(MinOfEmpty)
      else
        var order := ArgSort(entropy);
        SelectHighest(order, entropy, k);
        var picked := Take(Reverse(order), k);
        if picked == [] then Err(MinOfEmpty) else Ok(picked)
    case Margin =>
      if |probs| == 0 then Err(MinOfEmpty)
      else if !RowsAtLeastTwo(probs) then Err(RowTooShort)
      else
        var gaps := Gaps(probs);
        if exists i :: 0 <= i < |gaps| && gaps[i] <= 0.0 then Err(GapNotPositive)
        else
          var order := ArgSort(gaps);
          SelectLowest(order, gaps, k);
          var picked := Take(order, k);
          if picked == [] then Err(MinOfEmpty) else Ok(picked)
    case Random =>
      PrefixOfPermutation(perm, |entropy|, k);
      Ok(Take(perm, k))
  }

  /** `u` is a selection that flag value `code` may make with `n_extra` examples:
      exactly `n_extra` distinct pool indices, with `0 <= n_extra <= n_pool`; for the entropy
      criterion listed by descending entropy, with no unpicked entropy larger than a picked one;
      for the gap criterion listed by ascending gap, with no unpicked gap smaller than a picked
      one; for the random criterion the first `n_extra` entries of the permutation. */
  ghost predicate PickedFor(probs: seq<seq<real>>, entropy: seq<real>, perm: seq<nat>, code: int, nExtra: int,
                            u: seq<nat>)
    requires |probs| == |entropy| && IsPermutation(perm, |entropy|)
  {
    && 0 <= nExtra <= |entropy| && |u| == nExtra
    && Distinct(u) && AllBelow(u, |entropy|)
    && (code == 0 ==>
          && (forall a, b :: 0 <= a < b < |u| ==> entropy[u[a]] >= entropy[u[b]])
          && (forall x: nat, y: nat :: x in u && y < |entropy| && y !in u ==> entropy[x] >= entropy[y]))
    && (code == 1 ==>
          && RowsAtLeastTwo(probs)
          && (forall a, b :: 0 <= a < b < |u| ==> TopTwoGap(probs[u[a]]) <= TopTwoGap(probs[u[b]]))
          && (forall x: nat, y: nat :: x in u && y < |probs| && y !in u ==>
                TopTwoGap(probs[x]) <= TopTwoGap(probs[y])))
    && (code == 2 ==> u == perm[..nExtra])
  }

  /** `pool_uncertain_indices` for the flag value `code`, followed by the assertion that exactly
      `n_extra` examples were picked. */
  function PickUncertain(probs: seq<seq<real>>, entropy: seq<real>, perm: seq<nat>, code: int, nExtra: int)
    : (r: Result<seq<nat>, SelectionError>)
    requires |probs| == |entropy| && IsPermutation(perm, |entropy|)
    ensures CriterionOf(code) == None ==> r == Err(UnknownCriterion)
    ensures r.Ok? ==> CriterionOf(code).Some? && PickedFor(probs, entropy, perm, code, nExtra, r.value)
    ensures code == 0 ==> (r.Ok? <==> 0 < nExtra <= |entropy|)
    ensures code == 1 ==>
      (r.Ok? <==> 0 < nExtra <= |entropy| && RowsAtLeastTwo(probs)
                  && forall i :: 0 <= i < |probs| ==> TopTwoGap(probs[i]) > 0.0)
    ensures code == 2 ==> (r.Ok? <==> 0 <= nExtra <= |entropy|)
  {
    match CriterionOf(code)
    case None => Err(UnknownCriterion)
    case Some(c) =>
      var picked := Uncertain(c, probs, entropy, perm, nExtra);
      if picked.Err? then picked
      else if nExtra != |picked.value| then Err(WrongCount)
      else picked
  }

  /** What the selection step leaves for fine-tuning. */
  datatype Picked = Picked(correct: seq<nat>, incorrect: seq<nat>, uncertain: seq<nat>)

  /** Lines 287-344 of `main`, from the pool's one-hot labels and logits, the softmax
      probabilities, the entropies, the permutation `npr.permutation(n_pool)`, the flag
      `uncertain` and `n_extra`. */
  function PickExtraPoints(labels: seq<seq<real>>, logits: seq<seq<real>>, probs: seq<seq<real>>,
                           entropy: seq<real>, perm: seq<nat>, code: int, nExtra: int)
    : (r: Result<Picked, SelectionError>)
    requires |logits| == |labels| && |probs| == |labels| && |entropy| == |labels|
    requires IsPermutation(perm, |labels|)
    ensures r == Err(EmptyRowArgMax) <==> !RowsNonEmpty(labels) || !RowsNonEmpty(logits)
    ensures RowsNonEmpty(labels) && RowsNonEmpty(logits) && CriterionOf(code) == None ==>
      r == Err(UnknownCriterion)
    ensures r.Ok? ==> CriterionOf(code).Some? && SplitsPool(labels, logits, r.value.correct, r.value.incorrect)
    ensures r.Ok? ==> PickedFor(probs, entropy, perm, code, nExtra, r.value.uncertain)
    ensures RowsNonEmpty(labels) && RowsNonEmpty(logits) && code == 0 ==>
      (r.Ok? <==> 0 < nExtra <= |labels|)
    ensures RowsNonEmpty(labels) && RowsNonEmpty(logits) && code == 1 ==>
      (r.Ok? <==> 0 < nExtra <= |labels| && RowsAtLeastTwo(probs)
                  && forall i :: 0 <= i < |probs| ==> TopTwoGap(probs[i]) > 0.0)
    ensures RowsNonEmpty(labels) && RowsNonEmpty(logits) && code == 2 ==>
      (r.Ok? <==> 0 <= nExtra <= |labels|)
  {
    if !RowsNonEmpty(labels) || !RowsNonEmpty(logits) then Err(EmptyRowArgMax)
    else
      var trueLabels := ArgMaxRows(labels);
      var predicted := ArgMaxRows(logits);
      ArgMaxSplitsPool(labels, logits);
      var hits := Matches(trueLabels, predicted);
      var correct, incorrect := Where(hits), Where(Not(hits));
      var picked := PickUncertain(probs, entropy, perm, code, nExtra);
      if picked.Err? then Err(picked.error) else Ok(Picked(correct, incorrect, picked.value))
  }
}
